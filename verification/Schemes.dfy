/** GuideMarkScheme.Grade and PreviewGuide: two dispatchers over the match
    types, one of which may call a model. The model's reply is a parameter. */
module Schemes {
  import opened Wrappers
  import opened Text
  import opened Papers
  import opened Matchers

  type Guide = map<string, GuideEntry>

  // What the model answered, None when the call failed or the reply did not parse.
  datatype Reply = Reply(awarded: real, justification: string, confidence: real)

  // A graded question and the number of model calls it took
  datatype Outcome = Outcome(graded: GradedQuestion, calls: nat)

  predicate IsBlank(answer: string) { Trim(answer) == [] }

  function AnswerFlags(q: TranscribedQuestion): seq<AnswerFlag> {
    if IsBlank(q.studentAnswer) then [BlankAnswer]
    else if q.readConfidence < 0.5 then [LowReadConfidence]
    else []
  }

  function Graded(q: TranscribedQuestion, maxMarks: real, awarded: real, reason: Reason, confidence: real,
                  flags: seq<AnswerFlag>): GradedQuestion
  {
    GradedQuestion(q.questionNo, q.section, maxMarks, awarded, q.studentAnswer, reason, confidence, flags, [])
  }

  function FromModel(q: TranscribedQuestion, maxMarks: real, reply: Option<Reply>): GradedQuestion {
    match reply
    case None => Graded(q, maxMarks, 0.0, GradingFailed, 0.0, AnswerFlags(q) + [GradingFailedFlag])
    case Some(r) =>
      Graded(q, maxMarks, Clamp(r.awarded, 0.0, maxMarks), Said(r.justification), r.confidence, AnswerFlags(q))
  }

  // LLMJudge.Grade
  function Judge(q: TranscribedQuestion, reply: Option<Reply>): Outcome {
    if IsBlank(q.studentAnswer) then Outcome(Graded(q, q.maxMarks, 0.0, NothingWritten, 1.0, AnswerFlags(q)), 0)
    else Outcome(FromModel(q, q.maxMarks, reply), 1)
  }

  predicate Deterministic(t: MatchType) {
    t.Exact? || t.ExactCi? || t.SetOf? || t.Numeric? || t.MultiStep? || t.Partial?
  }

  // The verdict both dispatchers reach for a deterministic match type; full is
  // what an un-normalized objective match earns.
  function Evaluate(lib: Lib, entry: GuideEntry, full: real, answer: string): Verdict
    requires Deterministic(entry.matchType)
  {
    match entry.matchType
    case Exact | ExactCi | SetOf =>
      if entry.normalize then ObjectiveVerdict(lib, entry, Trim(answer))
      else if Objective(lib, entry.matchType, entry.answer, entry.accept, Trim(answer)) then Verdict(full, 1.0, Matches)
      else Verdict(0.0, 1.0, DoesNotMatch)
    case Numeric => NumericVerdict(lib, entry, Trim(answer))
    case MultiStep => MultiStepVerdict(lib, entry, answer)
    case Partial => PartialVerdict(lib, entry, answer)
  }

  function EffectiveMax(entry: GuideEntry, q: TranscribedQuestion): real {
    if entry.maxMarks == 0.0 then q.maxMarks else entry.maxMarks
  }

  function GradeQuestion(lib: Lib, guide: Guide, hasProvider: bool, q: TranscribedQuestion,
                         reply: Option<Reply>): Outcome
  {
    if q.questionNo !in guide then Judge(q, reply)
    else
      var entry := guide[q.questionNo];
      var maxMarks := EffectiveMax(entry, q);
      if IsBlank(q.studentAnswer) then
        Outcome(Graded(q, maxMarks, 0.0, NothingWritten, 1.0, AnswerFlags(q)), 0)
      else if Deterministic(entry.matchType) then
        var v := Evaluate(lib, entry, maxMarks, q.studentAnswer);
        Outcome(Graded(q, maxMarks, Clamp(v.awarded, 0.0, maxMarks), v.reason, v.confidence, AnswerFlags(q)), 0)
      else if entry.matchType.Rubric? && hasProvider then
        Outcome(FromModel(q, maxMarks, reply), 1)
      else Judge(q, reply)
  }

  class Provider {
    var calls: nat

    constructor ()
      ensures calls == 0
    {
      calls := 0;
    }

    method Complete(answer: Option<Reply>) returns (reply: Option<Reply>)
      modifies this
      ensures reply == answer && calls == old(calls) + 1
    {
      calls := calls + 1;
      reply := answer;
    }
  }

  class GuideMarkScheme {
    const lib: Lib
    const guide: Guide
    const hasProvider: bool   // a provider was configured for rubric entries
    const ai: Provider        // the provider of the LLMJudge fallback, and of rubric entries

    constructor (lib: Lib, guide: Guide, hasProvider: bool, ai: Provider)
      ensures this.lib == lib && this.guide == guide && this.hasProvider == hasProvider && this.ai == ai
    {
      this.lib, this.guide, this.hasProvider, this.ai := lib, guide, hasProvider, ai;
    }

    method AskJudge(q: TranscribedQuestion, answer: Option<Reply>) returns (g: GradedQuestion)
      modifies ai
      ensures var o := Judge(q, answer); g == o.graded && ai.calls == old(ai.calls) + o.calls
    {
      if IsBlank(q.studentAnswer) {
        return Graded(q, q.maxMarks, 0.0, NothingWritten, 1.0, AnswerFlags(q));
      }
      var reply := ai.Complete(answer);
      g := FromModel(q, q.maxMarks, reply);
    }

    method Grade(q: TranscribedQuestion, answer: Option<Reply>) returns (g: GradedQuestion)
      modifies ai
      ensures var o := GradeQuestion(lib, guide, hasProvider, q, answer);
              g == o.graded && ai.calls == old(ai.calls) + o.calls
    {
      if q.questionNo !in guide {
        g := AskJudge(q, answer);
        return;
      }
      var entry := guide[q.questionNo];
      var maxMarks := entry.maxMarks;
      if maxMarks == 0.0 {
        maxMarks := q.maxMarks;
      }
      if IsBlank(q.studentAnswer) {
        return Graded(q, maxMarks, 0.0, NothingWritten, 1.0, AnswerFlags(q));
      }
      var v: Verdict;
      match entry.matchType {
        case Exact | ExactCi | SetOf =>
          if entry.normalize {
            v := MatchObjectiveNormalized(lib, entry, Trim(q.studentAnswer));
          } else {
            var ok := ObjectiveMatch(lib, entry.matchType, entry.answer, entry.accept, Trim(q.studentAnswer));
            v := if ok then Verdict(maxMarks, 1.0, Matches) else Verdict(0.0, 1.0, DoesNotMatch);
          }
        case Numeric => v := MatchNumeric(lib, entry, Trim(q.studentAnswer));
        case MultiStep => v := MatchMultiStep(lib, entry, q.studentAnswer);
        case Partial => v := MatchPartial(lib, entry, q.studentAnswer);
        case Rubric =>
          if !hasProvider {
            g := AskJudge(q, answer);
          } else {
            var reply := ai.Complete(answer);
            g := FromModel(q, maxMarks, reply);
          }
          return;
        case UnknownType(_) =>
          g := AskJudge(q, answer);
          return;
      }
      g := Graded(q, maxMarks, Clamp(v.awarded, 0.0, maxMarks), v.reason, v.confidence, AnswerFlags(q));
    }
  }

  // Preview ---------------------------------------------------------------------

  datatype PreviewSample = PreviewSample(questionNo: string, studentAnswer: string)

  datatype PreviewResult = PreviewResult(
    questionNo: string, awarded: real, maxMarks: real, matchType: Option<MatchType>,
    confidence: real, justification: Reason, previewable: bool)

  function Preview(lib: Lib, guide: Guide, s: PreviewSample): PreviewResult {
    if s.questionNo !in guide then PreviewResult(s.questionNo, 0.0, 0.0, None, 0.0, NotInGuide, false)
    else
      var entry := guide[s.questionNo];
      if !Deterministic(entry.matchType) then
        PreviewResult(s.questionNo, 0.0, entry.maxMarks, Some(entry.matchType), 0.0, NeedsModel, false)
      else
        var v := Evaluate(lib, entry, entry.maxMarks, s.studentAnswer);
        PreviewResult(s.questionNo, Clamp(v.awarded, 0.0, entry.maxMarks), entry.maxMarks, Some(entry.matchType),
                      v.confidence, v.reason, true)
  }

  method PreviewGuide(lib: Lib, guide: Guide, samples: seq<PreviewSample>) returns (results: seq<PreviewResult>)
    ensures |results| == |samples|
    ensures forall i :: 0 <= i < |samples| ==> results[i] == Preview(lib, guide, samples[i])
  {
    results := [];
    for i := 0 to |samples|
      invariant |results| == i
      invariant forall j :: 0 <= j < i ==> results[j] == Preview(lib, guide, samples[j])
    {
      var s := samples[i];
      if s.questionNo !in guide {
        results := results + [PreviewResult(s.questionNo, 0.0, 0.0, None, 0.0, NotInGuide, false)];
        continue;
      }
      var entry := guide[s.questionNo];
      if !Deterministic(entry.matchType) {
        var unseen := PreviewResult(s.questionNo, 0.0, entry.maxMarks, Some(entry.matchType), 0.0, NeedsModel, false);
        results := results + [unseen];
        continue;
      }
      var v: Verdict;
      match entry.matchType {
        case Exact | ExactCi | SetOf =>
          if entry.normalize {
            v := MatchObjectiveNormalized(lib, entry, Trim(s.studentAnswer));
          } else {
            var ok := ObjectiveMatch(lib, entry.matchType, entry.answer, entry.accept, Trim(s.studentAnswer));
            v := if ok then Verdict(entry.maxMarks, 1.0, Matches) else Verdict(0.0, 1.0, DoesNotMatch);
          }
        case Numeric => v := MatchNumeric(lib, entry, Trim(s.studentAnswer));
        case MultiStep => v := MatchMultiStep(lib, entry, s.studentAnswer);
        case Partial => v := MatchPartial(lib, entry, s.studentAnswer);
      }
      results := results + [PreviewResult(s.questionNo, Clamp(v.awarded, 0.0, entry.maxMarks), entry.maxMarks,
                                          Some(entry.matchType), v.confidence, v.reason, true)];
    }
  }

  // Agreement -------------------------------------------------------------------

  function SampleOf(q: TranscribedQuestion): PreviewSample { PreviewSample(q.questionNo, q.studentAnswer) }

  predicate PlainMatch(lib: Lib, entry: GuideEntry, answer: string) {
    && (entry.matchType.Exact? || entry.matchType.ExactCi? || entry.matchType.SetOf?) && !entry.normalize
    && Objective(lib, entry.matchType, entry.answer, entry.accept, Trim(answer))
  }

  // A guide entry without marks takes the paper's, which only an objective
  // match compared without normalizing can earn. Under negative paper marks
  // the clamp turns every other award negative.
  predicate PaperMarksShow(lib: Lib, entry: GuideEntry, q: TranscribedQuestion) {
    entry.maxMarks == 0.0 && q.maxMarks != 0.0 && (q.maxMarks > 0.0 <==> PlainMatch(lib, entry, q.studentAnswer))
  }

  // Preview predicts grading for every written answer: always the confidence
  // and the reason, and the marks except where the paper's marks stand in.
  lemma PreviewAgrees(lib: Lib, guide: Guide, hasProvider: bool, q: TranscribedQuestion, reply: Option<Reply>)
    requires !IsBlank(q.studentAnswer) && Preview(lib, guide, SampleOf(q)).previewable
    ensures var p, g := Preview(lib, guide, SampleOf(q)), GradeQuestion(lib, guide, hasProvider, q, reply).graded;
            && p.confidence == g.confidence && p.justification == g.justification
            && (p.awarded == g.awardedMarks <==> !PaperMarksShow(lib, guide[q.questionNo], q))
  {
  }

  // A guide entry without marks of its own, which ValidateGuide accepts: preview
  // gives the right answer nothing, and grading gives it the paper's marks.
  lemma PreviewUnderstates(lib: Lib, hasProvider: bool, reply: Option<Reply>)
    ensures var entry := GuideEntry(0.0, "4", [], Exact, false, None, 0.0, "", "", 0.0, [], []);
            var q := TranscribedQuestion(None, "1", 2.0, "4", 1.0);
            && Preview(lib, map["1" := entry], SampleOf(q)).previewable
            && Preview(lib, map["1" := entry], SampleOf(q)).awarded == 0.0
            && GradeQuestion(lib, map["1" := entry], hasProvider, q, reply).graded.awardedMarks == 2.0
  {
    SolidIsTrimmed("4");
  }

  // With a provider, a written answer is previewable exactly when grading it
  // calls no model.
  lemma PreviewableMeansNoModel(lib: Lib, guide: Guide, q: TranscribedQuestion, reply: Option<Reply>)
    requires !IsBlank(q.studentAnswer)
    ensures Preview(lib, guide, SampleOf(q)).previewable <==>
            GradeQuestion(lib, guide, true, q, reply).calls == 0
    ensures GradeQuestion(lib, guide, true, q, reply).calls <= 1
  {
  }

  // Whatever the model says, the marks stay within the question's.
  lemma AwardsAreBounded(lib: Lib, guide: Guide, hasProvider: bool, q: TranscribedQuestion, reply: Option<Reply>)
    ensures var g := GradeQuestion(lib, guide, hasProvider, q, reply).graded;
            && g.questionNo == q.questionNo && g.section == q.section
            && (g.maxMarks >= 0.0 ==> 0.0 <= g.awardedMarks <= g.maxMarks)
  {
  }
}
