/** What the deterministic matchers award, read off the answer as it is written
    and the guide entry's own fields. */
module Awards {
  import opened Wrappers
  import opened Text
  import opened Lines
  import opened Papers
  import opened Matchers
  import opened Schemes
  import opened AnswerForms

  // numeric ---------------------------------------------------------------------------

  function ExpectedValue(numericAnswer: Option<real>): real {
    match numericAnswer
    case None => 0.0
    case Some(x) => x
  }

  // p is no further from e than the tolerance, in the measure it is given in.
  predicate Near(p: real, e: real, tolerance: real, toleranceType: string) {
    var far := if p < e then e - p else p - e;
    if toleranceType == "pct" then
      if e == 0.0 then far == 0.0
      else 100.0 * far <= tolerance * (if e < 0.0 then 0.0 - e else e)
    else far <= tolerance
  }

  predicate SameButCase(lib: Lib, a: string, b: string) {
    |a| == |b| && forall i :: 0 <= i < |a| ==> lib.fold(a[i]) == lib.fold(b[i])
  }

  function TypeName(toleranceType: string): string {
    if toleranceType == "" then "abs" else toleranceType
  }

  // The marks for a value p, with the right unit behind it or not: nothing too far
  // away; all of them near, but for the unit's own when the unit is not right.
  ghost predicate NumericMarks(entry: GuideEntry, p: real, unitRight: bool, v: Verdict) {
    var e, kind := ExpectedValue(entry.numericAnswer), TypeName(entry.toleranceType);
    && v.confidence == 1.0
    && (!Near(p, e, entry.tolerance, kind) ==>
          v.awarded == 0.0 && v.reason == OutsideTolerance(p, e, entry.tolerance, kind))
    && (Near(p, e, entry.tolerance, kind) && entry.unitMarks <= 0.0 ==>
          v.awarded == entry.maxMarks && v.reason == WithinTolerance(p, e, entry.tolerance, kind))
    && (Near(p, e, entry.tolerance, kind) && entry.unitMarks > 0.0 && unitRight ==>
          v.awarded == entry.maxMarks && v.reason == ValueAndUnit(p, entry.unit))
    && (Near(p, e, entry.tolerance, kind) && entry.unitMarks > 0.0 && !unitRight ==>
          && v.reason == ValueWithoutUnit(p, entry.unit)
          && v.awarded == (if entry.maxMarks > entry.unitMarks then entry.maxMarks - entry.unitMarks else 0.0))
  }

  lemma VerdictMarks(entry: GuideEntry, p: real, unitRight: bool)
    ensures NumericMarks(entry, p, unitRight, ValueVerdict(entry, p, unitRight))
  {
  }

  lemma NumberAloneAwards(lib: Lib, entry: GuideEntry, pad: string, n: string, tail: string)
    requires AllSpace(pad) && AllSpace(tail) && IsToken(n) && lib.parseFloat(n).Some?
    ensures NumericMarks(entry, lib.parseFloat(n).value, false, NumericVerdict(lib, entry, pad + n + tail))
  {
    NumberAlone(lib, entry, pad, n, tail);
    VerdictMarks(entry, lib.parseFloat(n).value, false);
  }

  lemma NumberAndUnitAwards(
      lib: Lib, entry: GuideEntry, pad: string, n: string, gap: string, u: string, tail: string)
    requires AllSpace(pad) && AllSpace(gap) && gap != [] && AllSpace(tail) && IsToken(n) && IsToken(u)
    requires lib.parseFloat(n).Some? && lib.parseFloat(u).None? && entry.unit != []
    ensures NumericMarks(entry, lib.parseFloat(n).value, SameButCase(lib, u, entry.unit),
                         NumericVerdict(lib, entry, pad + n + gap + u + tail))
  {
    NumberAndUnit(lib, entry, pad, n, gap, u, tail);
    VerdictMarks(entry, lib.parseFloat(n).value, EqualFold(lib, u, entry.unit));
  }

  // An answer that is one word and no number, or blank, or any text that is no
  // number where the guide asks for no unit
  lemma NoNumberEarnsNothing(lib: Lib, entry: GuideEntry, answer: string)
    requires lib.parseFloat(Trim(answer)).None? && (entry.unit == [] || |Fields(answer)| < 2)
    ensures NumericVerdict(lib, entry, answer) == Verdict(0.0, 1.0, NotANumber)
  {
    FieldsOfTrim(answer);
    TrimTwice(answer);
  }

  // exact, exact_ci, set ----------------------------------------------------------------

  // Which trimmed answers a guide value accepts: not even a blank one a blank value
  ghost predicate Accepted(lib: Lib, value: string, answer: string, foldsCase: bool) {
    && Trim(value) != []
    && (if foldsCase then SameButCase(lib, answer, Trim(value)) else answer == Trim(value))
  }

  // Full marks for an accepted answer, else none: an exact entry compares the
  // text, exact_ci and set overlook case, a normalized entry compares normal forms.
  lemma ObjectiveAwards(lib: Lib, entry: GuideEntry, answer: string)
    ensures var v := ObjectiveVerdict(lib, entry, answer);
            var right :=
              if entry.normalize then
                if entry.matchType == SetOf then
                  exists k :: 0 <= k < |entry.accept| &&
                    NormalizeText(lib, entry.accept[k]) == NormalizeText(lib, answer)
                else NormalizeText(lib, entry.answer) == NormalizeText(lib, answer)
              else if entry.matchType == SetOf then
                exists k :: 0 <= k < |entry.accept| && Accepted(lib, entry.accept[k], answer, true)
              else Accepted(lib, entry.answer, answer, entry.matchType == ExactCi);
            v == if right then Verdict(entry.maxMarks, 1.0, Matches) else Verdict(0.0, 1.0, DoesNotMatch)
  {
    if !entry.normalize && entry.matchType == SetOf {
      forall k | 0 <= k < |entry.accept|
        ensures Accepted(lib, entry.accept[k], answer, true) <==> AcceptsFold(lib, Trim(entry.accept[k]), answer)
      {
      }
    }
  }

  // multi_step ----------------------------------------------------------------------------

  // A numeric step is hit by a number within its own tolerance, if it has marks.
  lemma NumericStepHits(lib: Lib, step: StepEntry, pad: string, n: string, tail: string)
    requires step.matchType == Numeric
    requires AllSpace(pad) && AllSpace(tail) && IsToken(n) && lib.parseFloat(n).Some?
    ensures Hits(lib, step, pad + n + tail) <==>
            && step.marks > 0.0
            && Near(lib.parseFloat(n).value, ExpectedValue(step.numericAnswer), step.tolerance,
                    TypeName(step.toleranceType))
  {
    TrimAround(pad, n, tail);
    TrimLeftBlank(pad);
    TrimRightBlank(tail);
    assert Trim(pad + n + tail) == n && [] + n + [] == n;
    NumberAlone(lib, NumericStep(step), [], n, []);
  }

  // Any other step is hit by the trimmed text its values accept.
  lemma ObjectiveStepHits(lib: Lib, step: StepEntry, text: string)
    requires step.matchType != Numeric
    ensures Hits(lib, step, text) <==>
            if step.matchType == SetOf then
              exists k :: 0 <= k < |step.accept| && Accepted(lib, step.accept[k], Trim(text), true)
            else Accepted(lib, step.answer, Trim(text), step.matchType == ExactCi)
  {
    forall k | 0 <= k < |step.accept|
      ensures Accepted(lib, step.accept[k], Trim(text), true)
         <==> AcceptsFold(lib, Trim(step.accept[k]), Trim(text))
    {
    }
  }

  // A step gives its marks, if positive, when a line or the whole answer hits it.
  ghost predicate Earns(lib: Lib, step: StepEntry, answer: string) {
    && step.marks > 0.0
    && (Hits(lib, step, answer) || exists k :: 0 <= k < |Split(answer)| && Hits(lib, step, Split(answer)[k]))
  }

  ghost function Earned(lib: Lib, steps: seq<StepEntry>, answer: string): real {
    if steps == [] then 0.0
    else (if Earns(lib, steps[0], answer) then steps[0].marks else 0.0) + Earned(lib, steps[1..], answer)
  }

  lemma {:induction false} EarnedLast(lib: Lib, steps: seq<StepEntry>, last: StepEntry, answer: string)
    ensures Earned(lib, steps + [last], answer) ==
            Earned(lib, steps, answer) + (if Earns(lib, last, answer) then last.marks else 0.0)
  {
    if steps == [] {
      assert steps + [last] == [last] && [last][1..] == [];
    } else {
      assert (steps + [last])[1..] == steps[1..] + [last];
      EarnedLast(lib, steps[1..], last, answer);
    }
  }

  lemma {:induction false} StepTotalIsEarned(lib: Lib, steps: seq<StepEntry>, answer: string)
    ensures StepTotal(lib, steps, answer) == Earned(lib, steps, answer)
  {
    if steps != [] {
      var init, last := steps[..|steps| - 1], steps[|steps| - 1];
      StepTotalIsEarned(lib, init, answer);
      EarnedLast(lib, init, last, answer);
      assert init + [last] == steps;
    }
  }

  ghost predicate Labelled(lib: Lib, steps: seq<StepEntry>, answer: string, hit: bool, labels: seq<nat>) {
    && (forall k: nat :: k < |steps| ==> (k + 1 in labels <==> Earns(lib, steps[k], answer) == hit))
    && (forall j :: 0 <= j < |labels| ==> 1 <= labels[j] <= |steps|)
    && (forall i, j :: 0 <= i < j < |labels| ==> labels[i] < labels[j])
  }

  lemma LabelledLast(
      lib: Lib, steps: seq<StepEntry>, last: StepEntry, answer: string, hit: bool, before: seq<nat>)
    requires Labelled(lib, steps, answer, hit, before)
    ensures Labelled(lib, steps + [last], answer, hit,
                     before + (if Earns(lib, last, answer) == hit then [|steps| + 1] else []))
  {
    var all, n := steps + [last], |steps|;
    var labels := before + (if Earns(lib, last, answer) == hit then [n + 1] else []);
    assert n + 1 !in before;
    forall k: nat | k <= n
      ensures k + 1 in labels <==> Earns(lib, all[k], answer) == hit
    {
      assert k < n ==> all[k] == steps[k] && (k + 1 in labels <==> k + 1 in before);
    }
  }

  // The labels are the steps that earn, or those that do not, counted from 1 and
  // in order.
  lemma {:induction false} LabelsExact(lib: Lib, steps: seq<StepEntry>, answer: string, hit: bool)
    ensures Labelled(lib, steps, answer, hit, Labels(lib, steps, answer, hit))
  {
    if steps != [] {
      var init, last := steps[..|steps| - 1], steps[|steps| - 1];
      LabelsExact(lib, init, answer, hit);
      LabelledLast(lib, init, last, answer, hit, Labels(lib, init, answer, hit));
      assert Earns(lib, last, answer) == (StepAward(lib, last, answer) > 0.0);
      assert init + [last] == steps;
    }
  }

  // What is between the bounds, and the bound beyond them
  predicate Held(v: real, lo: real, hi: real, clamped: real) {
    && (v < lo ==> clamped == lo)
    && (v >= lo && v > hi ==> clamped == hi)
    && (lo <= v <= hi ==> clamped == v)
  }

  lemma StepsAward(lib: Lib, entry: GuideEntry, answer: string)
    ensures var v := MultiStepVerdict(lib, entry, answer);
            v.confidence == 1.0 && Held(Earned(lib, entry.steps, answer), 0.0, entry.maxMarks, v.awarded)
  {
    StepTotalIsEarned(lib, entry.steps, answer);
  }

  // The reason names the steps that earned and those that did not.
  lemma StepsReason(lib: Lib, entry: GuideEntry, answer: string) returns (matched: seq<nat>, missed: seq<nat>)
    ensures Labelled(lib, entry.steps, answer, true, matched) && Labelled(lib, entry.steps, answer, false, missed)
    ensures MultiStepVerdict(lib, entry, answer).reason ==
            if forall k: nat :: k < |entry.steps| ==> !Earns(lib, entry.steps[k], answer) then NoStepMatched
            else if forall k: nat :: k < |entry.steps| ==> Earns(lib, entry.steps[k], answer)
              then EveryStepMatched(|entry.steps|)
            else SomeStepsMatched(matched, missed)
  {
    matched, missed := Labels(lib, entry.steps, answer, true), Labels(lib, entry.steps, answer, false);
    LabelsExact(lib, entry.steps, answer, true);
    LabelsExact(lib, entry.steps, answer, false);
    EmptyLabels(lib, entry.steps, answer, true, matched);
    EmptyLabels(lib, entry.steps, answer, false, missed);
  }

  lemma EmptyLabels(lib: Lib, steps: seq<StepEntry>, answer: string, hit: bool, labels: seq<nat>)
    requires Labelled(lib, steps, answer, hit, labels)
    ensures labels == [] <==> forall k: nat :: k < |steps| ==> Earns(lib, steps[k], answer) == !hit
  {
    if labels != [] {
      var k: nat := labels[0] - 1;
      assert k + 1 == labels[0] && Earns(lib, steps[k], answer) == hit;
    } else {
      forall k: nat | k < |steps| ensures Earns(lib, steps[k], answer) == !hit {
        assert k + 1 !in labels;
      }
    }
  }

  // partial -----------------------------------------------------------------------------------

  // One of the criterion's texts stands somewhere in the answer, whatever the case.
  ghost predicate Met(lib: Lib, c: Criterion, answer: string) {
    exists k, i :: 0 <= k < |c.accept| && Stands(ToLower(lib, c.accept[k]), ToLower(lib, answer), i)
  }

  predicate Stands(part: string, s: string, i: int) {
    0 <= i && i + |part| <= |s| && s[i..i + |part|] == part
  }

  ghost function MetMarks(lib: Lib, cs: seq<Criterion>, answer: string): real {
    if cs == [] then 0.0
    else (if Met(lib, cs[0], answer) then cs[0].marks else 0.0) + MetMarks(lib, cs[1..], answer)
  }

  ghost function MetCount(lib: Lib, cs: seq<Criterion>, answer: string): nat {
    if cs == [] then 0 else (if Met(lib, cs[0], answer) then 1 else 0) + MetCount(lib, cs[1..], answer)
  }

  lemma MetIsHit(lib: Lib, c: Criterion, answer: string)
    ensures CriterionHit(lib, c, answer) <==> Met(lib, c, answer)
  {
    var s := ToLower(lib, answer);
    forall k | 0 <= k < |c.accept|
      ensures Contains(s, ToLower(lib, c.accept[k])) <==> exists i :: Stands(ToLower(lib, c.accept[k]), s, i)
    {
      StandsSomewhere(s, ToLower(lib, c.accept[k]));
    }
  }

  lemma StandsSomewhere(s: string, part: string)
    ensures Contains(s, part) <==> exists i :: Stands(part, s, i)
  {
    if Contains(s, part) {
      var i :| 0 <= i <= |s| && part <= s[i..];
      assert s[i..][..|part|] == s[i..i + |part|];
      assert Stands(part, s, i);
    }
    if exists i :: Stands(part, s, i) {
      var i :| Stands(part, s, i);
      assert s[i..][..|part|] == part;
    }
  }

  lemma {:induction false} MetLast(lib: Lib, cs: seq<Criterion>, last: Criterion, answer: string)
    ensures MetMarks(lib, cs + [last], answer) ==
            MetMarks(lib, cs, answer) + (if Met(lib, last, answer) then last.marks else 0.0)
    ensures MetCount(lib, cs + [last], answer) ==
            MetCount(lib, cs, answer) + (if Met(lib, last, answer) then 1 else 0)
  {
    if cs == [] {
      assert cs + [last] == [last] && [last][1..] == [];
    } else {
      assert (cs + [last])[1..] == cs[1..] + [last];
      MetLast(lib, cs[1..], last, answer);
    }
  }

  lemma {:induction false} CriteriaMet(lib: Lib, cs: seq<Criterion>, answer: string)
    ensures CriteriaTotal(lib, cs, answer) == (MetCount(lib, cs, answer), MetMarks(lib, cs, answer))
  {
    if cs != [] {
      var init, last := cs[..|cs| - 1], cs[|cs| - 1];
      CriteriaMet(lib, init, answer);
      MetLast(lib, init, last, answer);
      MetIsHit(lib, last, answer);
      assert init + [last] == cs;
    }
  }

  // A partial answer earns the marks of the criteria it meets, within bounds.
  lemma PartialAwards(lib: Lib, entry: GuideEntry, answer: string)
    ensures var v, earned := PartialVerdict(lib, entry, answer), MetMarks(lib, entry.criteria, answer);
            var count := MetCount(lib, entry.criteria, answer);
            && v.confidence == 1.0
            && Held(earned, 0.0, entry.maxMarks, v.awarded)
            && v.reason == CriteriaMatched(count, |entry.criteria|, earned, entry.maxMarks)
  {
    CriteriaMet(lib, entry.criteria, answer);
  }

  // A whole question -----------------------------------------------------------------------------

  // The maximum a question is graded against: its guide entry's, or the paper's
  // where the entry has none or there is no entry
  function MaximumOf(guide: Guide, q: TranscribedQuestion): real {
    if q.questionNo in guide && guide[q.questionNo].maxMarks != 0.0 then guide[q.questionNo].maxMarks else q.maxMarks
  }

  predicate FlaggedAs(q: TranscribedQuestion, flags: seq<AnswerFlag>) {
    flags == if Trim(q.studentAnswer) == [] then [BlankAnswer]
             else if q.readConfidence < 0.5 then [LowReadConfidence]
             else []
  }

  // What every graded question keeps of the transcribed one
  predicate SameQuestion(q: TranscribedQuestion, g: GradedQuestion) {
    && g.questionNo == q.questionNo && g.section == q.section && g.studentAnswer == q.studentAnswer && g.feedback == ""
  }

  // A blank answer earns nothing, for sure, and asks nobody.
  lemma BlankEarnsNothing(lib: Lib, guide: Guide, hasProvider: bool, q: TranscribedQuestion, reply: Option<Reply>)
    requires Trim(q.studentAnswer) == []
    ensures var o := GradeQuestion(lib, guide, hasProvider, q, reply);
            && o.calls == 0 && SameQuestion(q, o.graded) && o.graded.maxMarks == MaximumOf(guide, q)
            && o.graded.awardedMarks == 0.0 && o.graded.justification == NothingWritten && o.graded.confidence == 1.0
            && o.graded.flags == [BlankAnswer]
  {
  }

  // A question for the model: not in the guide, or of a type no matcher decides
  predicate ForModel(guide: Guide, q: TranscribedQuestion) {
    && Trim(q.studentAnswer) != []
    && (q.questionNo in guide ==> guide[q.questionNo].matchType == Rubric || guide[q.questionNo].matchType.UnknownType?)
  }

  // The judge of the fallback grades against the paper's maximum, a provider for
  // rubric entries against the guide's.
  function ModelMaximum(guide: Guide, hasProvider: bool, q: TranscribedQuestion): real {
    if q.questionNo in guide && guide[q.questionNo].matchType == Rubric && hasProvider then MaximumOf(guide, q)
    else q.maxMarks
  }

  // One call; the model's marks when they lie within the maximum, its reason and
  // its confidence, or, when the call failed, 0 and a flag that says so.
  lemma ModelGrades(lib: Lib, guide: Guide, hasProvider: bool, q: TranscribedQuestion, reply: Option<Reply>)
    requires ForModel(guide, q)
    ensures var o, max := GradeQuestion(lib, guide, hasProvider, q, reply), ModelMaximum(guide, hasProvider, q);
            && o.calls == 1 && SameQuestion(q, o.graded) && o.graded.maxMarks == max
            && (reply.Some? ==>
                  && Held(reply.value.awarded, 0.0, max, o.graded.awardedMarks)
                  && o.graded.justification == Said(reply.value.justification)
                  && o.graded.confidence == reply.value.confidence && FlaggedAs(q, o.graded.flags))
            && (reply.None? ==>
                  && o.graded.awardedMarks == 0.0 && o.graded.justification == GradingFailed
                  && o.graded.confidence == 0.0 && o.graded.flags != []
                  && FlaggedAs(q, o.graded.flags[..|o.graded.flags| - 1])
                  && o.graded.flags[|o.graded.flags| - 1] == GradingFailedFlag)
  {
  }

  // The matcher an entry names, on the answer trimmed or as it stands
  ghost function MatcherVerdict(lib: Lib, entry: GuideEntry, answer: string): Verdict {
    if entry.matchType == Numeric then NumericVerdict(lib, entry, Trim(answer))
    else if entry.matchType == MultiStep then MultiStepVerdict(lib, entry, answer)
    else if entry.matchType == Partial then PartialVerdict(lib, entry, answer)
    else ObjectiveVerdict(lib, entry, Trim(answer))
  }

  // A deterministic entry asks nobody: the matcher's verdict, its marks held within
  // the maximum. A plain right answer is worth the whole maximum, also where that
  // is the paper's.
  lemma MatcherGrades(lib: Lib, guide: Guide, hasProvider: bool, q: TranscribedQuestion, reply: Option<Reply>)
    requires q.questionNo in guide && Trim(q.studentAnswer) != [] && !ForModel(guide, q)
    ensures var o, entry := GradeQuestion(lib, guide, hasProvider, q, reply), guide[q.questionNo];
            var v, max := MatcherVerdict(lib, entry, q.studentAnswer), MaximumOf(guide, q);
            && o.calls == 0 && SameQuestion(q, o.graded) && o.graded.maxMarks == max && FlaggedAs(q, o.graded.flags)
            && o.graded.confidence == v.confidence && o.graded.justification == v.reason
            && Held(if v.reason == Matches && !entry.normalize then max else v.awarded, 0.0, max, o.graded.awardedMarks)
  {
  }

  // A preview of a sample: the matcher's verdict against the entry's own maximum,
  // or nothing where there is no entry or only a model could say.
  lemma Previews(lib: Lib, guide: Guide, s: PreviewSample)
    ensures var p := Preview(lib, guide, s);
            && p.questionNo == s.questionNo
            && (p.previewable <==>
                  && s.questionNo in guide && guide[s.questionNo].matchType != Rubric
                  && !guide[s.questionNo].matchType.UnknownType?)
            && (!p.previewable ==>
                  && p.awarded == 0.0 && p.confidence == 0.0
                  && p.justification == if s.questionNo in guide then NeedsModel else NotInGuide)
            && (s.questionNo !in guide ==> p.maxMarks == 0.0 && p.matchType == None)
            && (s.questionNo in guide ==>
                  var entry := guide[s.questionNo];
                  var v := MatcherVerdict(lib, entry, s.studentAnswer);
                  && p.maxMarks == entry.maxMarks && p.matchType == Some(entry.matchType)
                  && (p.previewable ==>
                        && p.confidence == v.confidence && p.justification == v.reason
                        && Held(v.awarded, 0.0, entry.maxMarks, p.awarded)))
  {
  }
}
