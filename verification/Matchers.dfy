/** The deterministic matchers of the marking guide, and what a multi-step
    award is worth as a whole. */
module Matchers {
  import opened Wrappers
  import opened Text
  import opened Lines
  import opened Papers

  // Library functions this model does not define: simple case folding of one
  // character (strings.EqualFold), strconv.ParseFloat, the lower case of one
  // character (strings.ToLower) and the letter-or-digit classes of package
  // unicode.
  datatype Lib = Lib(
    fold: char -> char,
    parseFloat: string -> Option<real>,
    lower: char -> char,
    isWordChar: char -> bool)

  // What the results below rely on: only a newline folds to what a newline
  // folds to, and no number is written with a newline in it.
  ghost predicate NewlineSafe(lib: Lib) {
    && (forall c :: lib.fold(c) == lib.fold('\n') ==> c == '\n')
    && (forall s :: lib.parseFloat(s).Some? ==> '\n' !in s)
  }

  datatype MatchType = Exact | ExactCi | SetOf | Numeric | MultiStep | Partial | Rubric | UnknownType(name: string)

  datatype StepEntry = StepEntry(
    answer: string, accept: seq<string>, marks: real, matchType: MatchType,
    numericAnswer: Option<real>, tolerance: real, toleranceType: string)

  datatype Criterion = Criterion(accept: seq<string>, marks: real)

  datatype GuideEntry = GuideEntry(
    maxMarks: real, answer: string, accept: seq<string>, matchType: MatchType, normalize: bool,
    numericAnswer: Option<real>, tolerance: real, toleranceType: string, unit: string, unitMarks: real,
    steps: seq<StepEntry>, criteria: seq<Criterion>)

  datatype Verdict = Verdict(awarded: real, confidence: real, reason: Reason)

  // exact, exact_ci, set ----------------------------------------------------

  predicate EqualFold(lib: Lib, a: string, b: string) {
    |a| == |b| && forall i :: 0 <= i < |a| ==> lib.fold(a[i]) == lib.fold(b[i])
  }

  predicate AcceptsFold(lib: Lib, expected: string, answer: string) {
    expected != [] && EqualFold(lib, answer, expected)
  }

  // objectiveMatch: an empty guide value never matches.
  predicate Objective(lib: Lib, matchType: MatchType, expected: string, accept: seq<string>, answer: string) {
    match matchType
    case SetOf => exists k :: 0 <= k < |accept| && AcceptsFold(lib, Trim(accept[k]), answer)
    case ExactCi => AcceptsFold(lib, Trim(expected), answer)
    case _ => Trim(expected) != [] && answer == Trim(expected)
  }

  method ObjectiveMatch(lib: Lib, matchType: MatchType, expected: string, accept: seq<string>, answer: string)
    returns (matched: bool)
    ensures matched == Objective(lib, matchType, expected, accept, answer)
  {
    if matchType.SetOf? {
      for k := 0 to |accept|
        invariant forall j :: 0 <= j < k ==> !AcceptsFold(lib, Trim(accept[j]), answer)
      {
        var value := Trim(accept[k]);
        if value == [] {
          continue;
        }
        if EqualFold(lib, answer, value) {
          return true;
        }
      }
      return false;
    }
    var value := Trim(expected);
    if value == [] {
      return false;
    }
    matched := if matchType.ExactCi? then EqualFold(lib, answer, value) else answer == value;
  }

  function ToLower(lib: Lib, s: string): (r: string)
    ensures |r| == |s| && forall i :: 0 <= i < |s| ==> r[i] == lib.lower(s[i])
  {
    seq(|s|, i requires 0 <= i < |s| => lib.lower(s[i]))
  }

  // The runes normalizeText writes for one rune
  function NormalRune(lib: Lib, c: char): string {
    if lib.isWordChar(c) || IsSpace(c) then [c]
    else if c == '\'' || c == '\U{2019}' || c == '\U{2018}' then []
    else [' ']
  }

  function NormalRunes(lib: Lib, s: string): string {
    if s == [] then [] else NormalRune(lib, s[0]) + NormalRunes(lib, s[1..])
  }

  function NormalizeText(lib: Lib, s: string): string {
    Trim(JoinWords(Fields(NormalRunes(lib, ToLower(lib, s)))))
  }

  predicate NormalizedMatch(lib: Lib, entry: GuideEntry, answer: string) {
    if entry.matchType.SetOf? then
      exists k :: 0 <= k < |entry.accept| && NormalizeText(lib, entry.accept[k]) == NormalizeText(lib, answer)
    else NormalizeText(lib, entry.answer) == NormalizeText(lib, answer)
  }

  function ObjectiveVerdict(lib: Lib, entry: GuideEntry, answer: string): Verdict {
    var matched :=
      if entry.normalize then NormalizedMatch(lib, entry, answer)
      else Objective(lib, entry.matchType, entry.answer, entry.accept, answer);
    if matched then Verdict(entry.maxMarks, 1.0, Matches) else Verdict(0.0, 1.0, DoesNotMatch)
  }

  method MatchObjectiveNormalized(lib: Lib, entry: GuideEntry, answer: string) returns (v: Verdict)
    ensures v == ObjectiveVerdict(lib, entry, answer)
  {
    var matched := false;
    if entry.normalize {
      var normStudent := NormalizeText(lib, answer);
      if entry.matchType.SetOf? {
        for k := 0 to |entry.accept|
          invariant !matched
          invariant forall j :: 0 <= j < k ==> NormalizeText(lib, entry.accept[j]) != normStudent
        {
          if NormalizeText(lib, entry.accept[k]) == normStudent {
            matched := true;
            break;
          }
        }
      } else {
        matched := NormalizeText(lib, entry.answer) == normStudent;
      }
      assert matched <==> NormalizedMatch(lib, entry, answer);
    } else {
      matched := ObjectiveMatch(lib, entry.matchType, entry.answer, entry.accept, answer);
    }
    v := if matched then Verdict(entry.maxMarks, 1.0, Matches) else Verdict(0.0, 1.0, DoesNotMatch);
  }

  // numeric -------------------------------------------------------------------

  function Abs(x: real): real { if x < 0.0 then -x else x }

  // The values a tolerance lets through: an interval around the expected one,
  // of a fixed width or of a percentage of it, and 0 alone around 0.
  predicate WithinTol(parsed: real, expected: real, tolerance: real, kind: string) {
    if kind != "pct" then expected - tolerance <= parsed <= expected + tolerance
    else if expected == 0.0 then parsed == 0.0
    else 100.0 * Abs(parsed - expected) <= tolerance * Abs(expected)
  }

  // The number text and whether the unit was right. Only a trailing token that
  // is no number is taken for a unit.
  function SplitUnit(lib: Lib, unit: string, answer: string): (string, bool) {
    var toParse := Trim(answer);
    var fields := Fields(toParse);
    if unit != [] && |fields| >= 2 && lib.parseFloat(fields[|fields| - 1]).None? then
      (Trim(JoinWords(fields[..|fields| - 1])), EqualFold(lib, fields[|fields| - 1], unit))
    else (toParse, false)
  }

  function Kind(entry: GuideEntry): string {
    if entry.toleranceType == [] then "abs" else entry.toleranceType
  }

  function Expected(entry: GuideEntry): real {
    if entry.numericAnswer.Some? then entry.numericAnswer.value else 0.0
  }

  // The verdict on a number that was read, and on the unit that stood behind it.
  function ValueVerdict(entry: GuideEntry, parsed: real, unitCorrect: bool): Verdict {
    if !WithinTol(parsed, Expected(entry), entry.tolerance, Kind(entry)) then
      Verdict(0.0, 1.0, OutsideTolerance(parsed, Expected(entry), entry.tolerance, Kind(entry)))
    else if entry.unitMarks > 0.0 then
      if unitCorrect then Verdict(entry.maxMarks, 1.0, ValueAndUnit(parsed, entry.unit))
      else
        var valueMarks := entry.maxMarks - entry.unitMarks;
        Verdict(if valueMarks < 0.0 then 0.0 else valueMarks, 1.0, ValueWithoutUnit(parsed, entry.unit))
    else Verdict(entry.maxMarks, 1.0, WithinTolerance(parsed, Expected(entry), entry.tolerance, Kind(entry)))
  }

  function NumericVerdict(lib: Lib, entry: GuideEntry, answer: string): Verdict {
    var (toParse, unitCorrect) := SplitUnit(lib, entry.unit, answer);
    match lib.parseFloat(Trim(toParse))
    case None => Verdict(0.0, 1.0, NotANumber)
    case Some(parsed) => ValueVerdict(entry, parsed, unitCorrect)
  }

  lemma Percent(diff: real, base: real, tolerance: real)
    requires base > 0.0
    ensures diff / base * 100.0 <= tolerance <==> 100.0 * diff <= tolerance * base
  {
    var share := diff / base;
    assert share * base == diff;
    assert 100.0 * diff == (share * 100.0) * base;
    if share * 100.0 <= tolerance {
      assert (tolerance - share * 100.0) * base >= 0.0;
    } else {
      assert (share * 100.0 - tolerance) * base > 0.0;
    }
  }

  method CheckTolerance(parsed: real, expectedAnswer: real, tolerance: real, tolType: string)
    returns (inTolerance: bool)
    ensures tolType != "pct" ==>
              (inTolerance <==> expectedAnswer - tolerance <= parsed <= expectedAnswer + tolerance)
    ensures tolType == "pct" && expectedAnswer == 0.0 ==> (inTolerance <==> parsed == 0.0)
    ensures tolType == "pct" && expectedAnswer != 0.0 ==>
              (inTolerance <==> 100.0 * Abs(parsed - expectedAnswer) <= tolerance * Abs(expectedAnswer))
    ensures inTolerance == WithinTol(parsed, expectedAnswer, tolerance, tolType)
  {
    var diff := Abs(parsed - expectedAnswer);
    if tolType == "pct" {
      if expectedAnswer == 0.0 {
        inTolerance := diff == 0.0;
      } else {
        var pctDiff := diff / Abs(expectedAnswer) * 100.0;
        Percent(diff, Abs(expectedAnswer), tolerance);
        inTolerance := pctDiff <= tolerance;
      }
    } else {
      inTolerance := diff <= tolerance;
    }
  }

  method MatchNumeric(lib: Lib, entry: GuideEntry, answer: string) returns (v: Verdict)
    ensures v == NumericVerdict(lib, entry, answer)
  {
    var tolType := entry.toleranceType;
    if tolType == [] {
      tolType := "abs";
    }
    var expectedAnswer := 0.0;
    if entry.numericAnswer.Some? {
      expectedAnswer := entry.numericAnswer.value;
    }
    var unitCorrect := false;
    var toParse := Trim(answer);
    if entry.unit != [] {
      var fields := Fields(toParse);
      if |fields| >= 2 {
        var lastField := fields[|fields| - 1];
        if lib.parseFloat(lastField).None? {
          unitCorrect := EqualFold(lib, lastField, entry.unit);
          toParse := Trim(JoinWords(fields[..|fields| - 1]));
        }
      }
    }
    var read := lib.parseFloat(Trim(toParse));
    if read.None? {
      return Verdict(0.0, 1.0, NotANumber);
    }
    var parsed := read.value;
    var inTolerance := CheckTolerance(parsed, expectedAnswer, entry.tolerance, tolType);
    if !inTolerance {
      return Verdict(0.0, 1.0, OutsideTolerance(parsed, expectedAnswer, entry.tolerance, tolType));
    }
    if entry.unitMarks > 0.0 {
      if unitCorrect {
        return Verdict(entry.maxMarks, 1.0, ValueAndUnit(parsed, entry.unit));
      }
      var valueMarks := entry.maxMarks - entry.unitMarks;
      if valueMarks < 0.0 {
        valueMarks := 0.0;
      }
      return Verdict(valueMarks, 1.0, ValueWithoutUnit(parsed, entry.unit));
    }
    return Verdict(entry.maxMarks, 1.0, WithinTolerance(parsed, expectedAnswer, entry.tolerance, tolType));
  }

  // multi_step ----------------------------------------------------------------

  function BlankEntry(): GuideEntry {
    GuideEntry(0.0, [], [], Exact, false, None, 0.0, [], [], 0.0, [], [])
  }

  function NumericStep(step: StepEntry): GuideEntry {
    BlankEntry().(maxMarks := step.marks, numericAnswer := step.numericAnswer,
                  tolerance := step.tolerance, toleranceType := step.toleranceType)
  }

  // One step tried on one text: a line, or the whole answer.
  predicate Hits(lib: Lib, step: StepEntry, text: string) {
    if step.matchType.Numeric? then NumericVerdict(lib, NumericStep(step), Trim(text)).awarded > 0.0
    else Objective(lib, step.matchType, step.answer, step.accept, Trim(text))
  }

  predicate HitsALine(lib: Lib, step: StepEntry, answer: string) {
    exists k :: 0 <= k < |Split(answer)| && Hits(lib, step, Split(answer)[k])
  }

  // What the step adds to the total: its marks when they are positive and a
  // line, or the whole answer as the fallback, hits.
  function StepAward(lib: Lib, step: StepEntry, answer: string): real {
    if step.marks > 0.0 && (HitsALine(lib, step, answer) || Hits(lib, step, answer)) then step.marks else 0.0
  }

  function StepTotal(lib: Lib, steps: seq<StepEntry>, answer: string): real {
    if steps == [] then 0.0
    else StepTotal(lib, steps[..|steps| - 1], answer) + StepAward(lib, steps[|steps| - 1], answer)
  }

  // The 1-based labels of the steps that did (or did not) add to the total
  function Labels(lib: Lib, steps: seq<StepEntry>, answer: string, hit: bool): seq<nat> {
    if steps == [] then []
    else Labels(lib, steps[..|steps| - 1], answer, hit) +
         (if (StepAward(lib, steps[|steps| - 1], answer) > 0.0) == hit then [|steps|] else [])
  }

  function StepReason(steps: nat, matched: seq<nat>, missed: seq<nat>): Reason {
    if matched == [] then NoStepMatched
    else if missed == [] then EveryStepMatched(steps)
    else SomeStepsMatched(matched, missed)
  }

  function MultiStepVerdict(lib: Lib, entry: GuideEntry, answer: string): Verdict {
    Verdict(Clamp(StepTotal(lib, entry.steps, answer), 0.0, entry.maxMarks), 1.0,
            StepReason(|entry.steps|, Labels(lib, entry.steps, answer, true), Labels(lib, entry.steps, answer, false)))
  }

  method TryStep(lib: Lib, step: StepEntry, text: string) returns (hit: bool)
    ensures hit == Hits(lib, step, text)
  {
    if step.matchType.Numeric? {
      var v := MatchNumeric(lib, NumericStep(step), Trim(text));
      hit := v.awarded > 0.0;
    } else {
      hit := ObjectiveMatch(lib, step.matchType, step.answer, step.accept, Trim(text));
    }
  }

  method MatchStep(lib: Lib, step: StepEntry, answer: string) returns (stepAwarded: real)
    ensures (if stepAwarded > 0.0 then stepAwarded else 0.0) == StepAward(lib, step, answer)
  {
    stepAwarded := 0.0;
    var lines := Split(answer);
    for k := 0 to |lines|
      invariant stepAwarded == 0.0
      invariant forall j :: 0 <= j < k ==> !Hits(lib, step, lines[j])
    {
      var hit := TryStep(lib, step, lines[k]);
      if hit {
        stepAwarded := step.marks;
        break;
      }
    }
    if stepAwarded == 0.0 {
      var hit := TryStep(lib, step, answer);
      if hit {
        stepAwarded := step.marks;
      }
    }
  }

  method MatchMultiStep(lib: Lib, entry: GuideEntry, answer: string) returns (v: Verdict)
    ensures v == MultiStepVerdict(lib, entry, answer)
  {
    var total := 0.0;
    var matched, missed := [], [];
    for i := 0 to |entry.steps|
      invariant total == StepTotal(lib, entry.steps[..i], answer)
      invariant matched == Labels(lib, entry.steps[..i], answer, true)
      invariant missed == Labels(lib, entry.steps[..i], answer, false)
    {
      var step := entry.steps[i];
      var stepAwarded := MatchStep(lib, step, answer);
      assert entry.steps[..i + 1][..i] == entry.steps[..i];
      if stepAwarded > 0.0 {
        total := total + stepAwarded;
        matched := matched + [i + 1];
      } else {
        missed := missed + [i + 1];
      }
    }
    assert entry.steps[..|entry.steps|] == entry.steps;
    v := Verdict(Clamp(total, 0.0, entry.maxMarks), 1.0, StepReason(|entry.steps|, matched, missed));
  }

  // partial -------------------------------------------------------------------

  predicate Contains(s: string, part: string) {
    exists i :: 0 <= i <= |s| && part <= s[i..]
  }

  predicate CriterionHit(lib: Lib, c: Criterion, answer: string) {
    exists k :: 0 <= k < |c.accept| && Contains(ToLower(lib, answer), ToLower(lib, c.accept[k]))
  }

  function CriteriaTotal(lib: Lib, cs: seq<Criterion>, answer: string): (nat, real) {
    if cs == [] then (0, 0.0) else
      var (hits, total) := CriteriaTotal(lib, cs[..|cs| - 1], answer);
      var c := cs[|cs| - 1];
      if CriterionHit(lib, c, answer) then (hits + 1, total + c.marks) else (hits, total)
  }

  function PartialVerdict(lib: Lib, entry: GuideEntry, answer: string): Verdict {
    var (hits, total) := CriteriaTotal(lib, entry.criteria, answer);
    Verdict(Clamp(total, 0.0, entry.maxMarks), 1.0, CriteriaMatched(hits, |entry.criteria|, total, entry.maxMarks))
  }

  method MatchPartial(lib: Lib, entry: GuideEntry, answer: string) returns (v: Verdict)
    ensures v == PartialVerdict(lib, entry, answer)
  {
    var lowerAnswer := ToLower(lib, answer);
    var total, hitCount := 0.0, 0;
    for i := 0 to |entry.criteria|
      invariant (hitCount, total) == CriteriaTotal(lib, entry.criteria[..i], answer)
    {
      var c := entry.criteria[i];
      var hit := false;
      for k := 0 to |c.accept|
        invariant !hit
        invariant forall j :: 0 <= j < k ==> !Contains(lowerAnswer, ToLower(lib, c.accept[j]))
      {
        if Contains(lowerAnswer, ToLower(lib, c.accept[k])) {
          hit := true;
          break;
        }
      }
      assert entry.criteria[..i + 1][..i] == entry.criteria[..i];
      if hit {
        total, hitCount := total + c.marks, hitCount + 1;
      }
    }
    assert entry.criteria[..|entry.criteria|] == entry.criteria;
    v := Verdict(Clamp(total, 0.0, entry.maxMarks), 1.0,
                 CriteriaMatched(hitCount, |entry.criteria|, total, entry.maxMarks));
  }
}
