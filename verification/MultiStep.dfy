/** What a multi_step award is: the clamped sum of the positive marks of the
    steps some line matches, so that appending lines never lowers it. */
module MultiStepAwards {
  import opened Wrappers
  import opened Text
  import opened Lines
  import opened Papers
  import opened Matchers
  import opened Seqs

  // No value the guide compares with contains a newline once trimmed.
  ghost predicate OneLine(step: StepEntry) {
    match step.matchType
    case Numeric => true
    case SetOf => forall k :: 0 <= k < |step.accept| ==> '\n' !in Trim(step.accept[k])
    case _ => '\n' !in Trim(step.answer)
  }

  ghost predicate AllOneLine(steps: seq<StepEntry>) {
    forall i :: 0 <= i < |steps| ==> OneLine(steps[i])
  }

  // A text that hits has no newline inside: it is one line.
  lemma HitIsOneLine(lib: Lib, step: StepEntry, text: string)
    requires NewlineSafe(lib) && OneLine(step) && Hits(lib, step, text)
    ensures '\n' !in Trim(text)
  {
    var t := Trim(text);
    TrimTwice(text);
    match step.matchType
    case Numeric => TrimTwice(t);
    case SetOf =>
      var k :| 0 <= k < |step.accept| && AcceptsFold(lib, Trim(step.accept[k]), t);
    case ExactCi =>
    case _ =>
  }

  // The whole-answer fallback is redundant for one-line guide values.
  lemma FallbackRedundant(lib: Lib, step: StepEntry, answer: string)
    requires NewlineSafe(lib) && OneLine(step) && Hits(lib, step, answer)
    ensures HitsALine(lib, step, answer)
  {
    HitIsOneLine(lib, step, answer);
    var k := TrimIsALine(answer);
    assert Hits(lib, step, Split(answer)[k]);
  }

  // The marks a step has to give, if positive, when a line matches it
  function LineMarks(lib: Lib, step: StepEntry, answer: string): real {
    if step.marks > 0.0 && HitsALine(lib, step, answer) then step.marks else 0.0
  }

  function LineMarksTotal(lib: Lib, steps: seq<StepEntry>, answer: string): real {
    if steps == [] then 0.0 else LineMarks(lib, steps[0], answer) + LineMarksTotal(lib, steps[1..], answer)
  }

  lemma {:induction false} LineMarksAppend(lib: Lib, a: seq<StepEntry>, b: seq<StepEntry>, answer: string)
    ensures LineMarksTotal(lib, a + b, answer) == LineMarksTotal(lib, a, answer) + LineMarksTotal(lib, b, answer)
  {
    if a == [] {
      assert a + b == b;
    } else {
      assert (a + b)[1..] == a[1..] + b;
      LineMarksAppend(lib, a[1..], b, answer);
    }
  }

  lemma {:induction false} TotalIsLineMarks(lib: Lib, steps: seq<StepEntry>, answer: string)
    requires NewlineSafe(lib) && AllOneLine(steps)
    ensures StepTotal(lib, steps, answer) == LineMarksTotal(lib, steps, answer)
  {
    if steps != [] {
      var init, last := steps[..|steps| - 1], steps[|steps| - 1];
      TotalIsLineMarks(lib, init, answer);
      if Hits(lib, last, answer) {
        FallbackRedundant(lib, last, answer);
      }
      assert steps == init + [last];
      assert [last][1..] == [];
      LineMarksAppend(lib, init, [last], answer);
    }
  }

  // The award is the clamped sum over the steps that some line matches.
  lemma AwardIsLineMarks(lib: Lib, entry: GuideEntry, answer: string)
    requires NewlineSafe(lib) && AllOneLine(entry.steps)
    ensures MultiStepVerdict(lib, entry, answer).awarded ==
            Clamp(LineMarksTotal(lib, entry.steps, answer), 0.0, entry.maxMarks)
  {
    TotalIsLineMarks(lib, entry.steps, answer);
  }

  // Appending ------------------------------------------------------------------

  lemma HitsMoreLines(lib: Lib, step: StepEntry, answer: string, extra: string)
    requires HitsALine(lib, step, answer)
    ensures HitsALine(lib, step, answer + ['\n'] + extra)
  {
    SplitAppend(answer, extra);
    var k :| 0 <= k < |Split(answer)| && Hits(lib, step, Split(answer)[k]);
    assert Split(answer + ['\n'] + extra)[k] == Split(answer)[k];
  }

  lemma {:induction false} LineMarksGrow(lib: Lib, steps: seq<StepEntry>, answer: string, extra: string)
    ensures 0.0 <= LineMarksTotal(lib, steps, answer) <= LineMarksTotal(lib, steps, answer + ['\n'] + extra)
  {
    if steps != [] {
      LineMarksGrow(lib, steps[1..], answer, extra);
      if HitsALine(lib, steps[0], answer) {
        HitsMoreLines(lib, steps[0], answer, extra);
      }
    }
  }

  // Writing more lines never costs marks.
  lemma MoreLinesNeverLower(lib: Lib, entry: GuideEntry, answer: string, extra: string)
    requires NewlineSafe(lib) && AllOneLine(entry.steps)
    ensures MultiStepVerdict(lib, entry, answer).awarded <=
            MultiStepVerdict(lib, entry, answer + ['\n'] + extra).awarded
  {
    AwardIsLineMarks(lib, entry, answer);
    AwardIsLineMarks(lib, entry, answer + ['\n'] + extra);
    LineMarksGrow(lib, entry.steps, answer, extra);
  }

  // Permuting ------------------------------------------------------------------

  lemma {:induction false} LineMarksPermute(lib: Lib, a: seq<StepEntry>, b: seq<StepEntry>, answer: string)
    requires multiset(a) == multiset(b)
    ensures LineMarksTotal(lib, a, answer) == LineMarksTotal(lib, b, answer)
    decreases |a|
  {
    assert |multiset(a)| == |multiset(b)|;
    if a != [] {
      var i := MatchHead(a, b);
      var front, back := b[..i], b[i + 1..];
      LineMarksPermute(lib, a[1..], front + back, answer);
      LineMarksAppend(lib, front, [b[i]] + back, answer);
      LineMarksAppend(lib, front, back, answer);
      assert ([b[i]] + back)[1..] == back;
    }
  }

  // The order of the steps in the guide does not matter to the award.
  lemma OrderOfStepsIrrelevant(lib: Lib, entry: GuideEntry, steps: seq<StepEntry>, answer: string)
    requires NewlineSafe(lib) && AllOneLine(entry.steps) && multiset(steps) == multiset(entry.steps)
    ensures MultiStepVerdict(lib, entry.(steps := steps), answer).awarded ==
            MultiStepVerdict(lib, entry, answer).awarded
  {
    forall i | 0 <= i < |steps| ensures OneLine(steps[i]) {
      assert steps[i] in multiset(entry.steps);
    }
    AwardIsLineMarks(lib, entry, answer);
    AwardIsLineMarks(lib, entry.(steps := steps), answer);
    LineMarksPermute(lib, entry.steps, steps, answer);
  }

  // The proviso, exactly -------------------------------------------------------

  ghost predicate KeepsHit(lib: Lib, step: StepEntry, answer: string, extra: string) {
    StepAward(lib, step, answer) <= StepAward(lib, step, answer + ['\n'] + extra)
  }

  // A text with a newline inside is matched by no line.
  lemma NoLineHits(lib: Lib, step: StepEntry, answer: string)
    requires NewlineSafe(lib) && !step.matchType.Numeric? && !step.matchType.SetOf?
    requires '\n' in Trim(step.answer)
    ensures !HitsALine(lib, step, answer)
  {
    LinesHaveNoNewline(answer);
    forall k | 0 <= k < |Split(answer)| ensures !Hits(lib, step, Split(answer)[k]) {
      var line := Split(answer)[k];
      var before, after := TrimSplits(line);
      assert '\n' !in Trim(line);
    }
  }

  // For a single expected answer that can earn marks, no appended line ever
  // costs them exactly when the trimmed answer is one line. Every step type but
  // numeric and set is compared with a single answer.
  lemma OneLineIsNeeded(lib: Lib, step: StepEntry)
    requires NewlineSafe(lib) && !step.matchType.Numeric? && !step.matchType.SetOf? && step.marks > 0.0
    ensures (forall answer, extra :: KeepsHit(lib, step, answer, extra)) <==> '\n' !in Trim(step.answer)
  {
    var e := Trim(step.answer);
    if '\n' in e {
      var extra := "x";
      var longer := e + ['\n'] + extra;
      var before, after := TrimSplits(step.answer);
      TrimAround([], e, []);
      assert [] + e + [] == e;
      assert longer[0] == e[0] && longer[|longer| - 1] == 'x';
      TrimAround([], longer, []);
      assert [] + longer + [] == longer;
      assert Hits(lib, step, e);
      NoLineHits(lib, step, longer);
      assert !Hits(lib, step, longer);
      assert !KeepsHit(lib, step, e, extra);
    } else {
      forall answer, extra ensures KeepsHit(lib, step, answer, extra) {
        if Hits(lib, step, answer) {
          FallbackRedundant(lib, step, answer);
        }
        if HitsALine(lib, step, answer) {
          HitsMoreLines(lib, step, answer, extra);
        }
      }
    }
  }

  // Set steps: the proviso exactly -------------------------------------------------

  // Characters that fold together are blank together, as in Unicode.
  ghost predicate SpaceSafe(lib: Lib) {
    forall c, d :: lib.fold(c) == lib.fold(d) ==> IsSpace(c) == IsSpace(d)
  }

  lemma {:induction false} TrimLeftFolds(lib: Lib, a: string, b: string)
    requires SpaceSafe(lib) && EqualFold(lib, a, b)
    ensures EqualFold(lib, TrimLeft(a), TrimLeft(b))
  {
    if a != [] && IsSpace(a[0]) {
      TrimLeftFolds(lib, a[1..], b[1..]);
    }
  }

  lemma {:induction false} TrimRightFolds(lib: Lib, a: string, b: string)
    requires SpaceSafe(lib) && EqualFold(lib, a, b)
    ensures EqualFold(lib, TrimRight(a), TrimRight(b))
  {
    if a != [] && IsSpace(a[|a| - 1]) {
      TrimRightFolds(lib, a[..|a| - 1], b[..|b| - 1]);
    }
  }

  lemma TrimFolds(lib: Lib, a: string, b: string)
    requires SpaceSafe(lib) && EqualFold(lib, a, b)
    ensures EqualFold(lib, Trim(a), Trim(b))
  {
    TrimLeftFolds(lib, a, b);
    TrimRightFolds(lib, TrimLeft(a), TrimLeft(b));
  }

  ghost predicate LinesFold(lib: Lib, a: seq<string>, b: seq<string>) {
    |a| == |b| && forall k :: 0 <= k < |a| ==> EqualFold(lib, a[k], b[k])
  }

  lemma {:induction false} SplitFolds(lib: Lib, a: string, b: string)
    requires NewlineSafe(lib) && EqualFold(lib, a, b)
    ensures LinesFold(lib, Split(a), Split(b))
  {
    if a != [] {
      var x, y := Split(a[1..]), Split(b[1..]);
      SplitFolds(lib, a[1..], b[1..]);
      assert a[0] == '\n' <==> b[0] == '\n';
      if a[0] != '\n' {
        assert EqualFold(lib, [a[0]] + x[0], [b[0]] + y[0]);
        assert Split(a) == [[a[0]] + x[0]] + x[1..] && Split(b) == [[b[0]] + y[0]] + y[1..];
      } else {
        assert Split(a) == [[]] + x && Split(b) == [[]] + y;
      }
    }
  }

  // A hit survives folding the text.
  lemma HitFolds(lib: Lib, step: StepEntry, a: string, b: string)
    requires SpaceSafe(lib) && EqualFold(lib, a, b) && step.matchType.SetOf? && Hits(lib, step, b)
    ensures Hits(lib, step, a)
  {
    TrimFolds(lib, a, b);
    var k :| 0 <= k < |step.accept| && AcceptsFold(lib, Trim(step.accept[k]), Trim(b));
    assert AcceptsFold(lib, Trim(step.accept[k]), Trim(a));
  }

  lemma LineHitFolds(lib: Lib, step: StepEntry, a: string, b: string)
    requires NewlineSafe(lib) && SpaceSafe(lib) && EqualFold(lib, a, b)
    requires step.matchType.SetOf? && HitsALine(lib, step, b)
    ensures HitsALine(lib, step, a)
  {
    SplitFolds(lib, a, b);
    var k :| 0 <= k < |Split(b)| && Hits(lib, step, Split(b)[k]);
    HitFolds(lib, step, Split(a)[k], Split(b)[k]);
  }

  // A line's hit survives blanks around the text.
  lemma SplitFront(c: char, t: string)
    ensures Split([c] + t) == FrontLines(c, Split(t))
  {
    assert ([c] + t)[1..] == t;
  }

  function FrontLines(c: char, lines: seq<string>): seq<string>
    requires lines != []
  {
    if c == '\n' then [[]] + lines else [[c] + lines[0]] + lines[1..]
  }

  lemma FrontHits(lib: Lib, step: StepEntry, c: char, lines: seq<string>, k: nat) returns (j: nat)
    requires IsSpace(c) && k < |lines| && Hits(lib, step, lines[k])
    ensures j < |FrontLines(c, lines)| && Hits(lib, step, FrontLines(c, lines)[j])
  {
    var longer := FrontLines(c, lines);
    if c == '\n' {
      j := k + 1;
      assert longer[j] == lines[k];
    } else {
      j := k;
      assert longer[k] == if k == 0 then [c] + lines[0] else lines[k];
    }
  }

  lemma BlankFront(lib: Lib, step: StepEntry, c: char, t: string)
    requires IsSpace(c) && HitsALine(lib, step, t)
    ensures HitsALine(lib, step, [c] + t)
  {
    SplitFront(c, t);
    var k: nat :| k < |Split(t)| && Hits(lib, step, Split(t)[k]);
    var j := FrontHits(lib, step, c, Split(t), k);
  }

  lemma SamePad(pad: string, s: string)
    requires pad != []
    ensures pad + s == [pad[0]] + (pad[1..] + s)
  {
  }

  lemma {:induction false} PadBefore(lib: Lib, step: StepEntry, pad: string, s: string)
    requires AllSpace(pad) && HitsALine(lib, step, s)
    ensures HitsALine(lib, step, pad + s)
  {
    if pad == [] {
      assert pad + s == s;
    } else {
      var t := pad[1..] + s;
      PadBefore(lib, step, pad[1..], s);
      BlankFront(lib, step, pad[0], t);
      SamePad(pad, s);
    }
  }

  // A blank at the end lengthens the last line, or starts another.
  ghost predicate EndsWith(lines: seq<string>, longer: seq<string>, c: char) {
    if c == '\n' then longer == lines + [[]]
    else
      && |longer| == |lines| > 0
      && forall k :: 0 <= k < |lines| ==> longer[k] == if k == |lines| - 1 then lines[k] + [c] else lines[k]
  }

  lemma {:induction false} LastLine(s: string, c: char)
    ensures EndsWith(Split(s), Split(s + [c]), c)
  {
    if s == [] {
      assert s + [c] == [c] && [c][1..] == [];
      assert Split([]) == [[]] && [][..] + [c] == [c];
    } else {
      var t, t' := Split(s[1..]), Split(s[1..] + [c]);
      assert (s + [c])[1..] == s[1..] + [c];
      LastLine(s[1..], c);
      if s[0] == '\n' {
        assert Split(s) == [[]] + t && Split(s + [c]) == [[]] + t';
      } else {
        assert Split(s) == [[s[0]] + t[0]] + t[1..] && Split(s + [c]) == [[s[0]] + t'[0]] + t'[1..];
        if c == '\n' {
          assert t'[0] == t[0] && t'[1..] == t[1..] + [[]];
        } else {
          LongerFirst(t, t', c, s[0]);
        }
      }
    }
  }

  lemma LongerFirst(t: seq<string>, t': seq<string>, c: char, h: char)
    requires c != '\n' && EndsWith(t, t', c)
    ensures EndsWith([[h] + t[0]] + t[1..], [[h] + t'[0]] + t'[1..], c)
  {
    var x, x' := [[h] + t[0]] + t[1..], [[h] + t'[0]] + t'[1..];
    forall k | 0 <= k < |x|
      ensures x'[k] == if k == |x| - 1 then x[k] + [c] else x[k]
    {
      if k == 0 {
        assert [h] + (t[0] + [c]) == ([h] + t[0]) + [c];
      } else {
        assert x'[k] == t'[k] && x[k] == t[k];
      }
    }
  }

  lemma BlankEnd(lib: Lib, step: StepEntry, t: string, c: char)
    requires IsSpace(c) && HitsALine(lib, step, t)
    ensures HitsALine(lib, step, t + [c])
  {
    LastLine(t, c);
    var lines, longer := Split(t), Split(t + [c]);
    var k :| 0 <= k < |lines| && Hits(lib, step, lines[k]);
    if c != '\n' && k == |lines| - 1 {
      TrimBlankAfter(lines[k], [c]);
    }
    assert Trim(longer[k]) == Trim(lines[k]);
  }

  lemma {:induction false} PadAfter(lib: Lib, step: StepEntry, s: string, pad: string)
    requires AllSpace(pad) && HitsALine(lib, step, s)
    ensures HitsALine(lib, step, s + pad)
  {
    if pad == [] {
      assert s + pad == s;
    } else {
      var n := |pad| - 1;
      PadAfter(lib, step, s, pad[..n]);
      BlankEnd(lib, step, s + pad[..n], pad[n]);
      assert s + pad == s + pad[..n] + [pad[n]];
    }
  }

  lemma LineHitPads(lib: Lib, step: StepEntry, answer: string)
    requires HitsALine(lib, step, Trim(answer))
    ensures HitsALine(lib, step, answer)
  {
    var before, after := TrimSplits(answer);
    PadBefore(lib, step, before, Trim(answer));
    PadAfter(lib, step, before + Trim(answer), after);
  }

  // A text longer than every accepted value
  function Longer(accept: seq<string>): (s: string)
    ensures forall k :: 0 <= k < |accept| ==> |Trim(accept[k])| < |s|
    ensures s != [] && forall i :: 0 <= i < |s| ==> s[i] == 'x'
  {
    if accept == [] then "x"
    else
      var rest := Longer(accept[..|accept| - 1]);
      rest + seq(|Trim(accept[|accept| - 1])|, i => 'x')
  }

  lemma LongerMisses(lib: Lib, step: StepEntry, text: string)
    requires step.matchType.SetOf? && |Trim(text)| >= |Longer(step.accept)|
    ensures !Hits(lib, step, text)
  {
  }

  lemma ExtraMisses(lib: Lib, step: StepEntry, v: string)
    requires step.matchType.SetOf? && Solid(v) && !HitsALine(lib, step, v)
    ensures var whole := v + ['\n'] + Longer(step.accept);
            !HitsALine(lib, step, whole) && !Hits(lib, step, whole)
  {
    var extra := Longer(step.accept);
    var whole := v + ['\n'] + extra;
    assert whole[0] == v[0] && whole[|whole| - 1] == 'x';
    SolidIsTrimmed(whole);
    SolidIsTrimmed(extra);
    LongerMisses(lib, step, whole);
    LongerMisses(lib, step, extra);
    SplitAppend(v, extra);
    SplitLine(extra);
    forall j | 0 <= j < |Split(whole)|
      ensures !Hits(lib, step, Split(whole)[j])
    {
      assert Split(whole)[j] == if j < |Split(v)| then Split(v)[j] else extra;
    }
  }

  // What is left when no line of an accepted value hits: the value itself earns
  // the marks, and a long enough line behind it loses them.
  lemma ValueLoses(lib: Lib, step: StepEntry, k: nat)
    requires step.matchType.SetOf? && step.marks > 0.0 && k < |step.accept|
    requires Trim(step.accept[k]) != [] && !HitsALine(lib, step, Trim(step.accept[k]))
    ensures !KeepsHit(lib, step, Trim(step.accept[k]), Longer(step.accept))
  {
    var v := Trim(step.accept[k]);
    var before, after := TrimSplits(step.accept[k]);
    TrimTwice(step.accept[k]);
    assert AcceptsFold(lib, v, Trim(v));
    ExtraMisses(lib, step, v);
  }

  // For a set step that can earn marks, no appended line ever costs them exactly
  // when every accepted value of several lines has a line that hits by itself.
  lemma SetLinesAreNeeded(lib: Lib, step: StepEntry)
    requires NewlineSafe(lib) && SpaceSafe(lib) && step.matchType.SetOf? && step.marks > 0.0
    ensures (forall answer, extra :: KeepsHit(lib, step, answer, extra))
        <==> (forall k :: 0 <= k < |step.accept| && '\n' in Trim(step.accept[k]) ==>
                HitsALine(lib, step, Trim(step.accept[k])))
  {
    if forall k :: 0 <= k < |step.accept| && '\n' in Trim(step.accept[k]) ==>
         HitsALine(lib, step, Trim(step.accept[k])) {
      forall answer, extra ensures KeepsHit(lib, step, answer, extra) {
        if Hits(lib, step, answer) {
          WholeHitsALine(lib, step, answer);
        }
        if HitsALine(lib, step, answer) {
          HitsMoreLines(lib, step, answer, extra);
        }
      }
    } else {
      var k: nat :| k < |step.accept| && '\n' in Trim(step.accept[k]) && !HitsALine(lib, step, Trim(step.accept[k]));
      ValueLoses(lib, step, k);
    }
  }

  lemma WholeHitsALine(lib: Lib, step: StepEntry, answer: string)
    requires NewlineSafe(lib) && SpaceSafe(lib) && step.matchType.SetOf? && Hits(lib, step, answer)
    requires forall k :: 0 <= k < |step.accept| && '\n' in Trim(step.accept[k]) ==>
               HitsALine(lib, step, Trim(step.accept[k]))
    ensures HitsALine(lib, step, answer)
  {
    var t := Trim(answer);
    var k :| 0 <= k < |step.accept| && AcceptsFold(lib, Trim(step.accept[k]), t);
    if '\n' in Trim(step.accept[k]) {
      LineHitFolds(lib, step, t, Trim(step.accept[k]));
      LineHitPads(lib, step, answer);
    } else {
      var j := TrimIsALine(answer);
      TrimTwice(answer);
      assert Hits(lib, step, Split(answer)[j]);
    }
  }
}
