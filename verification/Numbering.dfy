/** Making question numbers unique after transcription (dedupeQuestionNos). */
module Numbering {
  import opened Papers
  import opened Decimals

  function Occurrences(raws: seq<string>, n: string): nat {
    if raws == [] then 0
    else Occurrences(raws[..|raws| - 1], n) + (if raws[|raws| - 1] == n then 1 else 0)
  }

  function Suffixed(n: string, k: nat): string {
    n + "#" + Decimal(k)
  }

  // The number question i is given.
  function NewNumber(raws: seq<string>, i: nat): string
    requires i < |raws|
  {
    var c := Occurrences(raws[..i], raws[i]);
    if c == 0 then raws[i] else Suffixed(raws[i], c + 1)
  }

  function Numbers(qs: seq<TranscribedQuestion>): (r: seq<string>)
    ensures |r| == |qs| && forall i :: 0 <= i < |qs| ==> r[i] == qs[i].questionNo
  {
    seq(|qs|, i requires 0 <= i < |qs| => qs[i].questionNo)
  }

  ghost predicate Counted(seen: map<string, nat>, raws: seq<string>) {
    forall n :: (n in seen <==> Occurrences(raws, n) > 0) && (n in seen ==> seen[n] == Occurrences(raws, n))
  }

  lemma CountedStep(seen: map<string, nat>, raws: seq<string>, i: nat)
    requires i < |raws| && Counted(seen, raws[..i])
    ensures Counted(seen[raws[i] := if raws[i] in seen then seen[raws[i]] + 1 else 1], raws[..i + 1])
    ensures NewNumber(raws, i) == if raws[i] in seen then Suffixed(raws[i], seen[raws[i]] + 1) else raws[i]
  {
    assert raws[..i + 1][..i] == raws[..i];
  }

  // The first i questions carry their new numbers; nothing else has changed.
  ghost predicate RenamedTo(now: seq<TranscribedQuestion>, was: seq<TranscribedQuestion>, i: nat) {
    && |now| == |was| && i <= |was|
    && (forall j: nat :: j < i ==> now[j] == was[j].(questionNo := NewNumber(Numbers(was), j)))
    && (forall j: nat :: i <= j < |was| ==> now[j] == was[j])
  }

  method DedupeQuestionNos(questions: array<TranscribedQuestion>)
    modifies questions
    ensures RenamedTo(questions[..], old(questions[..]), questions.Length)
  {
    ghost var was := questions[..];
    ghost var raws := Numbers(was);
    var seen: map<string, nat> := map[];
    for i := 0 to questions.Length
      invariant Counted(seen, raws[..i])
      invariant RenamedTo(questions[..], was, i)
    {
      var n := questions[i].questionNo;
      ghost var now := questions[..];
      CountedStep(seen, raws, i);
      if n in seen {
        var c := seen[n];
        seen := seen[n := c + 1];
        questions[i] := questions[i].(questionNo := Suffixed(n, c + 1));
      } else {
        seen := seen[n := 1];
      }
      assert questions[..] == now[i := now[i].(questionNo := NewNumber(raws, i))];
    }
  }

  // When the new numbers are unique ---------------------------------------------------------

  // Some raw number is what a repetition of another raw number turns into.
  ghost predicate Clashes(raws: seq<string>) {
    exists i: nat, j: nat, k: nat :: Clash(raws, i, j, k)
  }

  ghost predicate Clash(raws: seq<string>, i: nat, j: nat, k: nat) {
    i < |raws| && j < |raws| && 2 <= k <= Occurrences(raws, raws[i]) && raws[j] == Suffixed(raws[i], k)
  }

  ghost predicate UniqueNumbers(raws: seq<string>) {
    forall i: nat, j: nat :: i < j < |raws| ==> NewNumber(raws, i) != NewNumber(raws, j)
  }

  lemma {:induction false} MoreOccurrences(raws: seq<string>, i: nat, j: nat, n: string)
    requires i <= j <= |raws|
    ensures Occurrences(raws[..i], n) <= Occurrences(raws[..j], n)
    ensures i < j && raws[i] == n ==> Occurrences(raws[..i], n) < Occurrences(raws[..j], n)
    decreases j
  {
    if i < j {
      assert raws[..j][..j - 1] == raws[..j - 1];
      MoreOccurrences(raws, i, j - 1, n);
    }
  }

  // Where the k-th occurrence of n stands.
  lemma {:induction false} Occurrence(raws: seq<string>, n: string, k: nat) returns (i: nat)
    requires 1 <= k <= Occurrences(raws, n)
    ensures i < |raws| && raws[i] == n && Occurrences(raws[..i], n) == k - 1
  {
    var m := |raws| - 1;
    if k <= Occurrences(raws[..m], n) {
      i := Occurrence(raws[..m], n, k);
      assert raws[..m][..i] == raws[..i];
    } else {
      i := m;
    }
  }

  lemma LastHash(n: string, k: nat, s: string)
    requires s == Suffixed(n, k)
    ensures |n| < |s| && s[|n|] == '#' && s[..|n|] == n && s[|n| + 1..] == Decimal(k)
    ensures forall i :: |n| < i < |s| ==> s[i] != '#'
  {
    ReadsBack(k);
    assert forall i :: |n| < i < |s| ==> s[i] == Decimal(k)[i - |n| - 1];
  }

  // A suffixed number can be read back.
  lemma SuffixedInjective(n: string, k: nat, m: string, l: nat)
    ensures Suffixed(n, k) == Suffixed(m, l) ==> n == m && k == l
  {
    LastHash(n, k, Suffixed(n, k));
    LastHash(m, l, Suffixed(m, l));
    DecimalInjective(k, l);
  }

  lemma EqualMeansClash(raws: seq<string>, i: nat, j: nat)
    requires i < j < |raws|
    ensures NewNumber(raws, i) == NewNumber(raws, j) ==> Clashes(raws)
  {
    var a, b := raws[i], raws[j];
    var c, d := Occurrences(raws[..i], a), Occurrences(raws[..j], b);
    MoreOccurrences(raws, i, j, a);
    MoreOccurrences(raws, i, |raws|, a);
    MoreOccurrences(raws, j, |raws|, b);
    assert raws[..|raws|] == raws;
    SuffixedInjective(a, c + 1, b, d + 1);
    if NewNumber(raws, i) == NewNumber(raws, j) {
      if c == 0 && d > 0 {
        assert Clash(raws, j, i, d + 1);
      } else if c > 0 && d == 0 {
        assert Clash(raws, i, j, c + 1);
      }
    }
  }

  lemma ClashMeansEqual(raws: seq<string>, i: nat, j: nat, k: nat)
    requires Clash(raws, i, j, k)
    ensures !UniqueNumbers(raws)
  {
    var n, m := raws[i], raws[j];
    MoreOccurrences(raws, j, |raws|, m);
    assert raws[..|raws|] == raws;
    var first := Occurrence(raws, m, 1);
    var repeat := Occurrence(raws, n, k);
    assert NewNumber(raws, first) == m == NewNumber(raws, repeat);
    assert n != m;
    assert first < repeat || repeat < first;
  }

  // The numbers come out unique exactly when no raw number looks like a suffixed
  // repetition of another.
  lemma UniqueIffNoClash(raws: seq<string>)
    ensures UniqueNumbers(raws) <==> !Clashes(raws)
  {
    forall i: nat, j: nat | i < j < |raws|
      ensures NewNumber(raws, i) == NewNumber(raws, j) ==> Clashes(raws)
    {
      EqualMeansClash(raws, i, j);
    }
    forall i: nat, j: nat, k: nat | Clash(raws, i, j, k)
      ensures !UniqueNumbers(raws)
    {
      ClashMeansEqual(raws, i, j, k);
    }
  }

  lemma UniqueWithoutHash(raws: seq<string>)
    requires forall i :: 0 <= i < |raws| ==> '#' !in raws[i]
    ensures UniqueNumbers(raws)
  {
    UniqueIffNoClash(raws);
    forall i: nat, j: nat, k: nat
      ensures !Clash(raws, i, j, k)
    {
      if i < |raws| && j < |raws| {
        LastHash(raws[i], k, Suffixed(raws[i], k));
      }
    }
  }

  // The promise of the comment fails on 1, 1, 1#2: two questions end up as 1#2.
  lemma HashCanCollide()
    ensures !UniqueNumbers(["1", "1", "1#2"])
  {
    var raws := ["1", "1", "1#2"];
    assert raws[..2] == ["1", "1"] && ["1", "1"][..1] == ["1"] && ["1"][..0] == [];
    assert Occurrences(["1"], "1") == 1;
    assert Occurrences(["1", "1"], "1") == 2;
    assert Suffixed("1", 2) == "1#2";
    ClashMeansEqual(raws, 0, 2, 2);
  }
}
