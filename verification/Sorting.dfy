/** The library's stable sort and string order, as far as the analytics rely on them. */
module Sorting {

  // Go's < on strings, character by character.
  predicate Before(a: string, b: string) {
    if b == [] then false
    else if a == [] then true
    else a[0] < b[0] || (a[0] == b[0] && Before(a[1..], b[1..]))
  }

  lemma {:induction false} BeforeIsTotal(a: string, b: string)
    ensures Before(a, b) || a == b || Before(b, a)
    ensures !(Before(a, b) && Before(b, a))
    ensures !Before(a, a)
  {
    if a != [] && b != [] {
      BeforeIsTotal(a[1..], b[1..]);
      assert a == [a[0]] + a[1..] && b == [b[0]] + b[1..];
    }
    if a != [] {
      BeforeIsTotal(a[1..], a[1..]);
    }
  }

  lemma {:induction false} BeforeIsTransitive(a: string, b: string, c: string)
    ensures Before(a, b) && Before(b, c) ==> Before(a, c)
  {
    if a != [] && b != [] && c != [] {
      BeforeIsTransitive(a[1..], b[1..], c[1..]);
    }
  }

  // a is lower where the two first differ.
  predicate LowerAt(a: string, b: string, k: nat) {
    k < |a| && k < |b| && a[..k] == b[..k] && a[k] < b[k]
  }

  // The order of a dictionary
  lemma {:induction false} BeforeIsLexical(a: string, b: string)
    ensures Before(a, b) <==> (a < b || exists k: nat :: LowerAt(a, b, k))
  {
    if a != [] && b != [] {
      if a[0] == b[0] {
        BeforeIsLexical(a[1..], b[1..]);
        LowerBehind(a, b);
      } else {
        LowerInFront(a, b);
      }
    }
  }

  lemma LowerInFront(a: string, b: string)
    requires a != [] && b != [] && a[0] != b[0]
    ensures !(a < b) && (a[0] < b[0] <==> exists k: nat :: LowerAt(a, b, k))
  {
    assert a[..0] == b[..0];
    assert LowerAt(a, b, 0) <==> a[0] < b[0];
    forall k: nat ensures LowerAt(a, b, k) ==> k == 0 {
      assert 0 < k < |a| && k < |b| ==> a[..k][0] == a[0] && b[..k][0] == b[0];
    }
  }

  lemma LowerBehind(a: string, b: string)
    requires a != [] && b != [] && a[0] == b[0]
    ensures a < b <==> a[1..] < b[1..]
    ensures (exists k: nat :: LowerAt(a, b, k)) <==> exists k: nat :: LowerAt(a[1..], b[1..], k)
  {
    assert a == [a[0]] + a[1..] && b == [b[0]] + b[1..];
    if exists k: nat :: LowerAt(a, b, k) {
      var k: nat :| LowerAt(a, b, k);
      assert k > 0;
      LowerNext(a, b, k - 1);
    }
    if exists k: nat :: LowerAt(a[1..], b[1..], k) {
      var k: nat :| LowerAt(a[1..], b[1..], k);
      LowerNext(a, b, k);
    }
  }

  lemma LowerNext(a: string, b: string, k: nat)
    requires a != [] && b != [] && a[0] == b[0]
    ensures LowerAt(a, b, k + 1) <==> LowerAt(a[1..], b[1..], k)
  {
    if k + 1 < |a| && k + 1 < |b| {
      assert a[..k + 1] == [a[0]] + a[1..][..k] && b[..k + 1] == [b[0]] + b[1..][..k];
    }
  }

  // What sort asks of less: its negation orders the elements.
  ghost predicate Ordering<T(!new)>(less: (T, T) -> bool) {
    && (forall a, b :: less(a, b) ==> !less(b, a))
    && (forall a, b, c :: !less(b, a) && !less(c, b) ==> !less(c, a))
  }

  ghost predicate Sorted<T>(s: seq<T>, less: (T, T) -> bool) {
    forall i, j :: 0 <= i < j < |s| ==> !less(s[j], s[i])
  }

  ghost predicate Strict<T>(s: seq<T>, less: (T, T) -> bool) {
    forall i, j :: 0 <= i < j < |s| ==> less(s[i], s[j])
  }

  ghost predicate Arranges<T>(s: seq<T>, all: seq<T>, less: (T, T) -> bool) {
    multiset(s) == multiset(all) && Sorted(s, less)
  }

  // s starts some sorted arrangement of all: nothing left out belongs before
  // anything kept.
  ghost predicate Leads<T(!new)>(s: seq<T>, all: seq<T>, less: (T, T) -> bool) {
    exists rest: seq<T> :: Arranges(s + rest, all, less)
  }

  function Insert<T>(s: seq<T>, x: T, less: (T, T) -> bool): (r: seq<T>)
    ensures |r| == |s| + 1
  {
    if s != [] && less(x, s[|s| - 1]) then Insert(s[..|s| - 1], x, less) + [s[|s| - 1]] else s + [x]
  }

  // sort.SliceStable
  function StableSort<T>(s: seq<T>, less: (T, T) -> bool): (r: seq<T>)
    ensures |r| == |s|
  {
    if s == [] then [] else Insert(StableSort(s[..|s| - 1], less), s[|s| - 1], less)
  }

  lemma SplitLast<T>(s: seq<T>)
    requires s != []
    ensures multiset(s) == multiset(s[..|s| - 1]) + multiset{s[|s| - 1]}
  {
    assert s == s[..|s| - 1] + [s[|s| - 1]];
  }

  lemma {:induction false} InsertPermutes<T>(s: seq<T>, x: T, less: (T, T) -> bool)
    ensures multiset(Insert(s, x, less)) == multiset(s) + multiset{x}
  {
    if s != [] {
      InsertPermutes(s[..|s| - 1], x, less);
      SplitLast(s);
    }
  }

  lemma {:induction false} SortPermutes<T>(s: seq<T>, less: (T, T) -> bool)
    ensures multiset(StableSort(s, less)) == multiset(s)
  {
    if s != [] {
      var n := |s| - 1;
      SortPermutes(s[..n], less);
      InsertPermutes(StableSort(s[..n], less), s[n], less);
      SplitLast(s);
    }
  }

  lemma {:induction false} InsertSorts<T(!new)>(s: seq<T>, x: T, less: (T, T) -> bool)
    requires Ordering(less) && Sorted(s, less)
    ensures Sorted(Insert(s, x, less), less)
  {
    if s != [] && less(x, s[|s| - 1]) {
      var n := |s| - 1;
      var t := Insert(s[..n], x, less);
      InsertSorts(s[..n], x, less);
      InsertPermutes(s[..n], x, less);
      forall i | 0 <= i < |t|
        ensures !less(s[n], t[i])
      {
        assert t[i] in multiset(t);
      }
    } else {
      forall i | 0 <= i < |s|
        ensures !less(x, s[i])
      {
        var last := s[|s| - 1];
        assert !less(x, last) && (last == s[i] || !less(last, s[i]));
      }
    }
  }

  lemma {:induction false} SortSorts<T(!new)>(s: seq<T>, less: (T, T) -> bool)
    requires Ordering(less)
    ensures Sorted(StableSort(s, less), less)
  {
    if s != [] {
      var n := |s| - 1;
      SortSorts(s[..n], less);
      InsertSorts(StableSort(s[..n], less), s[n], less);
    }
  }

  // What is sorted stays as it is.
  lemma {:induction false} SortedIsFixed<T>(s: seq<T>, less: (T, T) -> bool)
    requires Sorted(s, less)
    ensures StableSort(s, less) == s
  {
    if s != [] {
      SortedIsFixed(s[..|s| - 1], less);
    }
  }

  lemma {:induction false} InsertStrictly<T(!new)>(s: seq<T>, x: T, less: (T, T) -> bool)
    requires Ordering(less) && Strict(s, less)
    requires forall i :: 0 <= i < |s| ==> less(s[i], x) || less(x, s[i])
    ensures Strict(Insert(s, x, less), less)
  {
    if s != [] && less(x, s[|s| - 1]) {
      var n := |s| - 1;
      var t := Insert(s[..n], x, less);
      InsertStrictly(s[..n], x, less);
      InsertPermutes(s[..n], x, less);
      forall i | 0 <= i < |t|
        ensures less(t[i], s[n])
      {
        assert t[i] in multiset(t);
      }
    } else {
      forall i | 0 <= i < |s|
        ensures less(s[i], x)
      {
        var last := s[|s| - 1];
        assert !less(x, last) && (last == s[i] || !less(last, s[i]));
      }
    }
  }

  // Elements no two of which are level come out strictly increasing.
  lemma {:induction false} SortStrictly<T(!new)>(s: seq<T>, less: (T, T) -> bool)
    requires Ordering(less)
    requires forall i, j :: 0 <= i < j < |s| ==> less(s[i], s[j]) || less(s[j], s[i])
    ensures Strict(StableSort(s, less), less)
  {
    if s != [] {
      var n := |s| - 1;
      var t := StableSort(s[..n], less);
      SortStrictly(s[..n], less);
      SortPermutes(s[..n], less);
      forall i | 0 <= i < |t|
        ensures less(t[i], s[n]) || less(s[n], t[i])
      {
        assert t[i] in multiset(t);
      }
      InsertStrictly(t, s[n], less);
    }
  }

  lemma SplitLeads<T(!new)>(t: seq<T>, k: nat, all: seq<T>, less: (T, T) -> bool)
    requires k <= |t| && Arranges(t, all, less)
    ensures Leads(t[..k], all, less)
  {
    var rest := t[k..];
    assert t[..k] + rest == t;
    assert Arranges(t[..k] + rest, all, less);
  }

  lemma PrefixLeads<T(!new)>(s: seq<T>, k: nat, less: (T, T) -> bool)
    requires Ordering(less) && k <= |s|
    ensures Leads(StableSort(s, less)[..k], s, less)
  {
    SortSorts(s, less);
    SortPermutes(s, less);
    SplitLeads(StableSort(s, less), k, s, less);
  }

  lemma NotBefore<T>(s: seq<T>, rest: seq<T>, kept: T, x: T, less: (T, T) -> bool)
    requires Sorted(s + rest, less) && kept in s && x in rest
    ensures !less(x, kept)
  {
    var i :| 0 <= i < |s| && s[i] == kept;
    var j :| 0 <= j < |rest| && rest[j] == x;
    assert (s + rest)[i] == kept && (s + rest)[|s| + j] == x;
  }

  lemma LeadsInOrder<T(!new)>(s: seq<T>, all: seq<T>, less: (T, T) -> bool)
    requires Leads(s, all, less)
    ensures Sorted(s, less)
  {
    var rest: seq<T> :| Arranges(s + rest, all, less);
    forall i, j | 0 <= i < j < |s| ensures !less(s[j], s[i]) {
      assert (s + rest)[i] == s[i] && (s + rest)[j] == s[j];
    }
  }

  // What is kept is one of all, and nothing left out is less than it.
  lemma LeadsElements<T(!new)>(s: seq<T>, all: seq<T>, kept: T, x: T, less: (T, T) -> bool)
    requires Leads(s, all, less) && kept in s
    ensures kept in all
    ensures x in all && x !in s ==> !less(x, kept)
  {
    var rest: seq<T> :| Arranges(s + rest, all, less);
    assert x in multiset(s + rest) <==> x in multiset(all);
    assert kept in multiset(s + rest) <==> kept in multiset(all);
    assert x in s + rest <==> x in all;
    if x in rest {
      NotBefore(s, rest, kept, x, less);
    }
  }

  ghost predicate Includes<T>(b: seq<T>, a: seq<T>) {
    forall i :: 0 <= i < |a| ==> a[i] in b
  }

  lemma StrictLast<T(!new)>(a: seq<T>, b: seq<T>, less: (T, T) -> bool)
    requires Ordering(less) && Strict(a, less) && Strict(b, less)
    requires Includes(a, b) && Includes(b, a) && a != [] && b != []
    ensures a[|a| - 1] == b[|b| - 1]
  {
    var m, n := |a| - 1, |b| - 1;
    assert a[m] in b && b[n] in a;
    var i :| 0 <= i < |b| && b[i] == a[m];
    var j :| 0 <= j < |a| && a[j] == b[n];
  }

  // A strictly increasing sequence is determined by its elements.
  lemma {:induction false} StrictIsUnique<T(!new)>(a: seq<T>, b: seq<T>, less: (T, T) -> bool)
    requires Ordering(less) && Strict(a, less) && Strict(b, less)
    requires Includes(a, b) && Includes(b, a)
    ensures a == b
    decreases |a|
  {
    assert a != [] ==> a[0] in b;
    assert b != [] ==> b[0] in a;
    if a != [] && b != [] {
      StrictLast(a, b, less);
      StrictIsUnique(a[..|a| - 1], b[..|b| - 1], less);
    }
  }
}
