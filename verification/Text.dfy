/** Trimming and code-fence search, as the Go `strings` package defines them. */
module Text {

  // The white space of strings.TrimSpace: the ASCII blanks and the Unicode
  // characters with the White_Space property.
  predicate IsSpace(c: char) {
    || c == '\t' || c == '\n' || c == '\U{0B}' || c == '\U{0C}' || c == '\r' || c == ' '
    || c == '\U{85}' || c == '\U{A0}' || c == '\U{1680}'
    || '\U{2000}' <= c <= '\U{200A}'
    || c == '\U{2028}' || c == '\U{2029}' || c == '\U{202F}' || c == '\U{205F}' || c == '\U{3000}'
  }

  predicate AllSpace(s: string) {
    forall i :: 0 <= i < |s| ==> IsSpace(s[i])
  }

  function TrimLeft(s: string): string {
    if s != [] && IsSpace(s[0]) then TrimLeft(s[1..]) else s
  }

  function TrimRight(s: string): string {
    if s != [] && IsSpace(s[|s| - 1]) then TrimRight(s[..|s| - 1]) else s
  }

  function Trim(s: string): string {
    TrimRight(TrimLeft(s))
  }

  // s starts and ends with a character that trimming keeps
  predicate Solid(s: string) {
    s != [] && !IsSpace(s[0]) && !IsSpace(s[|s| - 1])
  }

  lemma {:induction false} TrimLeftSuffix(s: string)
    ensures |TrimLeft(s)| <= |s| && TrimLeft(s) == s[|s| - |TrimLeft(s)|..]
    ensures AllSpace(s[..|s| - |TrimLeft(s)|])
    ensures TrimLeft(s) != [] ==> !IsSpace(TrimLeft(s)[0])
  {
    if s != [] && IsSpace(s[0]) {
      TrimLeftSuffix(s[1..]);
      var t := TrimLeft(s);
      assert s[..|s| - |t|] == [s[0]] + s[1..][..|s| - 1 - |t|];
    }
  }

  lemma {:induction false} TrimRightPrefix(s: string)
    ensures |TrimRight(s)| <= |s| && TrimRight(s) == s[..|TrimRight(s)|]
    ensures AllSpace(s[|TrimRight(s)|..])
    ensures TrimRight(s) != [] ==> !IsSpace(TrimRight(s)[|TrimRight(s)| - 1])
  {
    if s != [] && IsSpace(s[|s| - 1]) {
      TrimRightPrefix(s[..|s| - 1]);
      var t := TrimRight(s);
      assert s[|t|..] == s[..|s| - 1][|t|..] + [s[|s| - 1]];
    }
  }

  lemma {:induction false} TrimLeftPast(s: string, rest: string)
    requires rest != [] && !IsSpace(rest[0])
    ensures TrimLeft(s + rest) == TrimLeft(s) + rest
  {
    if s == [] {
      assert s + rest == rest;
    } else if IsSpace(s[0]) {
      assert (s + rest)[1..] == s[1..] + rest;
      TrimLeftPast(s[1..], rest);
    }
  }

  lemma {:induction false} TrimRightPast(front: string, s: string)
    requires front != [] && !IsSpace(front[|front| - 1])
    ensures TrimRight(front + s) == front + TrimRight(s)
  {
    if s == [] {
      assert front + s == front;
    } else if IsSpace(s[|s| - 1]) {
      assert (front + s)[..|front + s| - 1] == front + s[..|s| - 1];
      TrimRightPast(front, s[..|s| - 1]);
    }
  }

  // Trimming reaches past what surrounds a solid core and no further.
  lemma TrimAround(s: string, core: string, t: string)
    requires Solid(core)
    ensures Trim(s + core + t) == TrimLeft(s) + core + TrimRight(t)
  {
    assert s + core + t == s + (core + t);
    TrimLeftPast(s, core + t);
    var front := TrimLeft(s) + core;
    assert TrimLeft(s) + (core + t) == front + t;
    TrimRightPast(front, t);
  }

  lemma {:induction false} TrimLeftBlank(s: string)
    requires AllSpace(s)
    ensures TrimLeft(s) == []
  {
    if s != [] {
      TrimLeftBlank(s[1..]);
    }
  }

  lemma {:induction false} TrimRightBlank(s: string)
    requires AllSpace(s)
    ensures TrimRight(s) == []
  {
    if s != [] {
      TrimRightBlank(s[..|s| - 1]);
    }
  }

  // What Trim keeps is solid, and only blanks are dropped around it.
  lemma TrimSplits(s: string) returns (before: string, after: string)
    ensures s == before + Trim(s) + after
    ensures AllSpace(before) && AllSpace(after)
    ensures Trim(s) == [] || Solid(Trim(s))
  {
    TrimLeftSuffix(s);
    var t := TrimLeft(s);
    TrimRightPrefix(t);
    before := s[..|s| - |t|];
    after := t[|TrimRight(t)|..];
  }

  lemma SolidIsTrimmed(s: string)
    requires s == [] || Solid(s)
    ensures Trim(s) == s
  {
    if s != [] {
      TrimAround([], s, []);
      assert [] + s + [] == s;
    }
  }

  lemma TrimTwice(s: string)
    ensures Trim(Trim(s)) == Trim(s)
  {
    var before, after := TrimSplits(s);
    SolidIsTrimmed(Trim(s));
  }

  // ``` at position i
  predicate FenceAt(s: string, i: int) {
    0 <= i && i + 3 <= |s| && s[i] == '`' && s[i + 1] == '`' && s[i + 2] == '`'
  }

  ghost predicate HasFence(s: string) {
    exists i :: FenceAt(s, i)
  }

  // strings.Index(s, "```") counted from position i on
  function FenceFrom(s: string, i: nat): (at: int)
    requires i <= |s|
    ensures at == -1 || (i <= at && FenceAt(s, at))
    ensures forall j :: i <= j && FenceAt(s, j) ==> 0 <= at <= j
    decreases |s| - i
  {
    if i == |s| then -1
    else if FenceAt(s, i) then i
    else FenceFrom(s, i + 1)
  }

  // strings.LastIndex(s, "```") counted below position n
  function FenceBelow(s: string, n: nat): (at: int)
    ensures at == -1 || (at < n && FenceAt(s, at))
    ensures forall j :: j < n && FenceAt(s, j) ==> j <= at
  {
    if n == 0 then -1
    else if FenceAt(s, n - 1) then n - 1
    else FenceBelow(s, n - 1)
  }

  // The part of s before its first fence, all of s when it has none.
  function CutAtFirstFence(s: string): string {
    var at := FenceFrom(s, 0);
    if at >= 0 then s[..at] else s
  }

  // The part of s before its last fence, all of s when it has none.
  function CutAtLastFence(s: string): string {
    var at := FenceBelow(s, |s|);
    if at >= 0 then s[..at] else s
  }

  // strings.CutPrefix, keeping s when the prefix is absent
  function CutTag(s: string, tag: string): string {
    if tag <= s then s[|tag|..] else s
  }
}
