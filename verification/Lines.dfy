/** strings.Split(s, "\n"), strings.Fields, and which line a trimmed answer is. */
module Lines {
  import opened Text

  function Split(s: string): (lines: seq<string>)
    ensures lines != []
  {
    if s == [] then [[]]
    else
      var rest := Split(s[1..]);
      if s[0] == '\n' then [[]] + rest else [[s[0]] + rest[0]] + rest[1..]
  }

  function Fields(s: string): seq<string>
    decreases |s|
  {
    var t := TrimLeft(s);
    TrimLeftSuffix(s);
    if t == [] then [] else
      var w := Word(t);
      [t[..w]] + Fields(t[w..])
  }

  // The length of the run of non-blank characters s starts with
  function Word(s: string): (n: nat)
    ensures n <= |s| && (s != [] && !IsSpace(s[0]) ==> n > 0)
  {
    if s == [] || IsSpace(s[0]) then 0 else 1 + Word(s[1..])
  }

  function JoinWords(words: seq<string>): string {
    if words == [] then [] else if |words| == 1 then words[0] else words[0] + [' '] + JoinWords(words[1..])
  }

  lemma {:induction false} SplitLine(line: string)
    requires '\n' !in line
    ensures Split(line) == [line]
  {
    if line != [] {
      assert '\n' !in line[1..];
      SplitLine(line[1..]);
      assert line[0] in line && [line[0]] + line[1..] == line;
    }
  }

  // Appending a line appends its lines.
  lemma {:induction false} SplitAppend(a: string, b: string)
    ensures Split(a + ['\n'] + b) == Split(a) + Split(b)
  {
    if a == [] {
      assert (a + ['\n'] + b)[1..] == b;
    } else {
      assert (a + ['\n'] + b)[1..] == a[1..] + ['\n'] + b;
      SplitAppend(a[1..], b);
    }
  }

  lemma {:induction false} LinesHaveNoNewline(s: string)
    ensures forall k :: 0 <= k < |Split(s)| ==> '\n' !in Split(s)[k]
  {
    if s != [] {
      LinesHaveNoNewline(s[1..]);
    }
  }

  // Trimming with blanks around --------------------------------------------

  lemma {:induction false} TrimLeftOver(b: string, s: string)
    requires AllSpace(b)
    ensures TrimLeft(b + s) == TrimLeft(s)
  {
    if b == [] {
      assert b + s == s;
    } else {
      assert (b + s)[1..] == b[1..] + s;
      TrimLeftOver(b[1..], s);
    }
  }

  lemma {:induction false} TrimRightOver(s: string, b: string)
    requires AllSpace(b)
    ensures TrimRight(s + b) == TrimRight(s)
  {
    if b == [] {
      assert s + b == s;
    } else {
      assert (s + b)[..|s + b| - 1] == s + b[..|b| - 1];
      TrimRightOver(s, b[..|b| - 1]);
    }
  }

  lemma TrimBlankAfter(s: string, b: string)
    requires AllSpace(b)
    ensures Trim(s + b) == Trim(s)
  {
    if AllSpace(s) {
      TrimLeftBlank(s + b);
      TrimLeftBlank(s);
    } else {
      TrimLeftNonBlank(s);
      var t := TrimLeft(s);
      TrimLeftSuffix(s);
      var front := s[..|s| - |t|];
      assert s + b == front + (t + b);
      TrimLeftOver(front, t + b);
      TrimLeftPast([], t + b);
      assert [] + (t + b) == t + b;
      TrimRightOver(t, b);
    }
  }

  lemma {:induction false} TrimLeftNonBlank(s: string)
    requires !AllSpace(s)
    ensures TrimLeft(s) != [] && !IsSpace(TrimLeft(s)[0])
  {
    if s != [] && IsSpace(s[0]) {
      assert !AllSpace(s[1..]) by {
        var i :| 0 <= i < |s| && !IsSpace(s[i]);
        assert s[1..][i - 1] == s[i];
      }
      TrimLeftNonBlank(s[1..]);
    }
  }

  // Text on both sides of a newline keeps the newline.
  lemma TrimKeepsInnerNewline(x: string, y: string)
    requires !AllSpace(x) && !AllSpace(y)
    ensures '\n' in Trim(x + ['\n'] + y)
  {
    TrimLeftNonBlank(x);
    var a, b := TrimLeft(x), TrimRight(y);
    TrimLeftSuffix(x);
    TrimRightPrefix(y);
    var left, right := x[..|x| - |a|], y[|b|..];
    var core := a + ['\n'] + b;
    assert x + ['\n'] + y == left + core + right;
    assert core[0] == a[0] && core[|core| - 1] == b[|b| - 1];
    TrimAround(left, core, right);
    TrimLeftBlank(left);
    TrimRightBlank(right);
    assert Trim(x + ['\n'] + y) == core;
    assert core[|a|] == '\n';
  }

  function FirstNewline(s: string): (n: nat)
    requires '\n' in s
    ensures n < |s| && s[n] == '\n' && '\n' !in s[..n]
  {
    if s[0] == '\n' then 0 else
      assert '\n' in s[1..];
      var n := FirstNewline(s[1..]);
      assert s[..n + 1] == [s[0]] + s[1..][..n];
      n + 1
  }

  // When trimming a text leaves no newline, what it leaves is one of its lines.
  lemma {:induction false} TrimIsALine(s: string) returns (k: nat)
    requires '\n' !in Trim(s)
    ensures k < |Split(s)| && Trim(Split(s)[k]) == Trim(s)
    decreases |s|
  {
    if '\n' !in s {
      SplitLine(s);
      k := 0;
    } else {
      var n := FirstNewline(s);
      var x, y := s[..n], s[n + 1..];
      assert s == x + ['\n'] + y;
      SplitAppend(x, y);
      SplitLine(x);
      if AllSpace(x) {
        assert s == (x + ['\n']) + y;
        TrimLeftOver(x + ['\n'], y);
        var m := TrimIsALine(y);
        k := m + 1;
      } else {
        assert !AllSpace(y) ==> '\n' in Trim(s) by {
          if !AllSpace(y) { TrimKeepsInnerNewline(x, y); }
        }
        assert s == x + (['\n'] + y);
        TrimBlankAfter(x, ['\n'] + y);
        k := 0;
      }
    }
  }
}
