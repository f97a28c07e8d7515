/** Which differences in the way an answer is written the matchers overlook:
    spacing and units of numbers, case and punctuation of normalized text, and
    surrounding text of partial answers. */
module AnswerForms {
  import opened Wrappers
  import opened Text
  import opened Lines
  import opened Papers
  import opened Matchers

  // Words ----------------------------------------------------------------------------

  // What Fields yields: a non-empty text without white space.
  predicate IsToken(w: string) {
    w != [] && forall i :: 0 <= i < |w| ==> !IsSpace(w[i])
  }

  predicate Tokens(words: seq<string>) {
    forall k :: 0 <= k < |words| ==> IsToken(words[k])
  }

  // Nothing but blanks, or a blank before the rest.
  predicate Separated(rest: string) {
    rest == [] || IsSpace(rest[0])
  }

  lemma {:induction false} WordEnds(s: string)
    ensures forall i :: 0 <= i < Word(s) ==> !IsSpace(s[i])
    ensures Separated(s[Word(s)..])
  {
    if s != [] && !IsSpace(s[0]) {
      WordEnds(s[1..]);
      assert s[Word(s)..] == s[1..][Word(s[1..])..];
      forall i | 0 <= i < Word(s)
        ensures !IsSpace(s[i])
      {
        assert i > 0 ==> s[i] == s[1..][i - 1];
      }
    }
  }

  lemma {:induction false} WordOf(w: string, rest: string)
    requires (forall i :: 0 <= i < |w| ==> !IsSpace(w[i])) && Separated(rest)
    ensures Word(w + rest) == |w|
  {
    if w == [] {
      assert w + rest == rest;
    } else {
      assert (w + rest)[1..] == w[1..] + rest;
      WordOf(w[1..], rest);
    }
  }

  lemma {:induction false} FieldsAreTokens(s: string)
    ensures Tokens(Fields(s))
    decreases |s|
  {
    var t := TrimLeft(s);
    TrimLeftSuffix(s);
    if t != [] {
      var w := Word(t);
      WordEnds(t);
      FieldsAreTokens(t[w..]);
    }
  }

  lemma FieldsSkip(pad: string, s: string)
    requires AllSpace(pad)
    ensures Fields(pad + s) == Fields(s)
  {
    TrimLeftOver(pad, s);
  }

  // Reading a word that blanks, or nothing, follow.
  lemma FieldsStep(w: string, rest: string)
    requires IsToken(w) && Separated(rest)
    ensures Fields(w + rest) == [w] + Fields(rest)
  {
    var s := w + rest;
    assert s[0] == w[0];
    assert TrimLeft(s) == s;
    WordOf(w, rest);
    assert s[..|w|] == w && s[|w|..] == rest;
  }

  lemma FieldsBlank(pad: string)
    requires AllSpace(pad)
    ensures Fields(pad) == []
  {
    TrimLeftBlank(pad);
  }

  lemma {:induction false} FieldsDropEnd(s: string, pad: string)
    requires AllSpace(pad)
    ensures Fields(s + pad) == Fields(s)
    decreases |s|
  {
    var t := TrimLeft(s);
    TrimLeftSuffix(s);
    var front := s[..|s| - |t|];
    assert s == front + t;
    assert s + pad == front + (t + pad);
    FieldsSkip(front, t + pad);
    FieldsSkip(front, t);
    if t == [] {
      assert t + pad == pad;
      FieldsBlank(pad);
    } else {
      var w := Word(t);
      WordEnds(t);
      var word, rest := t[..w], t[w..];
      assert t == word + rest && t + pad == word + (rest + pad);
      FieldsDropEnd(rest, pad);
      FieldsStep(word, rest);
      FieldsStep(word, rest + pad);
    }
  }

  // Trimming does not change the words.
  lemma FieldsOfTrim(s: string)
    ensures Fields(Trim(s)) == Fields(s)
  {
    var before, after := TrimSplits(s);
    assert s == before + (Trim(s) + after);
    FieldsSkip(before, Trim(s) + after);
    FieldsDropEnd(Trim(s), after);
  }

  lemma JoinStep(words: seq<string>)
    requires |words| > 1
    ensures JoinWords(words) == words[0] + ([' '] + JoinWords(words[1..]))
  {
  }

  lemma {:induction false} JoinedWords(words: seq<string>)
    requires Tokens(words)
    ensures Fields(JoinWords(words)) == words
    decreases |words|
  {
    if words == [] {
      FieldsBlank([]);
    } else if |words| == 1 {
      FieldsStep(words[0], []);
      FieldsBlank([]);
      assert words[0] + [] == words[0];
    } else {
      var rest := JoinWords(words[1..]);
      JoinedWords(words[1..]);
      JoinStep(words);
      FieldsStep(words[0], [' '] + rest);
      FieldsSkip([' '], rest);
      assert words == [words[0]] + words[1..];
    }
  }

  lemma {:induction false} JoinIsSolid(words: seq<string>)
    requires Tokens(words) && words != []
    ensures Solid(JoinWords(words))
    decreases |words|
  {
    if |words| > 1 {
      JoinIsSolid(words[1..]);
      JoinStep(words);
    }
  }

  lemma JoinIsTrimmed(words: seq<string>)
    requires Tokens(words)
    ensures Trim(JoinWords(words)) == JoinWords(words)
  {
    if words != [] {
      JoinIsSolid(words);
    }
    SolidIsTrimmed(JoinWords(words));
  }

  // What a trimmed answer is, by its number of words.
  lemma TrimByWords(s: string)
    ensures |Fields(s)| == 0 ==> Trim(s) == []
    ensures |Fields(s)| == 1 ==> Trim(s) == Fields(s)[0]
    ensures |Fields(s)| >= 2 ==> exists i :: 0 <= i < |Trim(s)| && IsSpace(Trim(s)[i])
  {
    var t := Trim(s);
    FieldsOfTrim(s);
    var before, after := TrimSplits(s);
    if t != [] {
      WordEnds(t);
      var w := Word(t);
      var word, rest := t[..w], t[w..];
      assert t == word + rest;
      FieldsStep(word, rest);
      if rest == [] {
        FieldsBlank([]);
      } else {
        assert IsSpace(t[w]);
        assert !IsSpace(t[|t| - 1]);
        LastWord(rest);
      }
    }
  }

  lemma LastWord(rest: string)
    requires rest != [] && !IsSpace(rest[|rest| - 1])
    ensures Fields(rest) != []
  {
    assert !AllSpace(rest);
    TrimLeftNonBlank(rest);
  }

  // Numbers ---------------------------------------------------------------------------

  // No number is written with white space inside.
  ghost predicate NumbersAreTokens(lib: Lib) {
    forall s, i :: 0 <= i < |s| && IsSpace(s[i]) ==> lib.parseFloat(s).None?
  }

  lemma ParseByWords(lib: Lib, a: string, b: string)
    requires NumbersAreTokens(lib) && Fields(a) == Fields(b)
    ensures lib.parseFloat(Trim(a)) == lib.parseFloat(Trim(b))
  {
    TrimByWords(a);
    TrimByWords(b);
  }

  // A numeric verdict depends on the words of an answer alone, not on its spacing.
  lemma SpacingIrrelevant(lib: Lib, entry: GuideEntry, a: string, b: string)
    requires NumbersAreTokens(lib) && Fields(a) == Fields(b)
    ensures NumericVerdict(lib, entry, a) == NumericVerdict(lib, entry, b)
  {
    FieldsOfTrim(a);
    FieldsOfTrim(b);
    TrimTwice(a);
    TrimTwice(b);
    ParseByWords(lib, a, b);
  }

  // The documented reading, on answers as they are written: a number alone earns
  // the value marks when the unit has marks of its own,
  lemma NumberAlone(lib: Lib, entry: GuideEntry, pad: string, n: string, tail: string)
    requires AllSpace(pad) && AllSpace(tail) && IsToken(n) && lib.parseFloat(n).Some?
    ensures NumericVerdict(lib, entry, pad + n + tail) == ValueVerdict(entry, lib.parseFloat(n).value, false)
  {
    var answer := pad + n + tail;
    TrimAround(pad, n, tail);
    TrimLeftBlank(pad);
    TrimRightBlank(tail);
    assert Trim(answer) == n;
    SolidIsTrimmed(n);
    FieldsStep(n, []);
    FieldsBlank([]);
    assert n + [] == n;
  }

  lemma PairWords(pad: string, n: string, gap: string, u: string, tail: string)
    requires AllSpace(pad) && AllSpace(gap) && gap != [] && AllSpace(tail) && IsToken(n) && IsToken(u)
    ensures Fields(Trim(pad + n + gap + u + tail)) == [n, u]
  {
    var answer := pad + n + gap + u + tail;
    FieldsOfTrim(answer);
    assert answer == pad + (n + (gap + (u + tail)));
    FieldsSkip(pad, n + (gap + (u + tail)));
    FieldsStep(n, gap + (u + tail));
    FieldsSkip(gap, u + tail);
    FieldsStep(u, tail);
    FieldsBlank(tail);
  }

  // and a number with a unit behind it earns them in full exactly when the unit
  // is the expected one but for case.
  lemma NumberAndUnit(lib: Lib, entry: GuideEntry, pad: string, n: string, gap: string, u: string, tail: string)
    requires AllSpace(pad) && AllSpace(gap) && gap != [] && AllSpace(tail) && IsToken(n) && IsToken(u)
    requires lib.parseFloat(n).Some? && lib.parseFloat(u).None? && entry.unit != []
    ensures NumericVerdict(lib, entry, pad + n + gap + u + tail)
         == ValueVerdict(entry, lib.parseFloat(n).value, EqualFold(lib, u, entry.unit))
  {
    PairWords(pad, n, gap, u, tail);
    assert [n, u][..1] == [n];
    SolidIsTrimmed(n);
  }

  // Normalized text ---------------------------------------------------------------------

  // Lower case is lower case, and blanks have no case.
  ghost predicate LowerSettles(lib: Lib) {
    && (forall c :: lib.lower(lib.lower(c)) == lib.lower(c))
    && (forall c :: IsSpace(c) ==> lib.lower(c) == c)
  }

  // A text that normalizing leaves alone, rune by rune
  ghost predicate Plain(lib: Lib, s: string) {
    forall i :: 0 <= i < |s| ==> lib.lower(s[i]) == s[i] && (lib.isWordChar(s[i]) || IsSpace(s[i]))
  }

  lemma {:induction false} RunesArePlain(lib: Lib, s: string)
    requires LowerSettles(lib)
    ensures Plain(lib, NormalRunes(lib, ToLower(lib, s)))
  {
    if s != [] {
      assert ToLower(lib, s)[1..] == ToLower(lib, s[1..]);
      RunesArePlain(lib, s[1..]);
      assert IsSpace(' ');
    }
  }

  lemma {:induction false} PlainStays(lib: Lib, s: string)
    requires Plain(lib, s)
    ensures ToLower(lib, s) == s && NormalRunes(lib, s) == s
  {
    if s != [] {
      PlainStays(lib, s[1..]);
      assert s == [s[0]] + s[1..];
    }
  }

  lemma {:induction false} WordsArePlain(lib: Lib, s: string)
    requires Plain(lib, s)
    ensures forall k :: 0 <= k < |Fields(s)| ==> Plain(lib, Fields(s)[k])
    decreases |s|
  {
    var t := TrimLeft(s);
    TrimLeftSuffix(s);
    if t != [] {
      WordsArePlain(lib, t[Word(t)..]);
    }
  }

  lemma {:induction false} JoinIsPlain(lib: Lib, words: seq<string>)
    requires LowerSettles(lib) && forall k :: 0 <= k < |words| ==> Plain(lib, words[k])
    ensures Plain(lib, JoinWords(words))
  {
    if |words| > 1 {
      JoinIsPlain(lib, words[1..]);
      assert IsSpace(' ');
    }
  }

  lemma NormalForm(lib: Lib, s: string)
    requires LowerSettles(lib)
    ensures Plain(lib, NormalizeText(lib, s))
    ensures Tokens(Fields(NormalizeText(lib, s))) && NormalizeText(lib, s) == JoinWords(Fields(NormalizeText(lib, s)))
    ensures Fields(NormalizeText(lib, s)) == Fields(NormalRunes(lib, ToLower(lib, s)))
  {
    var runes := NormalRunes(lib, ToLower(lib, s));
    var words := Fields(runes);
    RunesArePlain(lib, s);
    WordsArePlain(lib, runes);
    JoinIsPlain(lib, words);
    FieldsAreTokens(runes);
    JoinedWords(words);
    JoinIsTrimmed(words);
  }

  // Normalizing is done once and for all: a normalized text is its own normal form.
  lemma NormalizeIdempotent(lib: Lib, s: string)
    requires LowerSettles(lib)
    ensures NormalizeText(lib, NormalizeText(lib, s)) == NormalizeText(lib, s)
  {
    var n := NormalizeText(lib, s);
    NormalForm(lib, s);
    PlainStays(lib, n);
    JoinIsTrimmed(Fields(n));
  }

  lemma {:induction false} RunesAppend(lib: Lib, a: string, b: string)
    ensures NormalRunes(lib, a + b) == NormalRunes(lib, a) + NormalRunes(lib, b)
  {
    if a == [] {
      assert a + b == b;
    } else {
      assert (a + b)[1..] == a[1..] + b;
      RunesAppend(lib, a[1..], b);
    }
  }

  // Lower-case words of letters and digits are only respaced.
  lemma PlainIsRespaced(lib: Lib, s: string)
    requires Plain(lib, s)
    ensures NormalizeText(lib, s) == JoinWords(Fields(s))
  {
    PlainStays(lib, s);
    FieldsAreTokens(s);
    JoinIsTrimmed(Fields(s));
  }

  predicate IsApostrophe(c: char) {
    c == '\'' || c == '\U{2018}' || c == '\U{2019}'
  }

  // Anything else, anywhere in a text: upper case counts as lower case, an
  // apostrophe as nothing, and other punctuation as a blank.
  lemma NormalizeOverlooks(lib: Lib, a: string, c: char, b: string)
    requires LowerSettles(lib) && lib.lower(c) == c
    ensures forall u :: lib.lower(u) == c ==> NormalizeText(lib, a + [u] + b) == NormalizeText(lib, a + [c] + b)
    ensures !lib.isWordChar(c) && IsApostrophe(c) ==> NormalizeText(lib, a + [c] + b) == NormalizeText(lib, a + b)
    ensures !lib.isWordChar(c) && !IsSpace(c) && !IsApostrophe(c) ==>
              NormalizeText(lib, a + [c] + b) == NormalizeText(lib, a + [' '] + b)
  {
    forall u | lib.lower(u) == c
      ensures NormalizeText(lib, a + [u] + b) == NormalizeText(lib, a + [c] + b)
    {
      RunesAlike(lib, a, u, c, b);
    }
    RunesAlike(lib, a, c, ' ', b);
    RunesBetween(lib, a, c, b);
  }

  // Characters that normalize alike may stand for each other.
  lemma RunesAlike(lib: Lib, a: string, c: char, d: char, b: string)
    ensures NormalRune(lib, lib.lower(c)) == NormalRune(lib, lib.lower(d)) ==>
              NormalizeText(lib, a + [c] + b) == NormalizeText(lib, a + [d] + b)
  {
    RunesAround(lib, a, c, b);
    RunesAround(lib, a, d, b);
  }

  lemma RunesBetween(lib: Lib, a: string, c: char, b: string)
    ensures NormalRune(lib, lib.lower(c)) == [] ==> NormalizeText(lib, a + [c] + b) == NormalizeText(lib, a + b)
  {
    RunesAround(lib, a, c, b);
    assert ToLower(lib, a + b) == ToLower(lib, a) + ToLower(lib, b);
    RunesAppend(lib, ToLower(lib, a), ToLower(lib, b));
    assert NormalRunes(lib, ToLower(lib, a)) + [] == NormalRunes(lib, ToLower(lib, a));
  }

  lemma RunesAround(lib: Lib, a: string, c: char, b: string)
    ensures NormalRunes(lib, ToLower(lib, a + [c] + b)) ==
            NormalRunes(lib, ToLower(lib, a)) + NormalRune(lib, lib.lower(c)) + NormalRunes(lib, ToLower(lib, b))
  {
    var l := [lib.lower(c)];
    assert ToLower(lib, a + [c] + b) == ToLower(lib, a) + l + ToLower(lib, b);
    RunesAppend(lib, ToLower(lib, a) + l, ToLower(lib, b));
    RunesAppend(lib, ToLower(lib, a), l);
    assert l[1..] == [] && NormalRunes(lib, l) == NormalRune(lib, lib.lower(c)) + [];
  }

  lemma {:induction false} BlankRunes(lib: Lib, pad: string)
    requires LowerSettles(lib) && AllSpace(pad)
    ensures AllSpace(NormalRunes(lib, ToLower(lib, pad)))
  {
    if pad != [] {
      assert ToLower(lib, pad)[1..] == ToLower(lib, pad[1..]);
      BlankRunes(lib, pad[1..]);
    }
  }

  lemma NormalizeIgnoresPadding(lib: Lib, s: string)
    requires LowerSettles(lib)
    ensures NormalizeText(lib, Trim(s)) == NormalizeText(lib, s)
  {
    var before, after := TrimSplits(s);
    var t := Trim(s);
    assert ToLower(lib, s) == ToLower(lib, before) + (ToLower(lib, t) + ToLower(lib, after));
    var x, z := NormalRunes(lib, ToLower(lib, before)), NormalRunes(lib, ToLower(lib, after));
    var y := NormalRunes(lib, ToLower(lib, t));
    RunesAppend(lib, ToLower(lib, before), ToLower(lib, t) + ToLower(lib, after));
    RunesAppend(lib, ToLower(lib, t), ToLower(lib, after));
    BlankRunes(lib, before);
    BlankRunes(lib, after);
    FieldsSkip(x, y + z);
    FieldsDropEnd(y, z);
  }

  // Characters that fold together have one lower case. Of Unicode's letters, the
  // long s and a few Greek variants do not keep this.
  ghost predicate FoldsToLower(lib: Lib, a: string, b: string) {
    forall c, d :: c in a && d in b && lib.fold(c) == lib.fold(d) ==> lib.lower(c) == lib.lower(d)
  }

  lemma FoldedNormalizeAlike(lib: Lib, a: string, b: string)
    requires EqualFold(lib, a, b) && FoldsToLower(lib, a, b)
    ensures NormalizeText(lib, a) == NormalizeText(lib, b)
  {
    assert ToLower(lib, a) == ToLower(lib, b);
  }

  // Switching normalize on never loses a match.
  lemma NormalizingNeverLoses(lib: Lib, entry: GuideEntry, answer: string)
    requires LowerSettles(lib) && (entry.matchType.Exact? || entry.matchType.ExactCi? || entry.matchType.SetOf?)
    requires forall value :: value == entry.answer || value in entry.accept ==> FoldsToLower(lib, answer, Trim(value))
    requires Objective(lib, entry.matchType, entry.answer, entry.accept, answer)
    ensures NormalizedMatch(lib, entry, answer)
  {
    match entry.matchType
    case SetOf =>
      var k :| 0 <= k < |entry.accept| && AcceptsFold(lib, Trim(entry.accept[k]), answer);
      assert entry.accept[k] in entry.accept;
      FoldedNormalizeAlike(lib, answer, Trim(entry.accept[k]));
      NormalizeIgnoresPadding(lib, entry.accept[k]);
    case ExactCi =>
      FoldedNormalizeAlike(lib, answer, Trim(entry.answer));
      NormalizeIgnoresPadding(lib, entry.answer);
    case Exact =>
      NormalizeIgnoresPadding(lib, entry.answer);
  }

  // Partial answers -----------------------------------------------------------------------

  lemma ContainsMore(s: string, part: string, before: string, after: string)
    requires Contains(s, part)
    ensures Contains(before + s + after, part)
  {
    var i :| 0 <= i <= |s| && part <= s[i..];
    assert (before + s + after)[|before| + i..] == s[i..] + after;
  }

  lemma HitStays(lib: Lib, c: Criterion, answer: string, before: string, after: string)
    requires CriterionHit(lib, c, answer)
    ensures CriterionHit(lib, c, before + answer + after)
  {
    var k :| 0 <= k < |c.accept| && Contains(ToLower(lib, answer), ToLower(lib, c.accept[k]));
    assert ToLower(lib, before + answer + after) == ToLower(lib, before) + ToLower(lib, answer) + ToLower(lib, after);
    ContainsMore(ToLower(lib, answer), ToLower(lib, c.accept[k]), ToLower(lib, before), ToLower(lib, after));
  }

  lemma {:induction false} CriteriaGrow(lib: Lib, cs: seq<Criterion>, answer: string, before: string, after: string)
    requires forall k :: 0 <= k < |cs| ==> cs[k].marks >= 0.0
    ensures 0.0 <= CriteriaTotal(lib, cs, answer).1 <= CriteriaTotal(lib, cs, before + answer + after).1
  {
    if cs != [] {
      CriteriaGrow(lib, cs[..|cs| - 1], answer, before, after);
      if CriterionHit(lib, cs[|cs| - 1], answer) {
        HitStays(lib, cs[|cs| - 1], answer, before, after);
      }
    }
  }

  // Text around a partial answer never costs marks, when no criterion has
  // negative marks.
  lemma MoreTextNeverLower(lib: Lib, entry: GuideEntry, answer: string, before: string, after: string)
    requires forall k :: 0 <= k < |entry.criteria| ==> entry.criteria[k].marks >= 0.0
    ensures PartialVerdict(lib, entry, answer).awarded <= PartialVerdict(lib, entry, before + answer + after).awarded
  {
    CriteriaGrow(lib, entry.criteria, answer, before, after);
  }
}
