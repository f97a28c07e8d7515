/** The string-aware bracket scanner both extractJSON functions contain, and
    why it stops exactly at the end of a container.

    The scanner counts only the brackets of the container it started on; the
    other kind passes it by uncounted. */
module JsonScan {
  import opened Wrappers
  import opened JsonGrammar

  datatype Lex = Lex(depth: int, inString: bool, escaped: bool)

  const START := Lex(0, false, false)

  function Step(k: Kind, st: Lex, c: char): Lex {
    if st.inString then
      if st.escaped then st.(escaped := false)
      else if c == '\\' then st.(escaped := true)
      else if c == '"' then st.(inString := false)
      else st
    else if c == '"' then st.(inString := true)
    else if c == Opening(k) then st.(depth := st.depth + 1)
    else if c == Closing(k) then st.(depth := st.depth - 1)
    else st
  }

  // Reading c closes the container the scan started on.
  predicate Closes(k: Kind, st: Lex, c: char) {
    !st.inString && c == Closing(k) && st.depth == 1
  }

  // The number of characters up to and including the one that closes.
  function CloseAt(k: Kind, st: Lex, s: string): (n: Option<nat>)
    ensures n.Some? ==> 0 < n.value <= |s|
    decreases s
  {
    if s == [] then None
    else if Closes(k, st, s[0]) then Some(1)
    else
      match CloseAt(k, Step(k, st, s[0]), s[1..])
      case None => None
      case Some(n) => Some(n + 1)
  }

  lemma {:induction false} EndsOnBracket(k: Kind, st: Lex, s: string)
    ensures CloseAt(k, st, s).Some? ==> s[CloseAt(k, st, s).value - 1] == Closing(k)
    decreases s
  {
    if s != [] && !Closes(k, st, s[0]) {
      EndsOnBracket(k, Step(k, st, s[0]), s[1..]);
    }
  }

  // The state after all of s, None when something in s closes.
  ghost function Pass(k: Kind, st: Lex, s: string): Option<Lex>
    decreases s
  {
    if s == [] then Some(st)
    else if Closes(k, st, s[0]) then None
    else Pass(k, Step(k, st, s[0]), s[1..])
  }

  lemma {:induction false} PassThen(k: Kind, st: Lex, a: string, b: string)
    requires Pass(k, st, a).Some?
    ensures Pass(k, st, a + b) == Pass(k, Pass(k, st, a).value, b)
    ensures CloseAt(k, st, a + b) ==
            match CloseAt(k, Pass(k, st, a).value, b)
            case None => None
            case Some(n) => Some(|a| + n)
    decreases a
  {
    if a == [] {
      assert a + b == b;
    } else {
      assert (a + b)[1..] == a[1..] + b;
      PassThen(k, Step(k, st, a[0]), a[1..], b);
    }
  }

  ghost predicate Inert(c: char) {
    c != '"' && c != '{' && c != '}' && c != '[' && c != ']'
  }

  lemma {:induction false} InertPass(k: Kind, st: Lex, s: string)
    requires !st.inString && forall i :: 0 <= i < |s| ==> Inert(s[i])
    ensures Pass(k, st, s) == Some(st)
  {
    if s != [] {
      InertPass(k, st, s[1..]);
    }
  }

  // One character read outside strings, away from the outermost bracket
  lemma OnePass(k: Kind, st: Lex, c: char)
    requires !Closes(k, st, c)
    ensures Pass(k, st, [c]) == Some(Step(k, st, c))
  {
    assert [c][1..] == [];
  }

  // Strings ---------------------------------------------------------------

  lemma {:induction false} HexPass(k: Kind, st: Lex, s: string)
    requires st.inString && !st.escaped && forall i :: 0 <= i < |s| ==> IsHex(s[i])
    ensures Pass(k, st, s) == Some(st)
  {
    if s != [] {
      HexPass(k, st, s[1..]);
    }
  }

  lemma GlyphPass(k: Kind, st: Lex, g: Glyph)
    requires st.inString && !st.escaped && GlyphOk(g)
    ensures Pass(k, st, GlyphText(g)) == Some(st)
  {
    match g
    case Plain(c) => OnePass(k, st, c);
    case Escape(letter) =>
      OnePass(k, st, '\\');
      OnePass(k, st.(escaped := true), letter);
      PassThen(k, st, ['\\'], [letter]);
      assert ['\\'] + [letter] == ['\\', letter];
    case Unicode(digits) =>
      OnePass(k, st, '\\');
      OnePass(k, st.(escaped := true), 'u');
      PassThen(k, st, ['\\'], ['u']);
      assert ['\\'] + ['u'] == ['\\', 'u'];
      HexPass(k, st, digits);
      PassThen(k, st, ['\\', 'u'], digits);
  }

  lemma {:induction false} GlyphsPass(k: Kind, st: Lex, gs: seq<Glyph>)
    requires st.inString && !st.escaped && GlyphsOk(gs)
    ensures Pass(k, st, GlyphsText(gs)) == Some(st)
  {
    if gs != [] {
      GlyphPass(k, st, gs[0]);
      GlyphsPass(k, st, gs[1..]);
      PassThen(k, st, GlyphText(gs[0]), GlyphsText(gs[1..]));
    }
  }

  lemma QuotedPass(k: Kind, st: Lex, gs: seq<Glyph>)
    requires !st.inString && !st.escaped && GlyphsOk(gs)
    ensures Pass(k, st, Quoted(gs)) == Some(st)
  {
    var inside := st.(inString := true);
    OnePass(k, st, '"');
    GlyphsPass(k, inside, gs);
    OnePass(k, inside, '"');
    PassThen(k, inside, GlyphsText(gs), ['"']);
    PassThen(k, st, ['"'], GlyphsText(gs) + ['"']);
  }

  // Values ----------------------------------------------------------------

  // The state after the opening bracket of a nested container
  function Inside(k: Kind, st: Lex, kind: Kind): Lex {
    if kind == k then st.(depth := st.depth + 1) else st
  }

  lemma BracketsPass(k: Kind, st: Lex, kind: Kind, inner: string)
    requires st.depth >= 1 && !st.inString
    requires Pass(k, Inside(k, st, kind), inner) == Some(Inside(k, st, kind))
    ensures Pass(k, st, [Opening(kind)] + (inner + [Closing(kind)])) == Some(st)
  {
    OnePass(k, st, Opening(kind));
    OnePass(k, Inside(k, st, kind), Closing(kind));
    PassThen(k, Inside(k, st, kind), inner, [Closing(kind)]);
    PassThen(k, st, [Opening(kind)], inner + [Closing(kind)]);
  }

  // Inside a container, a value leaves the scanner as it found it and never
  // closes the container.
  lemma {:induction false} ValuePass(k: Kind, st: Lex, v: Json)
    requires st.depth >= 1 && !st.inString && !st.escaped && Ok(v)
    ensures Pass(k, st, Text(v)) == Some(st)
    decreases v
  {
    match v
    case Literal(word) => InertPass(k, st, word);
    case Number(minus, whole, fraction, e) =>
      InertPass(k, st, Text(v));
    case Str(glyphs) => QuotedPass(k, st, glyphs);
    case Container(kind, body) =>
      BodyPass(k, Inside(k, st, kind), kind, body);
      BracketsPass(k, st, kind, BodyText(body));
  }

  lemma {:induction false} BodyPass(k: Kind, st: Lex, kind: Kind, b: Body)
    requires st.depth >= 1 && !st.inString && !st.escaped && BodyOk(kind, b)
    ensures Pass(k, st, BodyText(b)) == Some(st)
    decreases b
  {
    match b
    case Blank(ws) => InertPass(k, st, ws);
    case Items(item, rest) =>
      ItemPass(k, st, kind, item);
      TailPass(k, st, kind, rest);
      PassThen(k, st, ItemText(item), TailText(rest));
  }

  lemma {:induction false} TailPass(k: Kind, st: Lex, kind: Kind, t: Tail)
    requires st.depth >= 1 && !st.inString && !st.escaped && TailOk(kind, t)
    ensures Pass(k, st, TailText(t)) == Some(st)
    decreases t
  {
    match t
    case End =>
    case More(item, rest) =>
      OnePass(k, st, ',');
      ItemPass(k, st, kind, item);
      TailPass(k, st, kind, rest);
      PassThen(k, st, ItemText(item), TailText(rest));
      PassThen(k, st, [','], ItemText(item) + TailText(rest));
  }

  lemma {:induction false} ItemPass(k: Kind, st: Lex, kind: Kind, i: Item)
    requires st.depth >= 1 && !st.inString && !st.escaped && ItemOk(kind, i)
    ensures Pass(k, st, ItemText(i)) == Some(st)
    decreases i
  {
    InertPass(k, st, i.before);
    ValuePass(k, st, i.value);
    InertPass(k, st, i.after);
    PassThen(k, st, Text(i.value), i.after);
    match i
    case Element(before, value, after) =>
      PassThen(k, st, before, Text(value) + after);
    case Member(before, key, mid, pre, value, after) =>
      QuotedPass(k, st, key);
      InertPass(k, st, mid);
      InertPass(k, st, pre);
      PassThen(k, st, pre, Text(value) + after);
      MemberPieces(k, st, before, Quoted(key), mid, pre + (Text(value) + after));
  }

  lemma MemberPieces(k: Kind, st: Lex, before: string, key: string, mid: string, rest: string)
    requires !st.inString
    requires Pass(k, st, before) == Pass(k, st, key) == Pass(k, st, mid) == Pass(k, st, rest) == Some(st)
    ensures Pass(k, st, before + (key + (mid + ([':'] + rest)))) == Some(st)
  {
    OnePass(k, st, ':');
    PassThen(k, st, [':'], rest);
    PassThen(k, st, mid, [':'] + rest);
    PassThen(k, st, key, mid + ([':'] + rest));
    PassThen(k, st, before, key + (mid + ([':'] + rest)));
  }

  // A scan that starts on a container stops exactly at that container's last
  // character, whatever follows.
  lemma ContainerCloses(v: Json, rest: string)
    requires v.Container? && Ok(v)
    ensures CloseAt(v.kind, START, Text(v) + rest) == Some(|Text(v)|)
  {
    var k := v.kind;
    var inside := Lex(1, false, false);
    OnePass(k, START, Opening(k));
    BodyPass(k, inside, k, v.body);
    var tail := [Closing(k)] + rest;
    assert CloseAt(k, inside, tail) == Some(1);
    PassThen(k, inside, BodyText(v.body), tail);
    PassThen(k, START, [Opening(k)], BodyText(v.body) + tail);
    assert Text(v) + rest == [Opening(k)] + (BodyText(v.body) + tail);
  }

  // Only a container derives a text that begins with a bracket.
  lemma BracketMeansContainer(v: Json, k: Kind)
    requires Ok(v) && Text(v) != [] && Text(v)[0] == Opening(k)
    ensures v.Container? && v.kind == k
  {
    match v
    case Literal(word) =>
    case Number(minus, whole, fraction, e) =>
    case Str(glyphs) =>
    case Container(kind, body) =>
  }
}
