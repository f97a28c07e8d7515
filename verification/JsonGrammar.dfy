/** The JSON grammar of RFC 8259 (sections 2 to 7) as derivation trees.
    A tree is a derivation, `Text` the characters it derives. */
module JsonGrammar {

  datatype Glyph =
    | Plain(c: char)
    | Escape(letter: char)
    | Unicode(digits: string)

  datatype Exponent =
    | NoExponent
    | Exponent(mark: char, sign: string, digits: string)

  datatype Json =
    | Literal(word: string)
    | Number(minus: bool, whole: string, fraction: string, exponent: Exponent)
    | Str(glyphs: seq<Glyph>)
    | Container(kind: Kind, body: Body)

  datatype Kind = ObjectKind | ArrayKind

  // The inside of a container. The items of an object carry a key.
  datatype Body =
    | Blank(ws: string)
    | Items(item: Item, rest: Tail)

  datatype Tail =
    | End
    | More(item: Item, rest: Tail)

  datatype Item =
    | Element(before: string, value: Json, after: string)
    | Member(before: string, key: seq<Glyph>, mid: string, pre: string, value: Json, after: string)

  // The derived text ------------------------------------------------------

  function Opening(k: Kind): char { if k.ObjectKind? then '{' else '[' }

  function Closing(k: Kind): char { if k.ObjectKind? then '}' else ']' }

  function GlyphText(g: Glyph): string {
    match g
    case Plain(c) => [c]
    case Escape(letter) => ['\\', letter]
    case Unicode(digits) => ['\\', 'u'] + digits
  }

  function GlyphsText(gs: seq<Glyph>): string {
    if gs == [] then [] else GlyphText(gs[0]) + GlyphsText(gs[1..])
  }

  function Quoted(gs: seq<Glyph>): string {
    ['"'] + (GlyphsText(gs) + ['"'])
  }

  function ExponentText(e: Exponent): string {
    match e
    case NoExponent => []
    case Exponent(mark, sign, digits) => [mark] + sign + digits
  }

  function NumberText(minus: bool, whole: string, fraction: string, exponent: Exponent): string {
    (if minus then ['-'] else []) + whole +
    (if fraction == [] then [] else ['.'] + fraction) + ExponentText(exponent)
  }

  function Text(v: Json): string
    decreases v
  {
    match v
    case Literal(word) => word
    case Number(minus, whole, fraction, exponent) => NumberText(minus, whole, fraction, exponent)
    case Str(glyphs) => Quoted(glyphs)
    case Container(kind, body) => [Opening(kind)] + (BodyText(body) + [Closing(kind)])
  }

  function BodyText(b: Body): string
    decreases b
  {
    match b
    case Blank(ws) => ws
    case Items(item, rest) => ItemText(item) + TailText(rest)
  }

  function TailText(t: Tail): string
    decreases t
  {
    match t
    case End => []
    case More(item, rest) => [','] + (ItemText(item) + TailText(rest))
  }

  function ItemText(i: Item): string
    decreases i
  {
    match i
    case Element(before, value, after) => before + (Text(value) + after)
    case Member(before, key, mid, pre, value, after) =>
      before + (Quoted(key) + (mid + ([':'] + (pre + (Text(value) + after)))))
  }

  // The side conditions of the grammar ------------------------------------

  predicate IsWs(c: char) { c == ' ' || c == '\t' || c == '\n' || c == '\r' }

  predicate Ws(s: string) { forall i :: 0 <= i < |s| ==> IsWs(s[i]) }

  predicate IsDigit(c: char) { '0' <= c <= '9' }

  predicate Digits(s: string) { s != [] && forall i :: 0 <= i < |s| ==> IsDigit(s[i]) }

  predicate IsHex(c: char) { IsDigit(c) || 'a' <= c <= 'f' || 'A' <= c <= 'F' }

  predicate GlyphOk(g: Glyph) {
    match g
    case Plain(c) => c != '"' && c != '\\' && c >= ' '
    case Escape(letter) =>
      || letter == '"' || letter == '\\' || letter == '/' || letter == 'b'
      || letter == 'f' || letter == 'n' || letter == 'r' || letter == 't'
    case Unicode(digits) => |digits| == 4 && forall i :: 0 <= i < |digits| ==> IsHex(digits[i])
  }

  predicate GlyphsOk(gs: seq<Glyph>) { forall i :: 0 <= i < |gs| ==> GlyphOk(gs[i]) }

  predicate ExponentOk(e: Exponent) {
    match e
    case NoExponent => true
    case Exponent(mark, sign, digits) =>
      (mark == 'e' || mark == 'E') && (sign == [] || sign == ['+'] || sign == ['-']) && Digits(digits)
  }

  predicate Ok(v: Json)
    decreases v
  {
    match v
    case Literal(word) => word == "true" || word == "false" || word == "null"
    case Number(minus, whole, fraction, exponent) =>
      && Digits(whole) && (|whole| > 1 ==> whole[0] != '0')
      && (fraction == [] || Digits(fraction)) && ExponentOk(exponent)
    case Str(glyphs) => GlyphsOk(glyphs)
    case Container(kind, body) => BodyOk(kind, body)
  }

  predicate BodyOk(k: Kind, b: Body)
    decreases b
  {
    match b
    case Blank(ws) => Ws(ws)
    case Items(item, rest) => ItemOk(k, item) && TailOk(k, rest)
  }

  predicate TailOk(k: Kind, t: Tail)
    decreases t
  {
    match t
    case End => true
    case More(item, rest) => ItemOk(k, item) && TailOk(k, rest)
  }

  predicate ItemOk(k: Kind, i: Item)
    decreases i
  {
    match i
    case Element(before, value, after) => k.ArrayKind? && Ws(before) && Ok(value) && Ws(after)
    case Member(before, key, mid, pre, value, after) =>
      k.ObjectKind? && Ws(before) && GlyphsOk(key) && Ws(mid) && Ws(pre) && Ok(value) && Ws(after)
  }

  // s = w + Text(v) + w' is a derivation of JSON-text = ws value ws
  ghost predicate Derives(s: string, w: string, v: Json, w': string) {
    Ws(w) && Ok(v) && Ws(w') && s == w + Text(v) + w'
  }

  // s is a JSON text: what encoding/json's Valid accepts
  ghost predicate IsJson(s: string) {
    exists w, v, w' :: Derives(s, w, v, w')
  }
}
