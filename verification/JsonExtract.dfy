/** extractJSON, in its two independently written forms: the pipeline's, which
    cuts a fenced reply at the first closing fence, and the provider's, which
    cuts it at the last.

    json.Valid is a parameter; what is required of it is that it accepts
    exactly the JSON texts of the grammar. */
module JsonExtract {
  import opened Wrappers
  import opened Text
  import G = JsonGrammar
  import opened JsonScan

  // strings.IndexByte
  function IndexOf(s: string, c: char): (at: int)
    ensures -1 <= at < |s|
    ensures at >= 0 ==> s[at] == c && forall j :: 0 <= j < at ==> s[j] != c
    ensures at == -1 ==> c !in s
  {
    if s == [] then -1
    else if s[0] == c then 0
    else var at := IndexOf(s[1..], c); if at == -1 then -1 else at + 1
  }

  // The earliest bracket, and the kind of container it opens.
  function FirstBracket(s: string): (r: Option<(nat, G.Kind)>)
    ensures r.Some? ==> r.value.0 < |s| && s[r.value.0] == G.Opening(r.value.1)
    ensures r.Some? ==> forall j :: 0 <= j < r.value.0 ==> s[j] != '{' && s[j] != '['
    ensures r.None? <==> '{' !in s && '[' !in s
  {
    var brace, bracket := IndexOf(s, '{'), IndexOf(s, '[');
    if brace < 0 && bracket < 0 then None
    else if brace < 0 then Some((bracket, G.ArrayKind))
    else if bracket < 0 then Some((brace, G.ObjectKind))
    else if bracket < brace then Some((bracket, G.ArrayKind))
    else Some((brace, G.ObjectKind))
  }

  // What both functions return for a reply whose fences are gone.
  ghost function FromStripped(t: string): Option<string> {
    if G.IsJson(t) then Some(t) else
      match FirstBracket(t)
      case None => None
      case Some((start, k)) =>
        match CloseAt(k, START, t[start..])
        case None => None
        case Some(n) =>
          if G.IsJson(t[start..start + n]) then Some(t[start..start + n]) else None
  }

  const FENCE := "```"

  function StripToFirstFence(s: string): string {
    var t := Trim(s);
    if FENCE <= t then Trim(CutAtFirstFence(Trim(CutTag(t[3..], "json")))) else t
  }

  function StripToLastFence(s: string): string {
    var t := Trim(s);
    if FENCE <= t then Trim(CutAtLastFence(Trim(CutTag(t[3..], "json")))) else t
  }

  ghost function PipelineExtract(s: string): Option<string> { FromStripped(StripToFirstFence(s)) }

  ghost function ProviderExtract(s: string): Option<string> { FromStripped(StripToLastFence(s)) }

  ghost predicate AcceptsJson(valid: string -> bool) {
    forall s :: valid(s) <==> G.IsJson(s)
  }

  // The loop of both functions, with its three variables.
  method FindClose(k: G.Kind, stripped: string, start: nat) returns (n: Option<nat>)
    requires start <= |stripped|
    ensures n == CloseAt(k, START, stripped[start..])
  {
    var open, closeCh := G.Opening(k), G.Closing(k);
    var depth, inString, escaped := 0, false, false;
    ghost var whole := CloseAt(k, START, stripped[start..]);
    for i := start to |stripped|
      invariant whole == match CloseAt(k, Lex(depth, inString, escaped), stripped[i..])
                         case None => None
                         case Some(n) => Some(i - start + n)
    {
      var c := stripped[i];
      assert stripped[i..][0] == c && stripped[i..][1..] == stripped[i + 1..];
      if inString {
        if escaped {
          escaped := false;
        } else if c == '\\' {
          escaped := true;
        } else if c == '"' {
          inString := false;
        }
      } else if c == '"' {
        inString := true;
      } else if c == open {
        depth := depth + 1;
      } else if c == closeCh {
        depth := depth - 1;
        if depth == 0 {
          return Some(i + 1 - start);
        }
      }
    }
    assert stripped[|stripped|..] == [];
    n := None;
  }

  method ScanStripped(valid: string -> bool, stripped: string) returns (r: Option<string>)
    requires AcceptsJson(valid)
    ensures r == FromStripped(stripped)
  {
    if valid(stripped) {
      return Some(stripped);
    }
    var first := FirstBracket(stripped);
    if first.None? {
      return None;
    }
    var (start, k) := first.value;
    var n := FindClose(k, stripped, start);
    if n.None? {
      return None;
    }
    var candidate := stripped[start..start + n.value];
    r := if valid(candidate) then Some(candidate) else None;
  }

  method ExtractInPipeline(valid: string -> bool, s: string) returns (r: Option<string>)
    requires AcceptsJson(valid)
    ensures r == PipelineExtract(s)
  {
    var stripped := Trim(s);
    if FENCE <= stripped {
      var remainder := Trim(CutTag(stripped[3..], "json"));
      var at := FenceFrom(remainder, 0);
      if at >= 0 {
        remainder := remainder[..at];
      }
      stripped := Trim(remainder);
    }
    r := ScanStripped(valid, stripped);
  }

  method ExtractInProvider(valid: string -> bool, s: string) returns (r: Option<string>)
    requires AcceptsJson(valid)
    ensures r == ProviderExtract(s)
  {
    var stripped := Trim(s);
    if FENCE <= stripped {
      stripped := Trim(CutTag(stripped[3..], "json"));
      var at := FenceBelow(stripped, |stripped|);
      if at >= 0 {
        stripped := stripped[..at];
      }
      stripped := Trim(stripped);
    }
    r := ScanStripped(valid, stripped);
  }

  // Containers are prefix-free --------------------------------------------

  // j is the text of an object or an array
  ghost predicate IsContainer(j: string, k: G.Kind) {
    exists v: G.Json :: ContainerTree(v, j, k)
  }

  ghost predicate ContainerTree(v: G.Json, j: string, k: G.Kind) {
    v.Container? && v.kind == k && G.Ok(v) && G.Text(v) == j
  }

  lemma ContainerIsSolid(j: string, k: G.Kind)
    requires IsContainer(j, k)
    ensures Solid(j) && j[0] == G.Opening(k) && j[|j| - 1] == G.Closing(k)
    ensures G.IsJson(j)
  {
    var v :| ContainerTree(v, j, k);
    assert j == [G.Opening(k)] + (G.BodyText(v.body) + [G.Closing(k)]);
    assert G.Derives(j, [], v, []) by { assert [] + j + [] == j; }
  }

  lemma ClosesAtItsEnd(j: string, k: G.Kind, rest: string)
    requires IsContainer(j, k)
    ensures CloseAt(k, START, j + rest) == Some(|j|)
  {
    var v :| ContainerTree(v, j, k);
    ContainerCloses(v, rest);
  }

  lemma BlankHead(w: string, t: string)
    requires G.Ws(w)
    ensures w != [] ==> G.IsWs((w + t)[0])
  {
  }

  lemma BlankEnd(w: string)
    requires G.Ws(w)
    ensures TrimRight(w) == w ==> w == []
  {
    TrimRightBlank(w);
  }

  // The value of a JSON text that does not begin with white space
  lemma LeadingValue(s: string) returns (u: G.Json, w: string)
    requires G.IsJson(s) && s != [] && !G.IsWs(s[0])
    ensures G.Ok(u) && G.Ws(w) && s == G.Text(u) + w
    ensures G.Text(u) != [] && G.Text(u)[0] == s[0]
  {
    var w0, u0, w1 :| G.Derives(s, w0, u0, w1);
    BlankHead(w0, G.Text(u0) + w1);
    assert s == w0 + (G.Text(u0) + w1);
    assert s == G.Text(u0) + w1;
    u, w := u0, w1;
  }

  // A JSON text that begins with a container is that container and white space.
  lemma ContainerPrefixFree(j: string, k: G.Kind, rest: string)
    requires IsContainer(j, k) && G.IsJson(j + rest)
    ensures G.Ws(rest)
  {
    ContainerIsSolid(j, k);
    var u, w := LeadingValue(j + rest);
    BracketMeansContainer(u, k);
    ContainerCloses(u, w);
    ClosesAtItsEnd(j, k, rest);
    assert w == (j + rest)[|j|..] == rest;
  }

  // The container behind bracket-free prose is the one the scan finds.
  lemma ScanFinds(prose: string, j: string, k: G.Kind, rest: string)
    requires IsContainer(j, k) && '{' !in prose && '[' !in prose
    ensures FirstBracket(prose + j + rest) == Some((|prose|, k))
    ensures CloseAt(k, START, (prose + j + rest)[|prose|..]) == Some(|j|)
    ensures (prose + j + rest)[|prose|..|prose| + |j|] == j
  {
    ContainerIsSolid(j, k);
    FirstAfter(prose, j + rest, k);
    assert prose + j + rest == prose + (j + rest);
    ClosesAtItsEnd(j, k, rest);
  }

  lemma FirstAfter(prose: string, t: string, k: G.Kind)
    requires '{' !in prose && '[' !in prose && t != [] && t[0] == G.Opening(k)
    ensures FirstBracket(prose + t) == Some((|prose|, k))
  {
    var s := prose + t;
    assert s[|prose|] == t[0] && s[|prose|] in s;
    assert forall i :: 0 <= i < |prose| ==> s[i] == prose[i] && s[i] in prose;
  }

  lemma FindsPastProse(prose: string, j: string, k: G.Kind, rest: string)
    requires IsContainer(j, k) && '{' !in prose && '[' !in prose
    requires !G.IsJson(prose + j + rest)
    ensures FromStripped(prose + j + rest) == Some(j)
  {
    ScanFinds(prose, j, k, rest);
    ContainerIsSolid(j, k);
  }

  lemma NothingBehind(j: string, k: G.Kind, rest: string)
    requires IsContainer(j, k) && G.IsJson(j + TrimRight(rest))
    ensures TrimRight(rest) == []
  {
    ContainerPrefixFree(j, k, TrimRight(rest));
    TrimRightTwice(rest);
    BlankEnd(TrimRight(rest));
  }

  // No prose in front: the container comes out, whatever follows it.
  lemma FindsLeading(j: string, k: G.Kind, rest: string)
    requires IsContainer(j, k)
    ensures FromStripped(j + TrimRight(rest)) == Some(j)
  {
    var tail := TrimRight(rest);
    if G.IsJson(j + tail) {
      NothingBehind(j, k, rest);
      assert j + tail == j;
    } else {
      assert [] + j + tail == j + tail;
      FindsPastProse([], j, k, tail);
    }
  }

  lemma BracketsOnlyInStrings(u: G.Json, i: nat)
    requires G.Ok(u) && i < |G.Text(u)| && (G.Text(u)[i] == '{' || G.Text(u)[i] == '[')
    requires G.Text(u)[0] != '{' && G.Text(u)[0] != '['
    ensures G.Text(u)[0] == '"'
  {
    match u
    case Literal(word) =>
    case Number(minus, whole, fraction, e) =>
    case Str(glyphs) =>
    case Container(kind, body) =>
  }

  // The only bracket-free prose that can make the whole reply valid JSON
  // around a container begins a string.
  lemma OnlyAQuoteHides(prose: string, j: string, k: G.Kind, rest: string)
    requires IsContainer(j, k) && G.IsJson(prose + j + rest)
    requires '{' !in prose && '[' !in prose
    requires prose != [] && !IsSpace(prose[0])
    ensures prose[0] == '"'
  {
    ContainerIsSolid(j, k);
    assert (prose + j + rest)[0] == prose[0] && prose[0] in prose;
    var u, w := LeadingValue(prose + j + rest);
    Overlap(prose, j, rest, G.Text(u), w);
    BracketsOnlyInStrings(u, |prose|);
  }

  // Trailing white space cannot reach back to a character that is not blank.
  lemma Overlap(prose: string, j: string, rest: string, x: string, w: string)
    requires j != [] && !G.IsWs(j[0]) && G.Ws(w) && x + w == prose + j + rest
    ensures |prose| < |x| && x[|prose|] == j[0]
  {
    var i := |prose|;
    assert (prose + j + rest)[i] == j[0];
    assert forall m :: |x| <= m < |x + w| ==> (x + w)[m] == w[m - |x|];
  }

  lemma FindsAtMost(t: string, j: string)
    requires FromStripped(t) == Some(j)
    ensures G.IsJson(t) ==> t == j
  {
  }

  // The scan of a trimmed reply returns the container, unless the reply is
  // itself another JSON text.
  lemma TrimmedReply(front: string, j: string, k: G.Kind, rest: string)
    requires IsContainer(j, k) && '{' !in front && '[' !in front
    requires front == [] || !IsSpace(front[0])
    ensures var t := front + j + TrimRight(rest);
            && (FromStripped(t) == Some(j) <==> (G.IsJson(t) ==> t == j))
            && (G.IsJson(t) && t != j ==> front != [] && front[0] == '"')
  {
    var tail := TrimRight(rest);
    if front == [] {
      FindsLeading(j, k, rest);
      FindsAtMost(j + tail, j);
      assert front + j == j;
    } else if G.IsJson(front + j + tail) {
      OnlyAQuoteHides(front, j, k, tail);
    } else {
      FindsPastProse(front, j, k, tail);
    }
  }

  lemma FenceFirst(t: string)
    ensures FENCE <= t ==> FenceAt(t, 0)
  {
  }

  lemma NoFenceInFront(front: string, j: string, k: G.Kind, tail: string)
    requires IsContainer(j, k) && !HasFence(front)
    ensures !(FENCE <= front + j + tail)
  {
    ContainerIsSolid(j, k);
    var t := front + j + tail;
    assert !FenceAt(front, 0);
    assert t[|front|] == j[0] && j[0] != '`';
    assert forall i :: 0 <= i < |front| ==> t[i] == front[i];
    FenceFirst(t);
  }

  lemma ProseTrims(prose: string)
    requires '{' !in prose && '[' !in prose && !HasFence(prose)
    ensures var front := TrimLeft(prose);
            && '{' !in front && '[' !in front && !HasFence(front)
            && (front == [] || !IsSpace(front[0]))
  {
    TrimLeftSuffix(prose);
    var front := TrimLeft(prose);
    assert forall c :: c in front ==> c in prose;
    forall i ensures FenceAt(front, i) ==> FenceAt(prose, |prose| - |front| + i) {
    }
  }

  // Round trip: a container set in prose without brackets or fences comes out
  // of both extractors unless the whole reply is itself another JSON text,
  // and that takes prose that begins with a quotation mark.
  lemma ExtractionRoundTrip(prose: string, j: string, k: G.Kind, rest: string)
    requires IsContainer(j, k)
    requires '{' !in prose && '[' !in prose && !HasFence(prose)
    ensures var reply := prose + j + rest;
            && PipelineExtract(reply) == ProviderExtract(reply)
            && (PipelineExtract(reply) == Some(j) <==> (G.IsJson(Trim(reply)) ==> Trim(reply) == j))
            && (G.IsJson(Trim(reply)) && Trim(reply) != j ==> TrimLeft(prose) != [] && TrimLeft(prose)[0] == '"')
  {
    ContainerIsSolid(j, k);
    TrimAround(prose, j, rest);
    ProseTrims(prose);
    NoFenceInFront(TrimLeft(prose), j, k, TrimRight(rest));
    TrimmedReply(TrimLeft(prose), j, k, rest);
  }

  // What comes out ----------------------------------------------------------

  // j stands in t where the earliest bracket is, and is a container.
  ghost predicate EarliestContainer(t: string, start: nat, k: G.Kind, j: string) {
    && start + |j| <= |t| && t[start..start + |j|] == j && IsContainer(j, k)
    && '{' !in t[..start] && '[' !in t[..start]
  }

  // The text itself when it is JSON, else the container its earliest bracket opens
  ghost predicate Picks(t: string, j: string) {
    if G.IsJson(t) then j == t else exists start: nat, k :: EarliestContainer(t, start, k, j)
  }

  lemma BlankTail(a: string, w: string)
    requires G.Ws(w)
    ensures w != [] ==> G.IsWs((a + w)[|a + w| - 1])
  {
  }

  // A JSON text from an opening to a closing bracket is a container.
  lemma BracketedIsContainer(j: string, k: G.Kind)
    requires G.IsJson(j) && j != [] && j[0] == G.Opening(k) && j[|j| - 1] == G.Closing(k)
    ensures IsContainer(j, k)
  {
    var u, w := LeadingValue(j);
    BracketMeansContainer(u, k);
    BlankTail(G.Text(u), w);
    assert ContainerTree(u, j, k);
  }

  lemma Piece(t: string, start: nat, n: nat)
    requires n > 0 && start + n <= |t|
    ensures t[start..start + n][0] == t[start] && t[start..start + n][n - 1] == t[start..][n - 1]
  {
  }

  lemma FoundAt(t: string, start: nat, k: G.Kind, n: nat)
    requires n > 0 && start + n <= |t| && t[start] == G.Opening(k) && t[start..][n - 1] == G.Closing(k)
    requires forall i :: 0 <= i < start ==> t[i] != '{' && t[i] != '['
    requires G.IsJson(t[start..start + n])
    ensures EarliestContainer(t, start, k, t[start..start + n])
  {
    Piece(t, start, n);
    BracketedIsContainer(t[start..start + n], k);
    assert forall c :: c in t[..start] ==> c != '{' && c != '[';
  }

  // How a result came about when the text was not JSON
  lemma HowFound(t: string, j: string) returns (start: nat, k: G.Kind, n: nat)
    requires !G.IsJson(t) && FromStripped(t) == Some(j)
    ensures start < |t| && FirstBracket(t) == Some((start, k)) && CloseAt(k, START, t[start..]) == Some(n)
    ensures start + n <= |t| && j == t[start..start + n] && G.IsJson(j)
  {
    start, k := FirstBracket(t).value.0, FirstBracket(t).value.1;
    n := CloseAt(k, START, t[start..]).value;
  }

  lemma FoundIsPicked(t: string, j: string)
    requires !G.IsJson(t) && FromStripped(t) == Some(j)
    ensures exists start: nat, k :: EarliestContainer(t, start, k, j)
  {
    var start, k, n := HowFound(t, j);
    EndsOnBracket(k, START, t[start..]);
    FoundAt(t, start, k, n);
  }

  lemma PickedIsFound(t: string, start: nat, k: G.Kind, j: string)
    requires !G.IsJson(t) && EarliestContainer(t, start, k, j)
    ensures FromStripped(t) == Some(j)
  {
    var prose, rest := t[..start], t[start + |j|..];
    assert t == prose + j + rest;
    FindsPastProse(prose, j, k, rest);
  }

  // Exactly what is returned, for every text: nothing else comes out, and
  // nothing comes out where there is no such container.
  lemma ReturnsExactly(t: string, j: string)
    ensures FromStripped(t) == Some(j) <==> Picks(t, j)
  {
    if !G.IsJson(t) {
      if FromStripped(t) == Some(j) {
        FoundIsPicked(t, j);
      }
      if exists start: nat, k :: EarliestContainer(t, start, k, j) {
        var start: nat, k :| EarliestContainer(t, start, k, j);
        PickedIsFound(t, start, k, j);
      }
    }
  }

  // front is t up to a fence that is its first, or its last, or all of t when it
  // has none.
  ghost predicate UpToFence(t: string, front: string, first: bool) {
    if !HasFence(t) then front == t
    else
      && front + FENCE <= t
      && forall i :: FenceAt(t, i) ==> if first then |front| <= i else i <= |front|
  }

  lemma CutsUpToFence(t: string)
    ensures UpToFence(t, CutAtFirstFence(t), true) && UpToFence(t, CutAtLastFence(t), false)
  {
    var first, last := FenceFrom(t, 0), FenceBelow(t, |t|);
    if HasFence(t) {
      assert t[..first] + FENCE == t[..first + 3] && t[..last] + FENCE == t[..last + 3];
    }
  }

  // What both extractors look at: the trimmed reply, and where that opens with a
  // fence what stands behind it and its tag json, up to the first or last fence.
  lemma StripsFences(s: string) returns (inner: string, first: string, last: string)
    ensures !(FENCE <= Trim(s)) ==> StripToFirstFence(s) == StripToLastFence(s) == Trim(s)
    ensures FENCE <= Trim(s) ==>
              && (Trim(s) == FENCE + "json" + inner || (Trim(s) == FENCE + inner && !("json" <= inner)))
              && UpToFence(Trim(inner), first, true) && StripToFirstFence(s) == Trim(first)
              && UpToFence(Trim(inner), last, false) && StripToLastFence(s) == Trim(last)
  {
    inner, first, last := [], [], [];
    var t := Trim(s);
    if FENCE <= t {
      inner := CutTag(t[3..], "json");
      first, last := CutAtFirstFence(Trim(inner)), CutAtLastFence(Trim(inner));
      CutsUpToFence(Trim(inner));
      assert t == FENCE + t[3..];
      assert "json" <= t[3..] ==> t[3..] == "json" + inner;
    }
  }

  // So both extractors return valid JSON or nothing, for every reply, and
  // nothing exactly when the stripped reply holds nothing to pick.
  lemma ExtractsOnlyJson(s: string)
    ensures PipelineExtract(s).Some? ==> G.IsJson(PipelineExtract(s).value)
    ensures ProviderExtract(s).Some? ==> G.IsJson(ProviderExtract(s).value)
    ensures PipelineExtract(s).None? <==> forall j :: !Picks(StripToFirstFence(s), j)
    ensures ProviderExtract(s).None? <==> forall j :: !Picks(StripToLastFence(s), j)
  {
    PickedIsJson(StripToFirstFence(s));
    PickedIsJson(StripToLastFence(s));
  }

  lemma PickedIsJson(t: string)
    ensures FromStripped(t).Some? ==> G.IsJson(FromStripped(t).value)
    ensures FromStripped(t).None? <==> forall j :: !Picks(t, j)
  {
    forall j ensures FromStripped(t) == Some(j) <==> Picks(t, j) {
      ReturnsExactly(t, j);
    }
    if FromStripped(t).Some? {
      var j := FromStripped(t).value;
      if !G.IsJson(t) {
        var start: nat, k :| EarliestContainer(t, start, k, j);
        ContainerIsSolid(j, k);
      }
    }
  }

  // After its brace an object goes on with white space, a key or its end.
  lemma ObjectBegins(j: string)
    requires IsContainer(j, G.ObjectKind)
    ensures |j| > 1 && (G.IsWs(j[1]) || j[1] == '"' || j[1] == '}')
  {
    var v :| ContainerTree(v, j, G.ObjectKind);
    var b := G.BodyText(v.body);
    assert j == ['{'] + (b + ['}']);
    match v.body
    case Blank(ws) =>
    case Items(item, rest) =>
      assert G.BodyOk(G.ObjectKind, v.body) && G.ItemOk(G.ObjectKind, item);
      assert item.Member? && G.Quoted(item.key)[0] == '"';
      var behind := item.mid + ([':'] + (item.pre + (G.Text(item.value) + item.after)));
      assert G.ItemText(item) == item.before + (G.Quoted(item.key) + behind);
      assert b == G.ItemText(item) + G.TailText(rest);
  }

  lemma BrokenObjectGivesNothing()
    ensures PipelineExtract("{x}") == None && ProviderExtract("{x}") == None
  {
    var t := "{x}";
    SolidIsTrimmed(t);
    assert !(FENCE <= t) by { assert t[0] != FENCE[0]; }
    NoObject(t, t);
    if FromStripped(t).Some? {
      ReturnsExactly(t, FromStripped(t).value);
      NoObject(t, FromStripped(t).value);
    }
  }

  lemma NoObject(t: string, j: string)
    requires t == "{x}"
    ensures !G.IsJson(t) && forall start: nat, k :: !EarliestContainer(t, start, k, j)
  {
    forall n: nat | 0 < n <= |t| ensures t[0] in t[..n] {
      FirstInFront(t, n);
    }
    if G.IsJson(t) {
      BracketedIsContainer(t, G.ObjectKind);
      ObjectBegins(t);
    }
    forall start: nat, k ensures !EarliestContainer(t, start, k, j) {
      if EarliestContainer(t, start, k, j) {
        ContainerIsSolid(j, k);
        ObjectBegins(j);
      }
    }
  }

  lemma FirstInFront(t: string, n: nat)
    requires 0 < n <= |t|
    ensures t[0] in t[..n]
  {
    assert t[..n][0] == t[0];
  }

  // Fenced replies --------------------------------------------------------

  // lead ```[json] pad container rest
  function FencedReply(lead: string, tag: string, pad: string, j: string, rest: string): string {
    lead + (FENCE + tag + pad + j) + rest
  }

  ghost predicate FenceParts(lead: string, tag: string, pad: string) {
    AllSpace(lead) && AllSpace(pad) && (tag == "" || tag == "json")
  }

  lemma TrimRightTwice(s: string)
    ensures TrimRight(TrimRight(s)) == TrimRight(s)
  {
    TrimRightPrefix(s);
  }

  lemma TagGone(tag: string, u: string)
    requires (tag == "" || tag == "json") && u != [] && u[0] != 'j'
    ensures CutTag(tag + u, "json") == u
  {
    if tag == "" {
      assert tag + u == u;
    } else {
      assert (tag + u)[..4] == "json" && (tag + u)[4..] == u;
    }
  }

  // What both functions see once the opening fence and its tag are gone
  lemma OpeningGone(lead: string, tag: string, pad: string, j: string, rest: string)
    requires FenceParts(lead, tag, pad)
    requires Solid(j) && j[0] != 'j'
    ensures var t := Trim(FencedReply(lead, tag, pad, j, rest));
            FENCE <= t && Trim(CutTag(t[3..], "json")) == j + TrimRight(rest)
  {
    var tail := TrimRight(rest);
    OuterTrim(lead, tag, pad, j, rest);
    SplitFence(tag, pad, j, tail);
    TagGone(tag, pad + j + tail);
    InnerTrim(pad, j, rest);
  }

  lemma OuterTrim(lead: string, tag: string, pad: string, j: string, rest: string)
    requires AllSpace(lead) && Solid(j)
    ensures Trim(FencedReply(lead, tag, pad, j, rest)) == FENCE + tag + pad + j + TrimRight(rest)
  {
    var core := FENCE + tag + pad + j;
    assert core[0] == '`' && core[|core| - 1] == j[|j| - 1];
    TrimAround(lead, core, rest);
    TrimLeftBlank(lead);
    assert [] + core == core;
  }

  lemma InnerTrim(pad: string, j: string, rest: string)
    requires AllSpace(pad) && Solid(j)
    ensures Trim(pad + j + TrimRight(rest)) == j + TrimRight(rest)
  {
    TrimAround(pad, j, TrimRight(rest));
    TrimLeftBlank(pad);
    TrimRightTwice(rest);
    assert [] + j == j;
  }

  lemma SplitFence(tag: string, pad: string, j: string, tail: string)
    requires AllSpace(pad) && j != [] && j[0] != 'j'
    ensures var t := FENCE + tag + pad + j + tail;
            FENCE <= t && t[3..] == tag + (pad + j + tail)
    ensures pad + j + tail != [] && (pad + j + tail)[0] != 'j'
  {
    var t := FENCE + tag + pad + j + tail;
    assert t == FENCE + (tag + (pad + j + tail));
    assert (pad + j + tail)[0] == if pad == [] then j[0] else pad[0];
  }

  // No fence lies across the end of a container.
  lemma FenceSide(j: string, tail: string, i: int)
    requires j != [] && j[|j| - 1] != '`' && FenceAt(j + tail, i)
    ensures i < |j| ==> FenceAt(j, i)
    ensures i >= |j| ==> FenceAt(tail, i - |j|)
  {
    assert (j + tail)[|j| - 1] == j[|j| - 1];
  }

  lemma FenceIn(j: string, tail: string)
    ensures forall i :: FenceAt(j, i) ==> FenceAt(j + tail, i)
    ensures forall i :: FenceAt(tail, i) ==> FenceAt(j + tail, |j| + i)
  {
  }

  lemma FenceSurvivesTrim(s: string)
    ensures HasFence(TrimRight(s)) <==> HasFence(s)
  {
    TrimRightPrefix(s);
    var t := TrimRight(s);
    assert forall m :: |t| <= m < |s| ==> IsSpace(s[m]) by {
      assert forall m :: |t| <= m < |s| ==> s[m] == s[|t|..][m - |t|];
    }
    if HasFence(s) {
      var i :| FenceAt(s, i);
      assert FenceAt(t, i);
    }
    if HasFence(t) {
      var i :| FenceAt(t, i);
      assert FenceAt(s, i);
    }
  }

  // A result is never longer than the text it came from.
  lemma ResultFits(t: string)
    ensures FromStripped(t).Some? ==> |FromStripped(t).value| <= |t|
  {
  }

  // Cutting inside the container loses it, cutting behind it does not.
  lemma CutDecides(j: string, k: G.Kind, tail: string, at: int)
    requires IsContainer(j, k) && 0 <= at <= |j + tail|
    ensures FromStripped(Trim((j + tail)[..at])) == Some(j) <==> at >= |j|
  {
    var cut := (j + tail)[..at];
    if at >= |j| {
      var kept := tail[..at - |j|];
      assert cut == j + kept;
      FindsCut(j, k, kept);
    } else {
      TrimLeftSuffix(cut);
      TrimRightPrefix(TrimLeft(cut));
      ResultFits(Trim(cut));
    }
  }

  lemma FindsCut(j: string, k: G.Kind, kept: string)
    requires IsContainer(j, k)
    ensures FromStripped(Trim(j + kept)) == Some(j)
  {
    ContainerIsSolid(j, k);
    TrimAround([], j, kept);
    assert [] + j == j;
    FindsLeading(j, k, kept);
  }

  // The first-fence extractor returns a fenced container exactly when the
  // container holds no fence of its own.
  lemma FirstFenceExact(lead: string, tag: string, pad: string, j: string, k: G.Kind, rest: string)
    requires FenceParts(lead, tag, pad) && IsContainer(j, k)
    ensures PipelineExtract(FencedReply(lead, tag, pad, j, rest)) == Some(j) <==> !HasFence(j)
  {
    var tail := TrimRight(rest);
    ContainerIsSolid(j, k);
    OpeningGone(lead, tag, pad, j, rest);
    var all := j + tail;
    var at := FenceFrom(all, 0);
    FenceIn(j, tail);
    assert HasFence(j) ==> 0 <= at < |j|;
    if at >= 0 {
      FenceSide(j, tail, at);
    }
    var end := if at >= 0 then at else |all|;
    CutDecides(j, k, tail, end);
    assert all[..|all|] == all;
  }

  // The last-fence extractor also returns it when a later fence follows.
  lemma LastFenceExact(lead: string, tag: string, pad: string, j: string, k: G.Kind, rest: string)
    requires FenceParts(lead, tag, pad) && IsContainer(j, k)
    ensures ProviderExtract(FencedReply(lead, tag, pad, j, rest)) == Some(j)
            <==> (!HasFence(j) || HasFence(rest))
  {
    var tail := TrimRight(rest);
    ContainerIsSolid(j, k);
    OpeningGone(lead, tag, pad, j, rest);
    FenceSurvivesTrim(rest);
    var all := j + tail;
    var at := FenceBelow(all, |all|);
    FenceIn(j, tail);
    assert HasFence(j) ==> at >= 0;
    assert HasFence(tail) ==> at >= |j| by {
      if HasFence(tail) {
        var i :| FenceAt(tail, i);
        assert FenceAt(all, |j| + i);
      }
    }
    if at >= 0 {
      FenceSide(j, tail, at);
    }
    var end := if at >= 0 then at else |all|;
    CutDecides(j, k, tail, end);
    assert all[..|all|] == all;
  }

  // The array of the one string of three backticks
  const FENCE_ARRAY: string := "[\"```\"]"

  lemma FenceArrayIsContainer()
    ensures IsContainer(FENCE_ARRAY, G.ArrayKind) && FenceAt(FENCE_ARRAY, 2)
  {
    var tick := G.Plain('`');
    var ticks := [tick, tick, tick];
    var item := G.Element([], G.Str(ticks), []);
    var v := G.Container(G.ArrayKind, G.Items(item, G.End));
    assert ticks[1..] == [tick, tick] && [tick, tick][1..] == [tick] && [tick][1..] == [];
    assert G.GlyphsText([tick]) == ['`'] + G.GlyphsText([]);
    assert G.GlyphsText(ticks) == "```";
    assert G.ItemText(item) == [] + (G.Text(G.Str(ticks)) + []);
    assert G.BodyText(v.body) == G.ItemText(item) + G.TailText(G.End) && G.TailText(G.End) == [];
    assert G.BodyText(v.body) == "\"```\"";
    assert G.Ok(G.Str(ticks)) && G.ItemOk(G.ArrayKind, item) && G.TailOk(G.ArrayKind, G.End);
    assert G.BodyOk(G.ArrayKind, v.body);
    assert ContainerTree(v, FENCE_ARRAY, G.ArrayKind);
  }

  // In a fenced reply the first-fence extractor loses it, and so does the other
  // where the closing fence is missing.
  lemma FenceArrayIsLost()
    ensures var j, closed, cut := FENCE_ARRAY, FencedReply("", "json", "\n", FENCE_ARRAY, "\n```"),
                                  FencedReply("", "json", "\n", FENCE_ARRAY, "");
            && PipelineExtract(closed) != Some(j) && ProviderExtract(closed) == Some(j)
            && PipelineExtract(cut) != Some(j) && ProviderExtract(cut) != Some(j)
  {
    FenceArrayIsContainer();
    assert FenceAt("\n```", 1);
    FirstFenceExact("", "json", "\n", FENCE_ARRAY, G.ArrayKind, "\n```");
    LastFenceExact("", "json", "\n", FENCE_ARRAY, G.ArrayKind, "\n```");
    FirstFenceExact("", "json", "\n", FENCE_ARRAY, G.ArrayKind, "");
    LastFenceExact("", "json", "\n", FENCE_ARRAY, G.ArrayKind, "");
  }

  // The two extractors agree on every fenced container without an inner fence.
  lemma ExtractorsAgree(lead: string, tag: string, pad: string, j: string, k: G.Kind, rest: string)
    requires FenceParts(lead, tag, pad) && IsContainer(j, k) && !HasFence(j)
    ensures var reply := FencedReply(lead, tag, pad, j, rest);
            PipelineExtract(reply) == ProviderExtract(reply) == Some(j)
  {
    FirstFenceExact(lead, tag, pad, j, k, rest);
    LastFenceExact(lead, tag, pad, j, k, rest);
  }
}
