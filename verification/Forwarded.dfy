/**
  Reading and reprinting the proxy chain of a request: the `Forwarded` header of
  RFC 7239 and the older `X-Forwarded-For` list.  How one address is read is a
  parameter, so every result holds for any address parser.
 */
module Forwarded {
  import opened Wrappers
  import opened Text

  datatype Addr = Addr(bits: nat, zone: string)

  type EntryParser = string -> Option<Addr>

  datatype ForwardedError = ChainMissing | DirectiveEmpty | BadEntry | ChainInvalid | Mismatch

  /** One `name=value` pair of a `Forwarded` element, reprinted, with the hop it names if it is a `for`. */
  datatype Fragment = Fragment(text: string, hop: Option<Addr>)

  /** An accepted chain: its hops in order and the text it is rewritten to. */
  datatype Chain = Chain(hops: seq<Addr>, text: string)

  // ---- Reading one value, one fragment, one element ----

  predicate NeedsQuotes(s: string) {
    ':' in s || '[' in s || ']' in s || ';' in s || ' ' in s
  }

  function Quote(s: string): string { "\"" + s + "\"" }

  predicate Quoted(s: string) { |s| >= 2 && s[0] == '"' && s[|s| - 1] == '"' }

  function Unquote(s: string): string { if Quoted(s) then s[1..|s| - 1] else s }

  /** The address an unquoted value names; obfuscated and unknown hops are refused. */
  function HopOf(parse: EntryParser, inner: string): Result<Addr, ForwardedError> {
    if inner == "" then Err(ChainMissing)
    else if "_" <= inner || ToLower(inner) == "unknown" then Err(DirectiveEmpty)
    else
      match parse(inner)
      case None => Err(BadEntry)
      case Some(addr) => Ok(addr)
  }

  function ForValue(parse: EntryParser, raw: string): Result<Fragment, ForwardedError> {
    var trimmed := Trim(raw);
    var inner := Unquote(trimmed);
    match HopOf(parse, inner)
    case Err(e) => Err(e)
    case Ok(addr) => Ok(Fragment(if Quoted(trimmed) || NeedsQuotes(inner) then Quote(inner) else inner, Some(addr)))
  }

  function ReadFragment(parse: EntryParser, fragment: string): Result<Fragment, ForwardedError> {
    match Cut(fragment, '=')
    case None => Ok(Fragment(fragment, None))
    case Some(kv) =>
      var key := ToLower(Trim(kv.0));
      var value := Trim(kv.1);
      if key != "for" then Ok(Fragment(key + "=" + value, None))
      else
        match ForValue(parse, value)
        case Err(e) => Err(e)
        case Ok(f) => Ok(Fragment("for=" + f.text, f.hop))
  }

  function ReadFragments(parse: EntryParser, params: seq<string>): Result<seq<Fragment>, ForwardedError> {
    if params == [] then Ok([])
    else if Trim(params[0]) == "" then ReadFragments(parse, params[1..])
    else
      match ReadFragment(parse, Trim(params[0]))
      case Err(e) => Err(e)
      case Ok(f) =>
        match ReadFragments(parse, params[1..])
        case Err(e) => Err(e)
        case Ok(fs) => Ok([f] + fs)
  }

  function Texts(fs: seq<Fragment>): seq<string> {
    if fs == [] then [] else [fs[0].text] + Texts(fs[1..])
  }

  function Hops(fs: seq<Fragment>): seq<Addr> {
    if fs == [] then []
    else (if fs[0].hop.Some? then [fs[0].hop.value] else []) + Hops(fs[1..])
  }

  /** One comma-separated element of the header; an element without a `for` hop is refused. */
  function ReadElement(parse: EntryParser, element: string): Result<Chain, ForwardedError> {
    match ReadFragments(parse, Split(element, ';'))
    case Err(e) => Err(e)
    case Ok(fs) =>
      if Hops(fs) == [] then Err(DirectiveEmpty) else Ok(Chain(Hops(fs), Join(Texts(fs), "; ")))
  }

  function ReadElements(parse: EntryParser, parts: seq<string>): Result<seq<Chain>, ForwardedError> {
    if parts == [] then Ok([])
    else if Trim(parts[0]) == "" then ReadElements(parse, parts[1..])
    else
      match ReadElement(parse, Trim(parts[0]))
      case Err(e) => Err(e)
      case Ok(c) =>
        match ReadElements(parse, parts[1..])
        case Err(e) => Err(e)
        case Ok(cs) => Ok([c] + cs)
  }

  function ElementTexts(cs: seq<Chain>): seq<string> {
    if cs == [] then [] else [cs[0].text] + ElementTexts(cs[1..])
  }

  function AllHops(cs: seq<Chain>): seq<Addr> {
    if cs == [] then [] else cs[0].hops + AllHops(cs[1..])
  }

  /** The whole header as one reading: what the loops of `ParseForwarded` below compute. */
  function ReadForwarded(parse: EntryParser, header: string): Result<Chain, ForwardedError> {
    match ReadElements(parse, Split(header, ','))
    case Err(e) => Err(e)
    case Ok(cs) =>
      if AllHops(cs) == [] then Err(ChainMissing)
      else Ok(Chain(AllHops(cs), Join(ElementTexts(cs), ", ")))
  }

  // ---- Normalising is idempotent and keeps the chain ----

  predicate Plain(s: string) { ',' !in s && ';' !in s }

  lemma PlainTrim(s: string)
    requires Plain(s)
    ensures Plain(Trim(s))
  {
    TrimWithin(s, ',');
    TrimWithin(s, ';');
  }

  lemma PlainAround(open: string, s: string, close: string)
    requires Plain(open) && Plain(s) && Plain(close)
    ensures Plain(open + s + close)
  {
  }

  lemma QuoteStable(inner: string)
    requires Plain(inner)
    ensures var q := Quote(inner); Quoted(q) && Unquote(q) == inner && Trim(q) == q && Plain(q)
  {
    PlainAround("\"", inner, "\"");
    TrimFixpoint(Quote(inner));
    assert Quote(inner)[1..|Quote(inner)| - 1] == inner;
  }

  lemma ForValueStable(parse: EntryParser, raw: string)
    requires Plain(raw)
    requires ForValue(parse, raw).Ok?
    ensures var f := ForValue(parse, raw).value;
      f.text != "" && Trimmed(f.text) && Plain(f.text) && ForValue(parse, f.text) == Ok(f)
  {
    var trimmed := Trim(raw);
    PlainTrim(raw);
    if Quoted(trimmed) || NeedsQuotes(Unquote(trimmed)) {
      QuoteStable(Unquote(trimmed));
    } else {
      TrimFixpoint(trimmed);
    }
  }

  /** A reprinted fragment reads back as itself. */
  ghost predicate Stable(parse: EntryParser, f: Fragment) {
    f.text != "" && Trimmed(f.text) && Plain(f.text) && ReadFragment(parse, f.text) == Ok(f)
  }

  ghost predicate AllStable(parse: EntryParser, fs: seq<Fragment>) {
    fs == [] || (Stable(parse, fs[0]) && AllStable(parse, fs[1..]))
  }

  /** A key that is already lower-case and trimmed, and a trimmed value, survive another reading. */
  lemma PairStable(key: string, value: string)
    requires Plain(key) && Plain(value) && '=' !in key
    requires Trimmed(key) && ToLower(key) == key && Trimmed(value)
    ensures var text := key + "=" + value;
      text != "" && Trimmed(text) && Plain(text) && Cut(text, '=') == Some((key, value))
      && ToLower(Trim(key)) == key && Trim(value) == value
  {
    TrimFixpoint(key);
    TrimFixpoint(value);
    CutAt(key, '=', value);
    PlainAround(key, "=", value);
  }

  lemma CutPlain(s: string)
    requires Plain(s) && Cut(s, '=').Some?
    ensures Plain(Cut(s, '=').value.0) && Plain(Cut(s, '=').value.1)
  {
  }

  lemma ForPairStable(parse: EntryParser, f: Fragment)
    requires f.text != "" && Trimmed(f.text) && Plain(f.text) && ForValue(parse, f.text) == Ok(f)
    ensures Stable(parse, Fragment("for=" + f.text, f.hop))
  {
    ForName();
    PairStable("for", f.text);
    assert "for" + "=" + f.text == "for=" + f.text;
    ForReads(parse, f, "for", "for=" + f.text);
  }

  lemma ForName()
    ensures ToLower("for") == "for" && Trimmed("for") && Plain("for") && '=' !in "for"
  {
  }

  lemma ForReads(parse: EntryParser, f: Fragment, key: string, text: string)
    requires ForValue(parse, f.text) == Ok(f) && key == "for" && text == "for=" + f.text
    requires Cut(text, '=') == Some((key, f.text)) && ToLower(Trim(key)) == key && Trim(f.text) == f.text
    ensures ReadFragment(parse, text) == Ok(Fragment(text, f.hop))
  {
  }

  lemma ForStable(parse: EntryParser, value: string)
    requires Plain(value) && ForValue(parse, value).Ok?
    ensures var f := ForValue(parse, value).value; Stable(parse, Fragment("for=" + f.text, f.hop))
  {
    ForValueStable(parse, value);
    ForPairStable(parse, ForValue(parse, value).value);
  }

  lemma FragmentStable(parse: EntryParser, fragment: string)
    requires fragment != "" && Trimmed(fragment) && Plain(fragment)
    requires ReadFragment(parse, fragment).Ok?
    ensures Stable(parse, ReadFragment(parse, fragment).value)
  {
    if '=' in fragment {
      var kv := Cut(fragment, '=').value;
      CutPlain(fragment);
      KeyStable(kv.0);
      PlainTrim(kv.1);
      if ToLower(Trim(kv.0)) != "for" {
        PairStable(ToLower(Trim(kv.0)), Trim(kv.1));
      } else {
        ForStable(parse, Trim(kv.1));
      }
    }
  }

  lemma KeyStable(raw: string)
    requires Plain(raw) && '=' !in raw
    ensures var key := ToLower(Trim(raw));
      Plain(key) && '=' !in key && Trimmed(key) && ToLower(key) == key
  {
    PlainTrim(raw);
    TrimWithin(raw, '=');
    ToLowerKeeps(Trim(raw), '=');
    ToLowerKeeps(Trim(raw), ',');
    ToLowerKeeps(Trim(raw), ';');
    ToLowerIdempotent(Trim(raw));
    ToLowerTrimmed(Trim(raw));
  }

  lemma {:induction false} FragmentsStable(parse: EntryParser, params: seq<string>)
    requires forall p | p in params :: Plain(p)
    requires ReadFragments(parse, params).Ok?
    ensures AllStable(parse, ReadFragments(parse, params).value)
  {
    if params != [] {
      FragmentsStable(parse, params[1..]);
      if Trim(params[0]) != "" {
        assert params[0] in params;
        PlainTrim(params[0]);
        FragmentStable(parse, Trim(params[0]));
      }
    }
  }

  lemma {:induction false} FragmentsReread(parse: EntryParser, params: seq<string>, fs: seq<Fragment>)
    requires AllStable(parse, fs)
    requires Spells(params, Texts(fs))
    ensures ReadFragments(parse, params) == Ok(fs)
  {
    if fs != [] {
      assert Texts(fs)[1..] == Texts(fs[1..]);
      FragmentsReread(parse, params[1..], fs[1..]);
      assert ReadFragment(parse, Trim(params[0])) == Ok(fs[0]);
      assert fs == [fs[0]] + fs[1..];
    }
  }

  /** A reprinted element reads back as itself. */
  ghost predicate StableElement(parse: EntryParser, c: Chain) {
    c.text != "" && Trimmed(c.text) && ',' !in c.text && ReadElement(parse, c.text) == Ok(c)
  }

  ghost predicate AllStableElements(parse: EntryParser, cs: seq<Chain>) {
    cs == [] || (StableElement(parse, cs[0]) && AllStableElements(parse, cs[1..]))
  }

  lemma {:induction false} FragmentsPrint(parse: EntryParser, fs: seq<Fragment>)
    requires AllStable(parse, fs)
    ensures Items(Texts(fs), ';')
    ensures fs != [] ==> var j := Join(Texts(fs), "; "); j != "" && Trimmed(j) && ',' !in j
  {
    if fs != [] {
      FragmentsPrint(parse, fs[1..]);
    }
  }

  lemma ElementStable(parse: EntryParser, element: string)
    requires ',' !in element
    requires ReadElement(parse, element).Ok?
    ensures StableElement(parse, ReadElement(parse, element).value)
  {
    var params := Split(element, ';');
    var fs := ReadFragments(parse, params).value;
    SplitWithin(element, ';', ',');
    FragmentsStable(parse, params);
    FragmentsPrint(parse, fs);
    SplitJoinSpells(Texts(fs), ';');
    assert [';'] + " " == "; ";
    FragmentsReread(parse, Split(Join(Texts(fs), "; "), ';'), fs);
  }

  lemma {:induction false} ElementsStable(parse: EntryParser, parts: seq<string>)
    requires forall p | p in parts :: ',' !in p
    requires ReadElements(parse, parts).Ok?
    ensures AllStableElements(parse, ReadElements(parse, parts).value)
  {
    if parts != [] {
      ElementsStable(parse, parts[1..]);
      if Trim(parts[0]) != "" {
        assert parts[0] in parts;
        TrimWithin(parts[0], ',');
        ElementStable(parse, Trim(parts[0]));
      }
    }
  }

  lemma {:induction false} ElementsReread(parse: EntryParser, parts: seq<string>, cs: seq<Chain>)
    requires AllStableElements(parse, cs)
    requires Spells(parts, ElementTexts(cs))
    ensures ReadElements(parse, parts) == Ok(cs)
  {
    if cs != [] {
      assert ElementTexts(cs)[1..] == ElementTexts(cs[1..]);
      ElementsReread(parse, parts[1..], cs[1..]);
      assert ReadElement(parse, Trim(parts[0])) == Ok(cs[0]);
      assert cs == [cs[0]] + cs[1..];
    }
  }

  lemma {:induction false} ElementsPrint(parse: EntryParser, cs: seq<Chain>)
    requires AllStableElements(parse, cs)
    ensures Items(ElementTexts(cs), ',')
    ensures cs != [] ==> Join(ElementTexts(cs), ", ") != "" && Trimmed(Join(ElementTexts(cs), ", "))
  {
    if cs != [] {
      ElementsPrint(parse, cs[1..]);
    }
  }

  /**
    Sections 4 and 6 of RFC 7239: whenever a header is accepted, its rewritten text is accepted
    too, names the same hops in the same order, and is rewritten to itself.
   */
  lemma NormalisingIsIdempotent(parse: EntryParser, header: string)
    requires ReadForwarded(parse, header).Ok?
    ensures var chain := ReadForwarded(parse, header).value;
      ReadForwarded(parse, chain.text) == Ok(chain) && Trimmed(chain.text) && chain.text != ""
  {
    var cs := ReadElements(parse, Split(header, ',')).value;
    ElementsStable(parse, Split(header, ','));
    ElementsPrint(parse, cs);
    SplitJoinSpells(ElementTexts(cs), ',');
    assert [','] + " " == ", ";
    ElementsReread(parse, Split(Join(ElementTexts(cs), ", "), ','), cs);
  }

  // ---- The loops of the source, proved to compute the readings above ----

  /** What has been read so far, followed by the reading of the rest. */
  ghost function After<T>(done: seq<T>, rest: Result<seq<T>, ForwardedError>): (r: Result<seq<T>, ForwardedError>)
    ensures done == [] ==> r == rest
    ensures rest == Ok([]) ==> r == Ok(done)
  {
    match rest
    case Err(e) => Err(e)
    case Ok(ts) =>
      assert done == [] ==> done + ts == ts;
      assert ts == [] ==> done + ts == done;
      Ok(done + ts)
  }

  lemma AfterStep<T>(done: seq<T>, t: T, rest: Result<seq<T>, ForwardedError>)
    ensures After(done + [t], rest) ==
            match rest { case Err(e) => Err(e) case Ok(ts) => Ok(done + ([t] + ts)) }
  {
    if rest.Ok? {
      assert done + [t] + rest.value == done + ([t] + rest.value);
    }
  }

  lemma {:induction false} FragmentAppend(fs: seq<Fragment>, f: Fragment)
    ensures Texts(fs + [f]) == Texts(fs) + [f.text]
    ensures Hops(fs + [f]) == Hops(fs) + (if f.hop.Some? then [f.hop.value] else [])
  {
    if fs == [] {
      assert fs + [f] == [f];
    } else {
      FragmentAppend(fs[1..], f);
      var more := fs + [f];
      assert more[0] == fs[0] && more[1..] == fs[1..] + [f];
      assert Hops(more) == Hops([fs[0]]) + Hops(more[1..]);
    }
  }

  lemma {:induction false} ElementAppend(cs: seq<Chain>, c: Chain)
    ensures ElementTexts(cs + [c]) == ElementTexts(cs) + [c.text]
    ensures AllHops(cs + [c]) == AllHops(cs) + c.hops
  {
    if cs == [] {
      assert cs + [c] == [c];
    } else {
      ElementAppend(cs[1..], c);
      var more := cs + [c];
      assert more[0] == cs[0] && more[1..] == cs[1..] + [c];
      assert AllHops(more) == cs[0].hops + AllHops(more[1..]);
      assert ElementTexts(more) == [cs[0].text] + ElementTexts(more[1..]);
    }
  }

  method ParseElement(parse: EntryParser, element: string) returns (r: Result<Chain, ForwardedError>)
    ensures r == ReadElement(parse, element)
  {
    var params := Split(element, ';');
    var sanitized: seq<string>, addrs: seq<Addr>, foundFor := [], [], false;
    ghost var done: seq<Fragment> := [];
    assert params[0..] == params;
    for i := 0 to |params|
      invariant ReadFragments(parse, params) == After(done, ReadFragments(parse, params[i..]))
      invariant sanitized == Texts(done) && addrs == Hops(done) && foundFor == (addrs != [])
    {
      assert params[i..][1..] == params[i + 1..];
      var fragment := Trim(params[i]);
      if fragment == "" {
        continue;
      }
      var read := ReadFragment(parse, fragment);
      if read.Err? {
        return Err(read.error);
      }
      FragmentAppend(done, read.value);
      AfterStep(done, read.value, ReadFragments(parse, params[i + 1..]));
      done := done + [read.value];
      sanitized := sanitized + [read.value.text];
      if read.value.hop.Some? {
        addrs, foundFor := addrs + [read.value.hop.value], true;
      }
    }
    return if foundFor then Ok(Chain(addrs, Join(sanitized, "; "))) else Err(DirectiveEmpty);
  }

  method ParseForwarded(parse: EntryParser, header: string) returns (r: Result<Chain, ForwardedError>)
    ensures r == ReadForwarded(parse, header)
  {
    var parts := Split(header, ',');
    var addrs: seq<Addr>, segments: seq<string> := [], [];
    ghost var done: seq<Chain> := [];
    assert parts[0..] == parts;
    for i := 0 to |parts|
      invariant ReadElements(parse, parts) == After(done, ReadElements(parse, parts[i..]))
      invariant segments == ElementTexts(done) && addrs == AllHops(done)
    {
      assert parts[i..][1..] == parts[i + 1..];
      var trimmed := Trim(parts[i]);
      if trimmed == "" {
        continue;
      }
      var element := ParseElement(parse, trimmed);
      if element.Err? {
        return Err(element.error);
      }
      ElementAppend(done, element.value);
      AfterStep(done, element.value, ReadElements(parse, parts[i + 1..]));
      done := done + [element.value];
      addrs, segments := addrs + element.value.hops, segments + [element.value.text];
    }
    return if addrs == [] then Err(ChainMissing) else Ok(Chain(addrs, Join(segments, ", ")));
  }

  // ---- X-Forwarded-For ----

  function ReadHops(parse: EntryParser, parts: seq<string>): Result<seq<Addr>, ForwardedError> {
    if parts == [] then Ok([])
    else if Trim(parts[0]) == "" then ReadHops(parse, parts[1..])
    else
      match parse(Trim(parts[0]))
      case None => Err(BadEntry)
      case Some(addr) =>
        match ReadHops(parse, parts[1..])
        case Err(e) => Err(e)
        case Ok(hops) => Ok([addr] + hops)
  }

  function ReadForwardedFor(parse: EntryParser, header: string): Result<seq<Addr>, ForwardedError> {
    ReadHops(parse, Split(header, ','))
  }

  method ParseForwardedChain(parse: EntryParser, header: string) returns (r: Result<seq<Addr>, ForwardedError>)
    ensures r == ReadForwardedFor(parse, header)
  {
    var parts := Split(header, ',');
    var addrs: seq<Addr> := [];
    assert parts[0..] == parts;
    for i := 0 to |parts|
      invariant ReadHops(parse, parts) == After(addrs, ReadHops(parse, parts[i..]))
    {
      assert parts[i..][1..] == parts[i + 1..];
      var trimmed := Trim(parts[i]);
      if trimmed == "" {
        continue;
      }
      var addr := parse(trimmed);
      if addr.None? {
        return Err(BadEntry);
      }
      AfterStep(addrs, addr.value, ReadHops(parse, parts[i + 1..]));
      addrs := addrs + [addr.value];
    }
    return Ok(addrs);
  }

  function Printed(show: Addr -> string, hops: seq<Addr>): seq<string> {
    if hops == [] then [] else [show(hops[0])] + Printed(show, hops[1..])
  }

  function JoinAddrs(show: Addr -> string, hops: seq<Addr>): string {
    Join(Printed(show, hops), ", ")
  }

  /** The address codec, on the list entries a header can hold: printing an address that was read reads back. */
  ghost predicate Codec(parse: EntryParser, show: Addr -> string) {
    forall s {:trigger parse(s)} | s != "" && Trimmed(s) && ',' !in s && parse(s).Some? ::
      PrintsBack(parse, show, parse(s).value)
  }

  ghost predicate PrintsBack(parse: EntryParser, show: Addr -> string, addr: Addr) {
    var text := show(addr);
    text != "" && Trimmed(text) && ',' !in text && parse(text) == Some(addr)
  }

  ghost predicate AllPrintBack(parse: EntryParser, show: Addr -> string, hops: seq<Addr>) {
    hops == [] || (PrintsBack(parse, show, hops[0]) && AllPrintBack(parse, show, hops[1..]))
  }

  lemma {:induction false} HopsPrintBack(parse: EntryParser, show: Addr -> string, parts: seq<string>)
    requires Codec(parse, show)
    requires forall p | p in parts :: ',' !in p
    requires ReadHops(parse, parts).Ok?
    ensures AllPrintBack(parse, show, ReadHops(parse, parts).value)
  {
    if parts != [] {
      HopsPrintBack(parse, show, parts[1..]);
      assert parts[0] in parts;
      TrimWithin(parts[0], ',');
    }
  }

  lemma {:induction false} HopsPrint(parse: EntryParser, show: Addr -> string, hops: seq<Addr>)
    requires AllPrintBack(parse, show, hops)
    ensures Items(Printed(show, hops), ',')
    ensures hops != [] ==> JoinAddrs(show, hops) != "" && Trimmed(JoinAddrs(show, hops))
  {
    if hops != [] {
      HopsPrint(parse, show, hops[1..]);
    }
  }

  lemma {:induction false} HopsReread(parse: EntryParser, show: Addr -> string, parts: seq<string>, hops: seq<Addr>)
    requires AllPrintBack(parse, show, hops)
    requires Spells(parts, Printed(show, hops))
    ensures ReadHops(parse, parts) == Ok(hops)
  {
    if hops != [] {
      assert Printed(show, hops)[1..] == Printed(show, hops[1..]);
      HopsReread(parse, show, parts[1..], hops[1..]);
      assert hops == [hops[0]] + hops[1..];
    }
  }

  /** An accepted X-Forwarded-For list, reprinted from its addresses, names the same hops. */
  lemma ForwardedForRoundTrip(parse: EntryParser, show: Addr -> string, header: string)
    requires Codec(parse, show)
    requires ReadForwardedFor(parse, header).Ok? && ReadForwardedFor(parse, header).value != []
    ensures var hops := ReadForwardedFor(parse, header).value;
      ReadForwardedFor(parse, JoinAddrs(show, hops)) == Ok(hops)
      && JoinAddrs(show, hops) != "" && Trimmed(JoinAddrs(show, hops))
  {
    var hops := ReadForwardedFor(parse, header).value;
    HopsPrintBack(parse, show, Split(header, ','));
    HopsPrint(parse, show, hops);
    SplitJoinSpells(Printed(show, hops), ',');
    assert [','] + " " == ", ";
    HopsReread(parse, show, Split(JoinAddrs(show, hops), ','), hops);
  }
}
