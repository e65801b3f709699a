/**
  What the forwarding headers of a request say, read off their text element by element and pair by pair, and the
  proof that the readings of `Forwarded` find exactly that and reprint it.
 */
module ProxyChain {
  import opened Wrappers
  import opened Text
  import opened Forwarded

  // ---- The pairs of a header ----

  /** One parameter of a `Forwarded` element: a pair, its name in lower case, or a text without an equals sign. */
  datatype Param = Flag(text: string) | Pair(name: string, value: string)
  {
    predicate IsFor() { Pair? && name == "for" }
  }

  function ParamOf(s: string): Param {
    match Cut(s, '=')
    case None => Flag(Trim(s))
    case Some(kv) => Pair(ToLower(Trim(kv.0)), Trim(kv.1))
  }

  function ParamsOf(parts: seq<string>): seq<Param> {
    if parts == [] then []
    else (if Trim(parts[0]) == "" then [] else [ParamOf(parts[0])]) + ParamsOf(parts[1..])
  }

  function Params(element: string): seq<Param> { ParamsOf(Split(element, ';')) }

  function ElementsOf(parts: seq<string>): seq<seq<Param>> {
    if parts == [] then []
    else (if Trim(parts[0]) == "" then [] else [Params(parts[0])]) + ElementsOf(parts[1..])
  }

  /** The elements of a header that are not blank, each as its parameters that are not blank. */
  function Elements(header: string): seq<seq<Param>> { ElementsOf(Split(header, ',')) }

  /** The values of the `for` pairs of one element. */
  function ForValues(params: seq<Param>): seq<string> {
    if params == [] then [] else (if params[0].IsFor() then [params[0].value] else []) + ForValues(params[1..])
  }

  function AllForValues(elements: seq<seq<Param>>): seq<string> {
    if elements == [] then [] else ForValues(elements[0]) + AllForValues(elements[1..])
  }

  /** The address a `for` value names, in quotes or not; an empty, obfuscated or unknown hop names none. */
  function Named(parse: EntryParser, value: string): Option<Addr> {
    var bare := if Quoted(value) then value[1..|value| - 1] else value;
    if bare == "" || bare[0] == '_' || ToLower(bare) == "unknown" then None else parse(bare)
  }

  ghost predicate AllNamed(parse: EntryParser, values: seq<string>) {
    forall i | 0 <= i < |values| :: Named(parse, values[i]).Some?
  }

  /** The hops are the addresses of the values, in their order. */
  ghost predicate HopsOf(parse: EntryParser, values: seq<string>, hops: seq<Addr>) {
    |hops| == |values| && forall i | 0 <= i < |values| :: Named(parse, values[i]) == Some(hops[i])
  }

  // ---- Blanks around a parameter or an element say nothing ----

  lemma ParamAt(name: string, value: string, s: string)
    requires '=' !in name && s == name + ['='] + value
    ensures ParamOf(s) == Pair(ToLower(Trim(name)), Trim(value))
  {
    CutAt(name, '=', value);
  }

  lemma ParamLead(c: char, s: string)
    requires IsSpace(c)
    ensures ParamOf([c] + s) == ParamOf(s)
  {
    TrimLead(c, s);
    if '=' in s {
      var (name, value) := Cut(s, '=').value;
      TrimLead(c, name);
      LeadAssociates(c, name, '=', value);
      ParamAt([c] + name, value, [c] + s);
    }
  }

  lemma ParamTail(s: string, c: char)
    requires IsSpace(c)
    ensures ParamOf(s + [c]) == ParamOf(s)
  {
    TrimTail(s, c);
    if '=' in s {
      var (name, value) := Cut(s, '=').value;
      TrimTail(value, c);
      TailAssociates(name, '=', value, c);
      ParamAt(name, value + [c], s + [c]);
    }
  }

  /** A reading of a text that one blank more at either edge does not change. */
  ghost predicate IgnoresBlanks<T(!new)>(read: string -> T) {
    && (forall c, s | IsSpace(c) :: read([c] + s) == read(s))
    && (forall c, s | IsSpace(c) :: read(s + [c]) == read(s))
  }

  lemma {:induction false} TrimIgnored<T(!new)>(read: string -> T, s: string)
    requires IgnoresBlanks(read)
    ensures read(Trim(s)) == read(s)
  {
    if s != "" && IsSpace(s[0]) {
      TrimIgnored(read, s[1..]);
      assert s == [s[0]] + s[1..];
    } else if s != "" && IsSpace(s[|s| - 1]) {
      TrimIgnored(read, s[..|s| - 1]);
      assert s == s[..|s| - 1] + [s[|s| - 1]];
    }
  }

  lemma ParamTrim(s: string)
    ensures ParamOf(Trim(s)) == ParamOf(s)
  {
    forall c, t | IsSpace(c) ensures ParamOf([c] + t) == ParamOf(t) && ParamOf(t + [c]) == ParamOf(t) {
      ParamLead(c, t);
      ParamTail(t, c);
    }
    TrimIgnored(ParamOf, s);
  }

  /** The parameters up to the first semicolon, and after it. */
  lemma ParamsCut(s: string)
    ensures match Cut(s, ';')
      case None => Params(s) == ParamsOf([s])
      case Some(pr) => Params(s) == ParamsOf([pr.0]) + Params(pr.1)
  {
    if ';' in s {
      var (part, rest) := Cut(s, ';').value;
      SplitAt(part, ';', rest);
      assert ([part] + Split(rest, ';'))[1..] == Split(rest, ';');
      assert [part][1..] == [];
    } else {
      assert Split(s, ';') == [s];
    }
  }

  lemma ParamsAt(part: string, rest: string, s: string)
    requires ';' !in part && s == part + [';'] + rest
    ensures Params(s) == ParamsOf([part]) + Params(rest)
  {
    CutAt(part, ';', rest);
    ParamsCut(s);
  }

  lemma ParamsWhole(s: string)
    requires ';' !in s
    ensures Params(s) == ParamsOf([s])
  {
    ParamsCut(s);
  }

  lemma TailAssociates(part: string, sep: char, rest: string, c: char)
    ensures (part + [sep] + rest) + [c] == part + [sep] + (rest + [c])
  {
  }

  lemma LeadAssociates(c: char, part: string, sep: char, rest: string)
    ensures [c] + (part + [sep] + rest) == ([c] + part) + [sep] + rest
  {
  }

  lemma OneLead(c: char, s: string)
    requires IsSpace(c)
    ensures ParamsOf([[c] + s]) == ParamsOf([s])
  {
    TrimLead(c, s);
    ParamLead(c, s);
    assert [[c] + s][1..] == [s][1..] == [];
  }

  lemma OneTail(s: string, c: char)
    requires IsSpace(c)
    ensures ParamsOf([s + [c]]) == ParamsOf([s])
  {
    TrimTail(s, c);
    ParamTail(s, c);
    assert [s + [c]][1..] == [s][1..] == [];
  }

  lemma ParamsLead(c: char, s: string)
    requires IsSpace(c)
    ensures Params([c] + s) == Params(s)
  {
    ParamsCut(s);
    if ';' in s {
      var (part, rest) := Cut(s, ';').value;
      OneLead(c, part);
      LeadAssociates(c, part, ';', rest);
      ParamsAt([c] + part, rest, [c] + s);
    } else {
      OneLead(c, s);
      ParamsWhole([c] + s);
    }
  }

  lemma {:induction false} ParamsTail(s: string, c: char)
    requires IsSpace(c)
    ensures Params(s + [c]) == Params(s)
    decreases |s|
  {
    ParamsCut(s);
    if ';' in s {
      var (part, rest) := Cut(s, ';').value;
      ParamsTail(rest, c);
      TailAssociates(part, ';', rest, c);
      ParamsAt(part, rest + [c], s + [c]);
    } else {
      ParamsCut(s + [c]);
      OneTail(s, c);
    }
  }

  lemma ParamsTrim(s: string)
    ensures Params(Trim(s)) == Params(s)
  {
    forall c, t | IsSpace(c) ensures Params([c] + t) == Params(t) && Params(t + [c]) == Params(t) {
      ParamsLead(c, t);
      ParamsTail(t, c);
    }
    TrimIgnored(Params, s);
  }

  // ---- Reading finds exactly the `for` values ----

  lemma ForValueReads(parse: EntryParser, value: string)
    requires Trimmed(value)
    ensures match Named(parse, value)
      case None => ForValue(parse, value).Err?
      case Some(addr) => ForValue(parse, value).Ok? && ForValue(parse, value).value.hop == Some(addr)
  {
    TrimFixpoint(value);
    var inner := Unquote(value);
    assert inner != "" ==> ("_" <= inner <==> inner[0] == '_');
  }

  lemma FragmentReads(parse: EntryParser, part: string)
    ensures var p, f := ParamOf(part), ReadFragment(parse, Trim(part));
      && (p.IsFor() && Named(parse, p.value).None? ==> f.Err?)
      && (p.IsFor() && Named(parse, p.value).Some? ==> f.Ok? && f.value.hop == Named(parse, p.value))
      && (!p.IsFor() ==> f.Ok? && f.value.hop == None)
  {
    ParamTrim(part);
    var p := ParamOf(part);
    if p.IsFor() {
      ForValueReads(parse, p.value);
      TrimFixpoint(p.value);
    }
  }

  lemma HopsConcat(parse: EntryParser, a: seq<string>, b: seq<string>, first: seq<Addr>, rest: seq<Addr>)
    ensures AllNamed(parse, a + b) <==> AllNamed(parse, a) && AllNamed(parse, b)
    ensures HopsOf(parse, a, first) && HopsOf(parse, b, rest) ==> HopsOf(parse, a + b, first + rest)
  {
    var ab := a + b;
    if AllNamed(parse, ab) {
      forall i | 0 <= i < |a| ensures Named(parse, a[i]).Some? { assert ab[i] == a[i]; }
      forall i | 0 <= i < |b| ensures Named(parse, b[i]).Some? { assert ab[|a| + i] == b[i]; }
    }
  }

  lemma {:induction false} FragmentsRead(parse: EntryParser, parts: seq<string>)
    ensures var values, r := ForValues(ParamsOf(parts)), ReadFragments(parse, parts);
      && (r.Ok? <==> AllNamed(parse, values))
      && (r.Ok? ==> HopsOf(parse, values, Hops(r.value)))
  {
    if parts != [] {
      FragmentsRead(parse, parts[1..]);
      if Trim(parts[0]) == "" {
        assert ParamsOf(parts) == ParamsOf(parts[1..]);
      } else {
        FragmentReads(parse, parts[0]);
        FragmentsReadStep(parse, parts);
      }
    }
  }

  lemma FragmentsReadStep(parse: EntryParser, parts: seq<string>)
    requires parts != [] && Trim(parts[0]) != ""
    requires var values, r := ForValues(ParamsOf(parts[1..])), ReadFragments(parse, parts[1..]);
      (r.Ok? <==> AllNamed(parse, values)) && (r.Ok? ==> HopsOf(parse, values, Hops(r.value)))
    ensures var values, r := ForValues(ParamsOf(parts)), ReadFragments(parse, parts);
      (r.Ok? <==> AllNamed(parse, values)) && (r.Ok? ==> HopsOf(parse, values, Hops(r.value)))
  {
    var p, rest := ParamOf(parts[0]), ParamsOf(parts[1..]);
    FragmentReads(parse, parts[0]);
    var f, r := ReadFragment(parse, Trim(parts[0])), ReadFragments(parse, parts[1..]);
    var own: seq<string> := if p.IsFor() then [p.value] else [];
    assert ForValues(ParamsOf(parts)) == own + ForValues(rest) by {
      assert ParamsOf(parts) == [p] + rest;
    }
    var hops := if f.Ok? && f.value.hop.Some? then [f.value.hop.value] else [];
    HopsConcat(parse, own, ForValues(rest), hops, if r.Ok? then Hops(r.value) else []);
    if f.Ok? && r.Ok? {
      assert ([f.value] + r.value)[1..] == r.value;
    }
  }

  lemma ElementReads(parse: EntryParser, element: string)
    ensures var values, r := ForValues(Params(element)), ReadElement(parse, Trim(element));
      && (r.Ok? <==> values != [] && AllNamed(parse, values))
      && (r.Ok? ==> HopsOf(parse, values, r.value.hops))
  {
    ParamsTrim(element);
    FragmentsRead(parse, Split(Trim(element), ';'));
  }

  predicate HasFor(params: seq<Param>) { exists j | 0 <= j < |params| :: params[j].IsFor() }

  /** Every element has a `for` pair. */
  ghost predicate EachHasFor(elements: seq<seq<Param>>) {
    forall i | 0 <= i < |elements| :: HasFor(elements[i])
  }

  lemma {:induction false} HasForIff(params: seq<Param>)
    ensures ForValues(params) != [] <==> HasFor(params)
  {
    if params != [] {
      HasForIff(params[1..]);
      assert forall j | 0 <= j < |params[1..]| :: params[1..][j] == params[j + 1];
      assert forall j | 1 <= j < |params| :: params[j] == params[1..][j - 1];
    }
  }

  lemma {:induction false} ElementsRead(parse: EntryParser, parts: seq<string>)
    ensures var elements, r := ElementsOf(parts), ReadElements(parse, parts);
      && (r.Ok? <==> EachHasFor(elements) && AllNamed(parse, AllForValues(elements)))
      && (r.Ok? ==> HopsOf(parse, AllForValues(elements), AllHops(r.value)))
      && (r.Ok? && elements != [] ==> AllForValues(elements) != [])
  {
    if parts != [] {
      ElementsRead(parse, parts[1..]);
      if Trim(parts[0]) == "" {
        assert ElementsOf(parts) == ElementsOf(parts[1..]);
      } else {
        ElementsReadStep(parse, parts);
      }
    }
  }

  lemma ElementsReadStep(parse: EntryParser, parts: seq<string>)
    requires parts != [] && Trim(parts[0]) != ""
    requires var elements, r := ElementsOf(parts[1..]), ReadElements(parse, parts[1..]);
      && (r.Ok? <==> EachHasFor(elements) && AllNamed(parse, AllForValues(elements)))
      && (r.Ok? ==> HopsOf(parse, AllForValues(elements), AllHops(r.value)))
    ensures var elements, r := ElementsOf(parts), ReadElements(parse, parts);
      && (r.Ok? <==> EachHasFor(elements) && AllNamed(parse, AllForValues(elements)))
      && (r.Ok? ==> HopsOf(parse, AllForValues(elements), AllHops(r.value)) && AllForValues(elements) != [])
  {
    var first, rest := Params(parts[0]), ElementsOf(parts[1..]);
    ElementReads(parse, parts[0]);
    HasForIff(first);
    EachCons(first, rest);
    var c, r := ReadElement(parse, Trim(parts[0])), ReadElements(parse, parts[1..]);
    assert ElementsOf(parts) == [first] + rest;
    assert AllForValues([first] + rest) == ForValues(first) + AllForValues(rest);
    HopsConcat(parse, ForValues(first), AllForValues(rest), if c.Ok? then c.value.hops else [],
               if r.Ok? then AllHops(r.value) else []);
    if c.Ok? && r.Ok? {
      assert ([c.value] + r.value)[1..] == r.value;
    }
  }

  lemma EachCons(first: seq<Param>, rest: seq<seq<Param>>)
    ensures EachHasFor([first] + rest) <==> HasFor(first) && EachHasFor(rest)
  {
    var all := [first] + rest;
    assert all[0] == first;
    assert forall i | 0 <= i < |rest| :: all[i + 1] == rest[i];
    assert forall i | 1 <= i < |all| :: all[i] == rest[i - 1];
  }

  /**
    A `Forwarded` header is accepted exactly when it has an element, every element has a `for` pair and every `for`
    value names an address, and then its hops are those addresses, all of them and in order.
   */
  lemma ForwardedNames(parse: EntryParser, header: string)
    ensures var elements, r := Elements(header), ReadForwarded(parse, header);
      && (r.Ok? <==> elements != [] && EachHasFor(elements) && AllNamed(parse, AllForValues(elements)))
      && (r.Ok? ==> HopsOf(parse, AllForValues(elements), r.value.hops))
  {
    ElementsRead(parse, Split(header, ','));
  }

  // ---- Why a header is not accepted ----

  /** What is wrong with a `for` value that names no address. */
  function Fault(value: string): ForwardedError {
    var bare := if Quoted(value) then value[1..|value| - 1] else value;
    if bare == "" then ChainMissing
    else if bare[0] == '_' || ToLower(bare) == "unknown" then DirectiveEmpty
    else BadEntry
  }

  /** Value `k` is the first that names no address. */
  ghost predicate FirstUnnamed(parse: EntryParser, values: seq<string>, k: int) {
    0 <= k < |values| && Named(parse, values[k]).None? && AllNamed(parse, values[..k])
  }

  ghost predicate FaultyValues(parse: EntryParser, values: seq<string>, error: ForwardedError) {
    exists k :: FirstUnnamed(parse, values, k) && error == Fault(values[k])
  }

  /** The first value without an address, or that there is none at all. */
  ghost predicate FaultyElement(parse: EntryParser, params: seq<Param>, error: ForwardedError) {
    if AllNamed(parse, ForValues(params)) then !HasFor(params) && error == DirectiveEmpty
    else FaultyValues(parse, ForValues(params), error)
  }

  ghost predicate Faultless(parse: EntryParser, elements: seq<seq<Param>>) {
    EachHasFor(elements) && AllNamed(parse, AllForValues(elements))
  }

  ghost predicate FaultyAt(parse: EntryParser, elements: seq<seq<Param>>, i: int, error: ForwardedError) {
    0 <= i < |elements| && FaultyElement(parse, elements[i], error) && Faultless(parse, elements[..i])
  }

  lemma FaultLater(parse: EntryParser, own: seq<string>, rest: seq<string>, error: ForwardedError)
    requires AllNamed(parse, own) && FaultyValues(parse, rest, error)
    ensures FaultyValues(parse, own + rest, error)
  {
    var k :| FirstUnnamed(parse, rest, k) && error == Fault(rest[k]);
    assert (own + rest)[..|own| + k] == own + rest[..k];
    assert FirstUnnamed(parse, own + rest, |own| + k);
  }

  lemma FragmentFault(parse: EntryParser, part: string)
    requires ReadFragment(parse, Trim(part)).Err?
    ensures var p := ParamOf(part); p.IsFor() && ReadFragment(parse, Trim(part)).error == Fault(p.value)
  {
    FragmentReads(parse, part);
    ParamTrim(part);
    ValueFault(parse, ParamOf(part).value);
    TrimFixpoint(ParamOf(part).value);
  }

  lemma ValueFault(parse: EntryParser, value: string)
    requires Trimmed(value) && ForValue(parse, value).Err?
    ensures ForValue(parse, value).error == Fault(value)
  {
    TrimFixpoint(value);
    var inner := Unquote(value);
    assert inner != "" ==> ("_" <= inner <==> inner[0] == '_');
  }

  lemma FaultFirst(parse: EntryParser, value: string, rest: seq<string>)
    requires Named(parse, value).None?
    ensures FaultyValues(parse, [value] + rest, Fault(value))
  {
    assert ([value] + rest)[..0] == [];
    assert FirstUnnamed(parse, [value] + rest, 0);
  }

  lemma ForValuesCons(p: Param, rest: seq<Param>)
    ensures ForValues([p] + rest) == (if p.IsFor() then [p.value] else []) + ForValues(rest)
  {
    assert ([p] + rest)[1..] == rest;
  }

  lemma {:induction false} FragmentsFault(parse: EntryParser, parts: seq<string>)
    requires ReadFragments(parse, parts).Err?
    ensures FaultyValues(parse, ForValues(ParamsOf(parts)), ReadFragments(parse, parts).error)
  {
    if Trim(parts[0]) == "" {
      FragmentsFault(parse, parts[1..]);
      assert ParamsOf(parts) == ParamsOf(parts[1..]);
    } else {
      var p, rest := ParamOf(parts[0]), ParamsOf(parts[1..]);
      ForValuesCons(p, rest);
      FragmentReads(parse, parts[0]);
      if ReadFragment(parse, Trim(parts[0])).Err? {
        FragmentFault(parse, parts[0]);
        FaultFirst(parse, p.value, ForValues(rest));
      } else {
        FragmentsFault(parse, parts[1..]);
        FaultLater(parse, if p.IsFor() then [p.value] else [], ForValues(rest), ReadFragments(parse, parts[1..]).error);
      }
    }
  }

  lemma ElementFault(parse: EntryParser, element: string)
    requires ReadElement(parse, Trim(element)).Err?
    ensures FaultyElement(parse, Params(element), ReadElement(parse, Trim(element)).error)
  {
    ParamsTrim(element);
    ElementReads(parse, element);
    HasForIff(Params(element));
    var parts := Split(Trim(element), ';');
    FragmentsRead(parse, parts);
    if ReadFragments(parse, parts).Err? {
      FragmentsFault(parse, parts);
    }
  }

  lemma FaultlessCons(parse: EntryParser, first: seq<Param>, rest: seq<seq<Param>>)
    ensures Faultless(parse, [first] + rest)
       <==> HasFor(first) && AllNamed(parse, ForValues(first)) && Faultless(parse, rest)
  {
    EachCons(first, rest);
    HopsConcat(parse, ForValues(first), AllForValues(rest), [], []);
    assert ([first] + rest)[1..] == rest;
  }

  lemma FaultyLater(parse: EntryParser, first: seq<Param>, rest: seq<seq<Param>>, i: int, error: ForwardedError)
    requires HasFor(first) && AllNamed(parse, ForValues(first)) && FaultyAt(parse, rest, i, error)
    ensures FaultyAt(parse, [first] + rest, i + 1, error)
  {
    FaultlessCons(parse, first, rest[..i]);
    assert ([first] + rest)[..i + 1] == [first] + rest[..i];
  }

  lemma {:induction false} ElementsFault(parse: EntryParser, parts: seq<string>) returns (i: int)
    requires ReadElements(parse, parts).Err?
    ensures FaultyAt(parse, ElementsOf(parts), i, ReadElements(parse, parts).error)
  {
    if Trim(parts[0]) == "" {
      i := ElementsFault(parse, parts[1..]);
      assert ElementsOf(parts) == ElementsOf(parts[1..]);
    } else {
      var first, rest := Params(parts[0]), ElementsOf(parts[1..]);
      ElementReads(parse, parts[0]);
      HasForIff(first);
      assert ElementsOf(parts) == [first] + rest;
      if ReadElement(parse, Trim(parts[0])).Err? {
        ElementFault(parse, parts[0]);
        i := 0;
        assert ([first] + rest)[..0] == [];
      } else {
        i := ElementsFault(parse, parts[1..]);
        FaultyLater(parse, first, rest, i, ReadElements(parse, parts[1..]).error);
        i := i + 1;
      }
    }
  }

  /** The error of a header that is not accepted: it has no element, or the first fault of its first faulty element. */
  lemma ForwardedFault(parse: EntryParser, header: string)
    requires ReadForwarded(parse, header).Err?
    ensures var error := ReadForwarded(parse, header).error;
      if Elements(header) == [] then error == ChainMissing else exists i :: FaultyAt(parse, Elements(header), i, error)
  {
    ForwardedNames(parse, header);
    ElementsRead(parse, Split(header, ','));
    if ReadElements(parse, Split(header, ',')).Err? {
      var i := ElementsFault(parse, Split(header, ','));
    }
  }

  /** What a `Forwarded` header says, if it says a chain at all. */
  ghost predicate ForwardedIs(parse: EntryParser, header: string, chain: seq<Addr>) {
    Elements(header) != [] && EachHasFor(Elements(header)) && HopsOf(parse, AllForValues(Elements(header)), chain)
  }

  lemma ForwardedIff(parse: EntryParser, header: string)
    ensures var r := ReadForwarded(parse, header);
      forall chain :: ForwardedIs(parse, header, chain) <==> r.Ok? && r.value.hops == chain
  {
    ForwardedNames(parse, header);
    forall chain ensures ForwardedIs(parse, header, chain) <==>
        ReadForwarded(parse, header).Ok? && ReadForwarded(parse, header).value.hops == chain {
      if ForwardedIs(parse, header, chain) {
        SameHops(parse, AllForValues(Elements(header)), chain, ReadForwarded(parse, header).value.hops);
      }
    }
  }

  lemma SameHops(parse: EntryParser, values: seq<string>, a: seq<Addr>, b: seq<Addr>)
    requires HopsOf(parse, values, a) && HopsOf(parse, values, b)
    ensures a == b
  {
    assert forall i | 0 <= i < |values| :: Some(a[i]) == Some(b[i]);
  }

  // ---- X-Forwarded-For ----

  function EntriesOf(parts: seq<string>): seq<string> {
    if parts == [] then [] else (if Trim(parts[0]) == "" then [] else [Trim(parts[0])]) + EntriesOf(parts[1..])
  }

  /** The entries of an X-Forwarded-For list that are not blank. */
  function Entries(header: string): seq<string> { EntriesOf(Split(header, ',')) }

  ghost predicate AllParsed(parse: EntryParser, entries: seq<string>) {
    forall i | 0 <= i < |entries| :: parse(entries[i]).Some?
  }

  ghost predicate ParsedAs(parse: EntryParser, entries: seq<string>, hops: seq<Addr>) {
    |hops| == |entries| && forall i | 0 <= i < |entries| :: parse(entries[i]) == Some(hops[i])
  }

  lemma ParsedCons(parse: EntryParser, entry: string, rest: seq<string>, hops: seq<Addr>)
    ensures AllParsed(parse, [entry] + rest) <==> parse(entry).Some? && AllParsed(parse, rest)
    ensures parse(entry).Some? && ParsedAs(parse, rest, hops) ==>
      ParsedAs(parse, [entry] + rest, [parse(entry).value] + hops)
  {
    var all := [entry] + rest;
    assert all[0] == entry;
    assert forall i | 0 <= i < |rest| :: all[i + 1] == rest[i];
    assert forall i | 1 <= i < |all| :: all[i] == rest[i - 1];
  }

  lemma {:induction false} HopsRead(parse: EntryParser, parts: seq<string>)
    ensures var entries, r := EntriesOf(parts), ReadHops(parse, parts);
      if AllParsed(parse, entries) then r.Ok? && ParsedAs(parse, entries, r.value) else r == Err(BadEntry)
  {
    if parts != [] {
      HopsRead(parse, parts[1..]);
      var rest, r := EntriesOf(parts[1..]), ReadHops(parse, parts[1..]);
      if Trim(parts[0]) == "" {
        assert EntriesOf(parts) == rest;
      } else {
        ParsedCons(parse, Trim(parts[0]), rest, if r.Ok? then r.value else []);
      }
    }
  }

  /** An X-Forwarded-For list is accepted exactly when every entry is an address, and then its hops are those. */
  lemma ForwardedForNames(parse: EntryParser, header: string)
    ensures var entries, r := Entries(header), ReadForwardedFor(parse, header);
      if AllParsed(parse, entries) then r.Ok? && ParsedAs(parse, entries, r.value) else r == Err(BadEntry)
  {
    HopsRead(parse, Split(header, ','));
  }

  lemma ForwardedForIff(parse: EntryParser, header: string)
    ensures forall chain :: ParsedAs(parse, Entries(header), chain) <==> ReadForwardedFor(parse, header) == Ok(chain)
  {
    ForwardedForNames(parse, header);
    forall chain ensures ParsedAs(parse, Entries(header), chain) <==> ReadForwardedFor(parse, header) == Ok(chain) {
      if ParsedAs(parse, Entries(header), chain) {
        SameParsed(parse, Entries(header), chain, ReadForwardedFor(parse, header).value);
      }
    }
  }

  lemma SameParsed(parse: EntryParser, entries: seq<string>, a: seq<Addr>, b: seq<Addr>)
    requires ParsedAs(parse, entries, a) && ParsedAs(parse, entries, b)
    ensures a == b
  {
    assert forall i | 0 <= i < |entries| :: Some(a[i]) == Some(b[i]);
  }

  // ---- The reprinted text says the same ----

  lemma {:induction false} SpelledElements(parts: seq<string>, texts: seq<string>)
    requires Spells(parts, texts)
    ensures ElementsOf(parts) == ElementsOf(texts)
    ensures EntriesOf(parts) == EntriesOf(texts)
  {
    if parts != [] {
      SpelledElements(parts[1..], texts[1..]);
      ParamsTrim(parts[0]);
      TrimFixpoint(texts[0]);
    }
  }

  lemma {:induction false} SpelledParams(parts: seq<string>, texts: seq<string>)
    requires Spells(parts, texts)
    ensures ParamsOf(parts) == ParamsOf(texts)
  {
    if parts != [] {
      SpelledParams(parts[1..], texts[1..]);
      ParamTrim(parts[0]);
      TrimFixpoint(texts[0]);
    }
  }

  /** A `for` value as it is printed: its quotes are kept, and added where its characters need them. */
  function Requoted(value: string): string {
    if !Quoted(value) && NeedsQuotes(value) then Quote(value) else value
  }

  function Reprinted(p: Param): Param { if p.IsFor() then Pair("for", Requoted(p.value)) else p }

  function ReprintedAll(params: seq<Param>): (r: seq<Param>)
    ensures |r| == |params| && forall i | 0 <= i < |r| :: r[i] == Reprinted(params[i])
  {
    seq(|params|, i requires 0 <= i < |params| => Reprinted(params[i]))
  }

  /** The same elements, parameter by parameter and in the same order, up to the quotes of `for` values. */
  ghost predicate Reprints(before: seq<seq<Param>>, after: seq<seq<Param>>) {
    |after| == |before| && forall i | 0 <= i < |before| :: after[i] == ReprintedAll(before[i])
  }

  lemma ForValueText(parse: EntryParser, value: string)
    requires Trimmed(value) && ForValue(parse, value).Ok?
    ensures ForValue(parse, value).value.text == Requoted(value)
  {
    TrimFixpoint(value);
    if Quoted(value) {
      QuotedAgain(value);
    }
  }

  lemma QuotedAgain(value: string)
    requires Quoted(value)
    ensures Quote(Unquote(value)) == value
  {
  }

  lemma PairText(name: string, value: string)
    requires Trimmed(name) && '=' !in name && ToLower(name) == name && Trimmed(value)
    ensures ParamOf(name + "=" + value) == Pair(name, value)
  {
    CutAt(name, '=', value);
    TrimFixpoint(name);
    TrimFixpoint(value);
  }

  lemma ForText(text: string)
    requires Trimmed(text)
    ensures ParamOf("for=" + text) == Pair("for", text)
  {
    ForName();
    PairText("for", text);
    assert "for" + "=" + text == "for=" + text;
  }

  lemma FragmentText(parse: EntryParser, part: string)
    requires Plain(part) && ReadFragment(parse, Trim(part)).Ok?
    ensures ParamOf(ReadFragment(parse, Trim(part)).value.text) == Reprinted(ParamOf(part))
  {
    PlainTrim(part);
    ParamTrim(part);
    var fragment := Trim(part);
    if '=' in fragment {
      var kv := Cut(fragment, '=').value;
      CutPlain(fragment);
      KeyStable(kv.0);
      if ToLower(Trim(kv.0)) != "for" {
        PairText(ToLower(Trim(kv.0)), Trim(kv.1));
      } else {
        PlainTrim(kv.1);
        ForValueText(parse, Trim(kv.1));
        ForValueStable(parse, Trim(kv.1));
        ForText(Requoted(Trim(kv.1)));
      }
    } else {
      TrimFixpoint(fragment);
    }
  }

  lemma {:induction false} FragmentsText(parse: EntryParser, parts: seq<string>)
    requires forall p | p in parts :: Plain(p)
    requires ReadFragments(parse, parts).Ok?
    ensures ParamsOf(Texts(ReadFragments(parse, parts).value)) == ReprintedAll(ParamsOf(parts))
  {
    if parts != [] {
      FragmentsText(parse, parts[1..]);
      assert parts[0] in parts;
      if Trim(parts[0]) != "" {
        FragmentsTextStep(parse, parts);
      }
    }
  }

  lemma FragmentsTextStep(parse: EntryParser, parts: seq<string>)
    requires parts != [] && Trim(parts[0]) != "" && Plain(parts[0]) && ReadFragments(parse, parts).Ok?
    requires ParamsOf(Texts(ReadFragments(parse, parts[1..]).value)) == ReprintedAll(ParamsOf(parts[1..]))
    ensures ParamsOf(Texts(ReadFragments(parse, parts).value)) == ReprintedAll(ParamsOf(parts))
  {
    FragmentText(parse, parts[0]);
    var f, fs := ReadFragment(parse, Trim(parts[0])).value, ReadFragments(parse, parts[1..]).value;
    PlainTrim(parts[0]);
    FragmentStable(parse, Trim(parts[0]));
    TrimFixpoint(f.text);
    assert ([f] + fs)[1..] == fs;
    ParamsCons(f.text, Texts(fs));
    ParamsCons(parts[0], parts[1..]);
    assert parts == [parts[0]] + parts[1..];
    ReprintedCons(ParamOf(parts[0]), ParamsOf(parts[1..]));
  }

  lemma ReprintedCons(p: Param, rest: seq<Param>)
    ensures ReprintedAll([p] + rest) == [Reprinted(p)] + ReprintedAll(rest)
  {
  }

  lemma ElementText(parse: EntryParser, element: string)
    requires ',' !in element && ReadElement(parse, Trim(element)).Ok?
    ensures Params(ReadElement(parse, Trim(element)).value.text) == ReprintedAll(Params(element))
  {
    TrimWithin(element, ',');
    ParamsTrim(element);
    var parts := Split(Trim(element), ';');
    var fs := ReadFragments(parse, parts).value;
    SplitWithin(Trim(element), ';', ',');
    FragmentsText(parse, parts);
    FragmentsStable(parse, parts);
    FragmentsPrint(parse, fs);
    SplitJoinSpells(Texts(fs), ';');
    assert [';'] + " " == "; ";
    SpelledParams(Split(Join(Texts(fs), "; "), ';'), Texts(fs));
  }

  lemma {:induction false} ElementsText(parse: EntryParser, parts: seq<string>)
    requires forall p | p in parts :: ',' !in p
    requires ReadElements(parse, parts).Ok?
    ensures Reprints(ElementsOf(parts), ElementsOf(ElementTexts(ReadElements(parse, parts).value)))
  {
    if parts != [] {
      ElementsText(parse, parts[1..]);
      assert parts[0] in parts;
      if Trim(parts[0]) != "" {
        ElementsTextStep(parse, parts);
      }
    }
  }

  lemma ElementsTextStep(parse: EntryParser, parts: seq<string>)
    requires parts != [] && Trim(parts[0]) != "" && ',' !in parts[0] && ReadElements(parse, parts).Ok?
    requires Reprints(ElementsOf(parts[1..]), ElementsOf(ElementTexts(ReadElements(parse, parts[1..]).value)))
    ensures Reprints(ElementsOf(parts), ElementsOf(ElementTexts(ReadElements(parse, parts).value)))
  {
    ElementText(parse, parts[0]);
    TrimWithin(parts[0], ',');
    ElementStable(parse, Trim(parts[0]));
    var c, cs := ReadElement(parse, Trim(parts[0])).value, ReadElements(parse, parts[1..]).value;
    TrimFixpoint(c.text);
    assert ([c] + cs)[1..] == cs;
    assert ([c.text] + ElementTexts(cs))[1..] == ElementTexts(cs);
    ReprintsCons(Params(parts[0]), ElementsOf(parts[1..]), Params(c.text), ElementsOf(ElementTexts(cs)));
  }

  lemma ReprintsCons(a: seq<Param>, before: seq<seq<Param>>, b: seq<Param>, after: seq<seq<Param>>)
    requires b == ReprintedAll(a) && Reprints(before, after)
    ensures Reprints([a] + before, [b] + after)
  {
  }

  /**
    The text an accepted header is rewritten to has the same elements with the same parameters, all of them and in
    order, names in lower case, and only the quotes of `for` values may be new.
   */
  lemma RewritingKeepsPairs(parse: EntryParser, header: string)
    requires ReadForwarded(parse, header).Ok?
    ensures Reprints(Elements(header), Elements(ReadForwarded(parse, header).value.text))
  {
    var cs := ReadElements(parse, Split(header, ',')).value;
    ElementsText(parse, Split(header, ','));
    ElementsStable(parse, Split(header, ','));
    ElementsPrint(parse, cs);
    SplitJoinSpells(ElementTexts(cs), ',');
    assert [','] + " " == ", ";
    SpelledElements(Split(Join(ElementTexts(cs), ", "), ','), ElementTexts(cs));
  }

  // ---- Headers as they are written ----

  /** A pair as a client or proxy may write it: blanks around name and value, the name in any case. */
  datatype Written = Written(lead: string, name: string, gap: string, pad: string, value: string, trail: string)
  {
    function Text(): string { lead + name + gap + "=" + (pad + value + trail) }

    predicate Proper() {
      && Blanks(lead) && Blanks(gap) && Blanks(pad) && Blanks(trail)
      && Trimmed(name) && '=' !in name && Plain(name) && Trimmed(value) && Plain(value)
    }
  }

  predicate AllProper(pairs: seq<Written>) { forall i | 0 <= i < |pairs| :: pairs[i].Proper() }

  function PairTexts(pairs: seq<Written>): (r: seq<string>)
    ensures |r| == |pairs| && forall i | 0 <= i < |pairs| :: r[i] == pairs[i].Text()
  {
    seq(|pairs|, i requires 0 <= i < |pairs| => pairs[i].Text())
  }

  function PairsOf(pairs: seq<Written>): (r: seq<Param>)
    ensures |r| == |pairs| && forall i | 0 <= i < |pairs| :: r[i] == Pair(ToLower(pairs[i].name), pairs[i].value)
  {
    seq(|pairs|, i requires 0 <= i < |pairs| => Pair(ToLower(pairs[i].name), pairs[i].value))
  }

  /** Elements are separated by commas, pairs by semicolons. */
  function ElementLines(elements: seq<seq<Written>>): (r: seq<string>)
    ensures |r| == |elements| && forall i | 0 <= i < |elements| :: r[i] == Join(PairTexts(elements[i]), ";")
  {
    seq(|elements|, i requires 0 <= i < |elements| => Join(PairTexts(elements[i]), ";"))
  }

  function HeaderLine(elements: seq<seq<Written>>): string { Join(ElementLines(elements), ",") }

  lemma WrittenParam(w: Written)
    requires w.Proper()
    ensures ParamOf(w.Text()) == Pair(ToLower(w.name), w.value)
  {
    var name, value := w.lead + w.name + w.gap, w.pad + w.value + w.trail;
    BlanksWithout(w.lead);
    BlanksWithout(w.gap);
    assert '=' !in name;
    TrimMiddle(w.lead, w.name, w.gap);
    TrimMiddle(w.pad, w.value, w.trail);
    CutAt(name, '=', value);
    assert name + ['='] + value == w.Text();
  }

  lemma BlanksWithout(s: string)
    requires Blanks(s)
    ensures '=' !in s && Plain(s)
  {
  }

  lemma WrittenPlain(w: Written)
    requires w.Proper()
    ensures Plain(w.Text()) && Trim(w.Text()) != ""
  {
    BlanksWithout(w.lead);
    BlanksWithout(w.gap);
    BlanksWithout(w.pad);
    BlanksWithout(w.trail);
    PlainAround(w.lead, w.name, w.gap);
    PlainAround(w.pad, w.value, w.trail);
    PlainAround(w.lead + w.name + w.gap, "=", w.pad + w.value + w.trail);
    WrittenParam(w);
    ParamTrim(w.Text());
  }

  lemma TextsArePlain(pairs: seq<Written>)
    requires AllProper(pairs)
    ensures forall t | t in PairTexts(pairs) :: Plain(t)
  {
    forall i | 0 <= i < |pairs| ensures Plain(pairs[i].Text()) {
      WrittenPlain(pairs[i]);
    }
  }

  lemma {:induction false} WrittenParams(pairs: seq<Written>)
    requires AllProper(pairs)
    ensures ParamsOf(PairTexts(pairs)) == PairsOf(pairs)
  {
    if pairs != [] {
      WrittenParams(pairs[1..]);
      WrittenParam(pairs[0]);
      WrittenPlain(pairs[0]);
      PairTextsCons(pairs);
      ParamsCons(pairs[0].Text(), PairTexts(pairs[1..]));
    }
  }

  lemma PairTextsCons(pairs: seq<Written>)
    requires pairs != []
    ensures PairTexts(pairs) == [pairs[0].Text()] + PairTexts(pairs[1..])
    ensures PairsOf(pairs) == [Pair(ToLower(pairs[0].name), pairs[0].value)] + PairsOf(pairs[1..])
  {
  }

  lemma ParamsCons(part: string, rest: seq<string>)
    requires Trim(part) != ""
    ensures ParamsOf([part] + rest) == [ParamOf(part)] + ParamsOf(rest)
  {
    assert ([part] + rest)[1..] == rest;
  }

  lemma {:induction false} JoinWithin(parts: seq<string>, sep: string, c: char)
    requires c !in sep && forall p | p in parts :: c !in p
    ensures c !in Join(parts, sep)
  {
    if |parts| > 1 {
      JoinWithin(parts[1..], sep, c);
    }
  }

  lemma WrittenElement(pairs: seq<Written>)
    requires pairs != [] && AllProper(pairs)
    ensures var line := Join(PairTexts(pairs), ";");
      Params(line) == PairsOf(pairs) && ',' !in line && Trim(line) != ""
  {
    var line := Join(PairTexts(pairs), ";");
    WrittenParams(pairs);
    TextsArePlain(pairs);
    SplitJoinExact(PairTexts(pairs), ';');
    assert [';'] == ";";
    JoinWithin(PairTexts(pairs), ";", ',');
    ParamsTrim(line);
    BlankHasNoParams();
  }

  lemma BlankHasNoParams()
    ensures Params("") == []
  {
    ParamsCut("");
    assert [""][1..] == [];
  }

  /** Element by element and pair by pair, in order: the name in lower case and the value. */
  ghost predicate SaidAs(said: seq<seq<Param>>, elements: seq<seq<Written>>) {
    |said| == |elements| && forall i | 0 <= i < |elements| :: said[i] == PairsOf(elements[i])
  }

  lemma SaidCons(first: seq<Param>, rest: seq<seq<Param>>, elements: seq<seq<Written>>)
    requires elements != [] && first == PairsOf(elements[0]) && SaidAs(rest, elements[1..])
    ensures SaidAs([first] + rest, elements)
  {
  }

  /** What a written header says is what was written: any case, any blanks, any other pairs among them. */
  lemma WrittenReads(elements: seq<seq<Written>>)
    requires elements != [] && forall i | 0 <= i < |elements| :: elements[i] != [] && AllProper(elements[i])
    ensures SaidAs(Elements(HeaderLine(elements)), elements)
  {
    var lines := ElementLines(elements);
    forall t | t in lines ensures ',' !in t {
      var i :| 0 <= i < |lines| && lines[i] == t;
      WrittenElement(elements[i]);
    }
    SplitJoinExact(lines, ',');
    assert [','] == ",";
    WrittenLines(elements);
  }

  lemma {:induction false} WrittenLines(elements: seq<seq<Written>>)
    requires forall i | 0 <= i < |elements| :: elements[i] != [] && AllProper(elements[i])
    ensures SaidAs(ElementsOf(ElementLines(elements)), elements)
  {
    if elements != [] {
      WrittenLines(elements[1..]);
      WrittenElement(elements[0]);
      LinesCons(elements);
      ElementsCons(Join(PairTexts(elements[0]), ";"), ElementLines(elements[1..]));
      SaidCons(PairsOf(elements[0]), ElementsOf(ElementLines(elements[1..])), elements);
    }
  }

  lemma LinesCons(elements: seq<seq<Written>>)
    requires elements != []
    ensures ElementLines(elements) == [Join(PairTexts(elements[0]), ";")] + ElementLines(elements[1..])
  {
  }

  // ---- The two headers agree ----

  function ForTexts(values: seq<string>): seq<string> {
    if values == [] then [] else ["for=" + values[0]] + ForTexts(values[1..])
  }

  /** A value that both headers can carry as it is. */
  predicate Shared(value: string) {
    && value != "" && Trimmed(value) && Plain(value) && !Quoted(value)
    && value[0] != '_' && ToLower(value) != "unknown"
  }

  lemma {:induction false} ForTextsPrint(values: seq<string>)
    requires forall i | 0 <= i < |values| :: Shared(values[i])
    ensures Items(ForTexts(values), ',') && Items(values, ',') && EntriesOf(values) == values
  {
    if values != [] {
      ForTextsPrint(values[1..]);
      OneForText(values[0]);
      TrimFixpoint(values[0]);
    }
  }

  lemma {:induction false} ForTextsSay(values: seq<string>)
    requires forall i | 0 <= i < |values| :: Shared(values[i])
    ensures var elements := ElementsOf(ForTexts(values));
      AllForValues(elements) == values && EachHasFor(elements) && |elements| == |values|
  {
    if values != [] {
      ForTextsSay(values[1..]);
      OneForText(values[0]);
      ForTextsStep("for=" + values[0], values[0], ForTexts(values[1..]), values[1..]);
      assert [values[0]] + values[1..] == values;
    }
  }

  lemma ForTextsStep(text: string, value: string, texts: seq<string>, values: seq<string>)
    requires Params(text) == [Pair("for", value)] && Trim(text) != ""
    requires var elements := ElementsOf(texts);
      AllForValues(elements) == values && EachHasFor(elements) && |elements| == |values|
    ensures var elements := ElementsOf([text] + texts);
      AllForValues(elements) == [value] + values && EachHasFor(elements) && |elements| == 1 + |values|
  {
    var one, rest := [Pair("for", value)], ElementsOf(texts);
    ElementsCons(text, texts);
    EachCons(one, rest);
    AllForCons(one, rest);
    OneForValue(Pair("for", value));
  }

  lemma OneForValue(p: Param)
    requires p.IsFor()
    ensures ForValues([p]) == [p.value] && HasFor([p])
  {
    assert [p][0].IsFor() && [p][1..] == [];
  }

  lemma AllForCons(first: seq<Param>, rest: seq<seq<Param>>)
    ensures AllForValues([first] + rest) == ForValues(first) + AllForValues(rest)
  {
    assert ([first] + rest)[1..] == rest;
  }

  lemma ElementsCons(part: string, rest: seq<string>)
    requires Trim(part) != ""
    ensures ElementsOf([part] + rest) == [Params(part)] + ElementsOf(rest)
  {
    assert ([part] + rest)[1..] == rest;
  }

  lemma OneForText(value: string)
    requires Shared(value)
    ensures var text := "for=" + value;
      Params(text) == [Pair("for", value)] && Trimmed(text) && ',' !in text && Trim(text) != ""
  {
    ForText(value);
    ForTextPrints(value, "for=" + value);
    OneParam("for=" + value);
  }

  lemma ForTextPrints(value: string, text: string)
    requires Shared(value) && text == "for=" + value
    ensures Trimmed(text) && Plain(text) && Trim(text) == text && text != ""
  {
    PlainAround("for", "=", value);
    assert text == "for" + "=" + value;
    assert text[|text| - 1] == value[|value| - 1];
    TrimFixpoint(text);
  }

  lemma OneParam(text: string)
    requires ';' !in text && Trim(text) != ""
    ensures Params(text) == [ParamOf(text)]
  {
    ParamsCut(text);
    ParamsCons(text, []);
    assert [text] + [] == [text];
  }

  lemma ForLineSays(values: seq<string>)
    requires values != [] && forall i | 0 <= i < |values| :: Shared(values[i])
    ensures var elements := Elements(Join(ForTexts(values), ", "));
      AllForValues(elements) == values && EachHasFor(elements) && elements != []
  {
    ForTextsPrint(values);
    ForTextsSay(values);
    ListSays(ForTexts(values));
  }

  lemma ListSays(texts: seq<string>)
    requires texts != [] && Items(texts, ',')
    ensures Elements(Join(texts, ", ")) == ElementsOf(texts) && Entries(Join(texts, ", ")) == EntriesOf(texts)
  {
    assert [','] + " " == ", ";
    SplitJoinSpells(texts, ',');
    SpelledElements(Split(Join(texts, ", "), ','), texts);
  }

  /** `for=v1, for=v2` in one header and `v1, v2` in the other name the same chain, or neither names one. */
  lemma HeadersAgree(parse: EntryParser, values: seq<string>)
    requires values != [] && forall i | 0 <= i < |values| :: Shared(values[i])
    ensures var a, b := ReadForwarded(parse, Join(ForTexts(values), ", ")), ReadForwardedFor(parse, Join(values, ", "));
      && (a.Ok? <==> b.Ok?) && (a.Ok? <==> AllParsed(parse, values))
      && (a.Ok? ==> a.value.hops == b.value && ParsedAs(parse, values, b.value))
  {
    ForLineSays(values);
    ForTextsPrint(values);
    ListSays(values);
    ForwardedNames(parse, Join(ForTexts(values), ", "));
    ForwardedForNames(parse, Join(values, ", "));
    SharedNamed(parse, values);
  }

  lemma SharedNamed(parse: EntryParser, values: seq<string>)
    requires forall i | 0 <= i < |values| :: Shared(values[i])
    ensures AllNamed(parse, values) <==> AllParsed(parse, values)
    ensures forall hops :: HopsOf(parse, values, hops) <==> ParsedAs(parse, values, hops)
  {
    assert forall i | 0 <= i < |values| :: Named(parse, values[i]) == parse(values[i]);
  }
}
