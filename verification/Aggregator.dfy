/**
  Merging rule documents into one bundle: a name defined twice is quarantined, a rule whose
  conditions do not compile is quarantined, and an endpoint is dropped when a rule it names is
  not live.  The bundle is proved to be a function of the documents as an unordered collection.
 */
module Aggregator {
  import opened Wrappers
  import opened Text
  import opened Order

  datatype EndpointConfig = EndpointConfig(refs: seq<string>, settings: string)

  datatype RuleConfig = RuleConfig(pass: seq<string>, fail: seq<string>, error: seq<string>, settings: string)

  datatype Doc = Doc(endpoints: map<string, EndpointConfig>, rules: map<string, RuleConfig>, source: string)

  datatype Reason =
    | Duplicate
    | InvalidExpression(list: string, index: nat, message: string)
    | MissingRules(names: seq<string>)

  datatype Skip = Skip(reason: Reason, sources: seq<string>)

  datatype DefinitionSkip = DefinitionSkip(kind: string, name: string, reason: Reason, sources: seq<string>)

  datatype Bundle = Bundle(
    endpoints: map<string, EndpointConfig>,
    rules: map<string, RuleConfig>,
    sources: seq<string>,
    skipped: seq<DefinitionSkip>)

  /** An expression compiler: None when the text compiles, otherwise the error. */
  type Compiler = string -> Option<string>

  // ---- One name, as the aggregator tracks it ----

  datatype Slot<C> = Absent | Live(config: C, source: string) | Skipped(skip: Skip)

  function AppendUnique(list: seq<string>, value: string): seq<string> {
    if value == "" || value in list then list else list + [value]
  }

  function AppendAll(list: seq<string>, values: seq<string>): seq<string>
    decreases values
  {
    if values == [] then list else AppendAll(AppendUnique(list, values[0]), values[1..])
  }

  function AddSlot<C>(slot: Slot<C>, config: C, source: string): Slot<C> {
    match slot
    case Absent => Live(config, source)
    case Live(_, prev) => Skipped(Skip(Duplicate, AppendAll([], [prev, source])))
    case Skipped(skip) => Skipped(skip.(sources := AppendUnique(skip.sources, source)))
  }

  function RejectSlot<C>(slot: Slot<C>, reason: Reason): Slot<C>
    requires slot.Live?
  {
    Skipped(Skip(reason, AppendAll([], [slot.source])))
  }

  function CheckSlot<C>(check: C -> Option<Reason>, slot: Slot<C>): Slot<C> {
    if slot.Live? && check(slot.config).Some? then RejectSlot(slot, check(slot.config).value) else slot
  }

  /** The slot of a name, given the live definitions, where they came from, and the skips. */
  ghost function SlotIn<C>(live: map<string, C>, sources: map<string, string>, skips: map<string, Skip>,
                           name: string): Slot<C>
    requires live.Keys == sources.Keys
  {
    if name in live then Live(live[name], sources[name])
    else if name in skips then Skipped(skips[name])
    else Absent
  }

  /** The three maps the source keeps per kind of definition. */
  class Table<C> {
    var live: map<string, C>
    var sources: map<string, string>
    var skips: map<string, Skip>

    ghost predicate Valid()
      reads this
    {
      live.Keys == sources.Keys && live.Keys !! skips.Keys
    }

    ghost function SlotOf(name: string): Slot<C>
      requires Valid()
      reads this
    {
      SlotIn(live, sources, skips, name)
    }

    constructor ()
      ensures Valid() && live == map[] && skips == map[]
    {
      live, sources, skips := map[], map[], map[];
    }

    method Add(name: string, config: C, source: string)
      requires Valid()
      modifies this
      ensures Valid()
      ensures SlotOf(name) == AddSlot(old(SlotOf(name)), config, source)
      ensures forall n | n != name :: SlotOf(n) == old(SlotOf(n))
    {
      if name in skips {
        skips := skips[name := skips[name].(sources := AppendUnique(skips[name].sources, source))];
        return;
      }
      if name in sources {
        RecordSkip(name, Duplicate, [sources[name], source]);
        sources, live := sources - {name}, live - {name};
        return;
      }
      sources, live := sources[name := source], live[name := config];
    }

    method RecordSkip(name: string, reason: Reason, names: seq<string>)
      modifies this`skips
      ensures skips == old(skips)[name :=
                if name in old(skips) then old(skips)[name].(sources := AppendAll(old(skips)[name].sources, names))
                else Skip(reason, AppendAll([], names))]
    {
      var skip := if name in skips then skips[name] else Skip(reason, []);
      ghost var start := skip;
      assert names[0..] == names;
      for i := 0 to |names|
        invariant skip == start.(sources := skip.sources)
        invariant AppendAll(start.sources, names) == AppendAll(skip.sources, names[i..])
      {
        assert names[i..][1..] == names[i + 1..];
        skip := skip.(sources := AppendUnique(skip.sources, names[i]));
      }
      skips := skips[name := skip];
    }

    /** Quarantine a definition that was live. */
    method Reject(name: string, reason: Reason)
      requires Valid() && name in live
      modifies this
      ensures Valid()
      ensures SlotOf(name) == RejectSlot(old(SlotOf(name)), reason)
      ensures live == old(live) - {name}
      ensures forall n | n != name :: SlotOf(n) == old(SlotOf(n))
    {
      RecordSkip(name, reason, [sources[name]]);
      sources, live := sources - {name}, live - {name};
    }

    /** Quarantines, in any order, every live definition that the check objects to. */
    method RejectWhere(check: C -> Option<Reason>)
      requires Valid()
      modifies this
      ensures Valid()
      ensures forall n :: SlotOf(n) == CheckSlot(check, old(SlotOf(n)))
    {
      var todo := live.Keys;
      while todo != {}
        invariant Valid() && todo <= live.Keys
        invariant forall n :: SlotOf(n) == if n in todo then old(SlotOf(n)) else CheckSlot(check, old(SlotOf(n)))
        decreases |todo|
      {
        var name :| name in todo;
        var objection := check(live[name]);
        if objection.Some? {
          Reject(name, objection.value);
        }
        todo := todo - {name};
      }
    }

    /** Adds every definition of one document, in any order. */
    method AddAll(defs: map<string, C>, source: string)
      requires Valid()
      modifies this
      ensures Valid()
      ensures forall n :: SlotOf(n) == if n in defs then AddSlot(old(SlotOf(n)), defs[n], source) else old(SlotOf(n))
    {
      var todo := defs.Keys;
      while todo != {}
        invariant Valid() && todo <= defs.Keys
        invariant forall n :: SlotOf(n) == if n in defs && n !in todo then AddSlot(old(SlotOf(n)), defs[n], source)
                                           else old(SlotOf(n))
        decreases |todo|
      {
        var name :| name in todo;
        Add(name, defs[name], source);
        todo := todo - {name};
      }
    }
  }

  // ---- The declarative reading: documents as an unordered collection ----

  /** Exactly one document defines the name, and it is `d`. */
  ghost predicate Once<C(!new)>(docs: multiset<Doc>, get: Doc -> map<string, C>, name: string, d: Doc) {
    && d in docs && docs[d] == 1 && name in get(d)
    && forall e | e in docs && name in get(e) :: e == d
  }

  ghost predicate Defined<C>(docs: multiset<Doc>, get: Doc -> map<string, C>, name: string) {
    exists d :: d in docs && name in get(d)
  }

  /** The named sources of every document that defines the name. */
  ghost function Sources<C>(docs: multiset<Doc>, get: Doc -> map<string, C>, name: string): set<string> {
    set d | d in docs && name in get(d) && d.source != "" :: d.source
  }

  // ---- Folding the documents in order computes that reading ----

  ghost function Folded<C>(docs: seq<Doc>, get: Doc -> map<string, C>, name: string): Slot<C> {
    if docs == [] then Absent
    else
      var last := docs[|docs| - 1];
      var slot := Folded(docs[..|docs| - 1], get, name);
      if name in get(last) then AddSlot(slot, get(last)[name], last.source) else slot
  }

  ghost predicate NoRepeats(list: seq<string>, members: set<string>) {
    multiset(list) == multiset(members)
  }

  lemma AppendUniqueMembers(list: seq<string>, members: set<string>, value: string)
    requires NoRepeats(list, members)
    ensures NoRepeats(AppendUnique(list, value), if value == "" then members else members + {value})
  {
    assert value in list <==> value in multiset(list);
    if value in members {
      assert members + {value} == members;
    }
  }

  lemma {:induction false} AppendAllMembers(list: seq<string>, members: set<string>, values: seq<string>)
    requires NoRepeats(list, members)
    ensures NoRepeats(AppendAll(list, values), members + (set v | v in values && v != ""))
    decreases values
  {
    if values == [] {
      assert members + (set v | v in values && v != "") == members;
    } else {
      var head := if values[0] == "" then members else members + {values[0]};
      AppendUniqueMembers(list, members, values[0]);
      AppendAllMembers(AppendUnique(list, values[0]), head, values[1..]);
      assert values == [values[0]] + values[1..];
      assert head + (set v | v in values[1..] && v != "") == members + (set v | v in values && v != "");
    }
  }

  /** A slot says what the declarative reading says. */
  ghost predicate Reads<C(!new)>(docs: multiset<Doc>, get: Doc -> map<string, C>, name: string, slot: Slot<C>) {
    match slot
    case Absent => !Defined(docs, get, name)
    case Live(config, source) => exists d :: Once(docs, get, name, d) && config == get(d)[name] && source == d.source
    case Skipped(skip) =>
      && Defined(docs, get, name) && (forall d :: !Once(docs, get, name, d))
      && skip.reason == Duplicate && NoRepeats(skip.sources, Sources(docs, get, name))
  }

  lemma SourcesStep<C>(docs: multiset<Doc>, get: Doc -> map<string, C>, name: string, last: Doc)
    ensures Sources(docs + multiset{last}, get, name) == Sources(docs, get, name)
            + (if name in get(last) && last.source != "" then {last.source} else {})
  {
    var docs' := docs + multiset{last};
    assert forall d :: d in docs' <==> d in docs || d == last;
  }

  lemma StepElsewhere<C(!new)>(docs: multiset<Doc>, get: Doc -> map<string, C>, name: string, slot: Slot<C>, last: Doc)
    requires Reads(docs, get, name, slot) && name !in get(last)
    ensures Reads(docs + multiset{last}, get, name, slot)
  {
    var docs' := docs + multiset{last};
    SourcesStep(docs, get, name, last);
    assert forall d | name in get(d) :: docs'[d] == docs[d];
    assert forall d :: Once(docs, get, name, d) <==> Once(docs', get, name, d);
  }

  lemma StepTwice<C(!new)>(docs: multiset<Doc>, get: Doc -> map<string, C>, name: string, last: Doc)
    requires name in get(last) && Defined(docs, get, name)
    ensures Defined(docs + multiset{last}, get, name)
    ensures forall e :: !Once(docs + multiset{last}, get, name, e)
  {
    var docs' := docs + multiset{last};
    var d :| d in docs && name in get(d);
    assert d in docs' && last in docs';
    assert d == last ==> docs'[d] >= 2;
  }

  lemma StepLive<C(!new)>(docs: multiset<Doc>, get: Doc -> map<string, C>, name: string, slot: Slot<C>, last: Doc)
    requires Reads(docs, get, name, slot) && slot.Live? && name in get(last)
    ensures Reads(docs + multiset{last}, get, name, AddSlot(slot, get(last)[name], last.source))
  {
    var d :| Once(docs, get, name, d) && slot.config == get(d)[name] && slot.source == d.source;
    StepTwice(docs, get, name, last);
    TwoSources(docs, get, name, d, last);
  }

  lemma AppendTwo(a: string, b: string)
    ensures AppendAll([], [a, b]) == AppendUnique(AppendAll([], [a]), b)
  {
    assert [a, b][1..] == [b] && [a][1..] == [] && [b][1..] == [];
    var one := AppendUnique([], a);
    assert AppendAll([], [a]) == AppendAll(one, []) == one;
    assert AppendAll([], [a, b]) == AppendAll(one, [b]) == AppendAll(AppendUnique(one, b), []);
  }

  lemma TwoSources<C(!new)>(docs: multiset<Doc>, get: Doc -> map<string, C>, name: string, d: Doc, last: Doc)
    requires Once(docs, get, name, d) && name in get(last)
    ensures NoRepeats(AppendAll([], [d.source, last.source]), Sources(docs + multiset{last}, get, name))
  {
    OnceSources(docs, get, name, d);
    SourcesStep(docs, get, name, last);
    AppendUniqueMembers(AppendAll([], [d.source]), Sources(docs, get, name), last.source);
    AppendTwo(d.source, last.source);
  }

  /** One more document: the reading of the larger collection is the slot the aggregator computes. */
  lemma ReadsStep<C(!new)>(docs: multiset<Doc>, get: Doc -> map<string, C>, name: string, slot: Slot<C>, last: Doc)
    requires Reads(docs, get, name, slot) && name in get(last)
    ensures Reads(docs + multiset{last}, get, name, AddSlot(slot, get(last)[name], last.source))
  {
    match slot
    case Absent =>
      assert forall d | d in docs + multiset{last} && name in get(d) :: d == last;
      assert Once(docs + multiset{last}, get, name, last);
    case Live(_, _) =>
      StepLive(docs, get, name, slot, last);
    case Skipped(skip) =>
      StepTwice(docs, get, name, last);
      SourcesStep(docs, get, name, last);
      AppendUniqueMembers(skip.sources, Sources(docs, get, name), last.source);
  }

  lemma {:induction false} FoldedReads<C(!new)>(docs: seq<Doc>, get: Doc -> map<string, C>, name: string)
    ensures Reads(multiset(docs), get, name, Folded(docs, get, name))
  {
    if docs != [] {
      FoldedReads(docs[..|docs| - 1], get, name);
      var slot, last := Folded(docs[..|docs| - 1], get, name), docs[|docs| - 1];
      if name in get(last) {
        ReadsStep(multiset(docs[..|docs| - 1]), get, name, slot, last);
      } else {
        StepElsewhere(multiset(docs[..|docs| - 1]), get, name, slot, last);
      }
      assert docs == docs[..|docs| - 1] + [docs[|docs| - 1]];
    }
  }

  // ---- When a definition is live, and what the bundle must then hold ----

  function EndpointsOf(d: Doc): map<string, EndpointConfig> { d.endpoints }

  function RulesOf(d: Doc): map<string, RuleConfig> { d.rules }

  /** The first expression of a list that is not blank and does not compile. */
  function ListError(compile: Compiler, list: string, expressions: seq<string>, i: nat): Option<Reason>
    requires i <= |expressions|
    decreases |expressions| - i
  {
    if i == |expressions| then None
    else if Trim(expressions[i]) != "" && compile(Trim(expressions[i])).Some?
    then Some(InvalidExpression(list, i, compile(Trim(expressions[i])).value))
    else ListError(compile, list, expressions, i + 1)
  }

  function RuleError(compile: Compiler, config: RuleConfig): Option<Reason> {
    var pass := ListError(compile, "pass", config.pass, 0);
    var fail := ListError(compile, "fail", config.fail, 0);
    if pass.Some? then pass else if fail.Some? then fail else ListError(compile, "error", config.error, 0)
  }

  ghost predicate AllCompile(compile: Compiler, expressions: seq<string>) {
    forall i | 0 <= i < |expressions| :: Trim(expressions[i]) == "" || compile(Trim(expressions[i])).None?
  }

  ghost predicate Compiles(compile: Compiler, config: RuleConfig) {
    AllCompile(compile, config.pass) && AllCompile(compile, config.fail) && AllCompile(compile, config.error)
  }

  lemma {:induction false} ListErrorIff(compile: Compiler, list: string, expressions: seq<string>, i: nat)
    requires i <= |expressions|
    ensures ListError(compile, list, expressions, i).None? <==>
      forall j | i <= j < |expressions| :: Trim(expressions[j]) == "" || compile(Trim(expressions[j])).None?
    decreases |expressions| - i
  {
    if i < |expressions| {
      ListErrorIff(compile, list, expressions, i + 1);
    }
  }

  lemma RuleErrorIff(compile: Compiler, config: RuleConfig)
    ensures RuleError(compile, config).None? <==> Compiles(compile, config)
  {
    ListErrorIff(compile, "pass", config.pass, 0);
    ListErrorIff(compile, "fail", config.fail, 0);
    ListErrorIff(compile, "error", config.error, 0);
  }

  /** Expression `i` is the first that is not blank and does not compile. */
  ghost predicate FirstBroken(compile: Compiler, expressions: seq<string>, i: int, message: string) {
    && 0 <= i < |expressions| && Trim(expressions[i]) != "" && compile(Trim(expressions[i])) == Some(message)
    && AllCompile(compile, expressions[..i])
  }

  ghost predicate BrokenIn(compile: Compiler, list: string, expressions: seq<string>, reason: Reason) {
    && reason.InvalidExpression? && reason.list == list
    && FirstBroken(compile, expressions, reason.index, reason.message)
  }

  /** What is wrong with a rule: its first broken pass condition, or else fail condition, or else error condition. */
  ghost predicate Objection(compile: Compiler, config: RuleConfig, reason: Reason) {
    if !AllCompile(compile, config.pass) then BrokenIn(compile, "pass", config.pass, reason)
    else if !AllCompile(compile, config.fail) then BrokenIn(compile, "fail", config.fail, reason)
    else BrokenIn(compile, "error", config.error, reason)
  }

  lemma {:induction false} ListErrorIsFirst(compile: Compiler, list: string, expressions: seq<string>, i: nat)
    requires i <= |expressions| && AllCompile(compile, expressions[..i])
    requires ListError(compile, list, expressions, i).Some?
    ensures BrokenIn(compile, list, expressions, ListError(compile, list, expressions, i).value)
    decreases |expressions| - i
  {
    if i < |expressions| && !(Trim(expressions[i]) != "" && compile(Trim(expressions[i])).Some?) {
      ListErrorIsFirst(compile, list, expressions, i + 1);
    }
  }

  lemma OneBroken(compile: Compiler, list: string, expressions: seq<string>, a: Reason, b: Reason)
    requires BrokenIn(compile, list, expressions, a) && BrokenIn(compile, list, expressions, b)
    ensures a == b
  {
    CompileBefore(compile, expressions, a.index);
    CompileBefore(compile, expressions, b.index);
  }

  lemma CompileBefore(compile: Compiler, expressions: seq<string>, i: nat)
    requires i <= |expressions| && AllCompile(compile, expressions[..i])
    ensures forall j | 0 <= j < i :: Trim(expressions[j]) == "" || compile(Trim(expressions[j])).None?
  {
    forall j | 0 <= j < i ensures Trim(expressions[j]) == "" || compile(Trim(expressions[j])).None? {
      assert expressions[..i][j] == expressions[j];
    }
  }

  lemma ListErrorIs(compile: Compiler, list: string, expressions: seq<string>, reason: Reason)
    ensures ListError(compile, list, expressions, 0).None? <==> AllCompile(compile, expressions)
    ensures ListError(compile, list, expressions, 0) == Some(reason) <==> BrokenIn(compile, list, expressions, reason)
  {
    ListErrorIff(compile, list, expressions, 0);
    var error := ListError(compile, list, expressions, 0);
    if error.Some? {
      ListErrorIsFirst(compile, list, expressions, 0);
      if BrokenIn(compile, list, expressions, reason) {
        OneBroken(compile, list, expressions, error.value, reason);
      }
    }
  }

  /** Validation names exactly that. */
  lemma RuleErrorIs(compile: Compiler, config: RuleConfig, reason: Reason)
    ensures RuleError(compile, config) == Some(reason) <==> Objection(compile, config, reason)
  {
    ListErrorIs(compile, "pass", config.pass, reason);
    ListErrorIs(compile, "fail", config.fail, reason);
    ListErrorIs(compile, "error", config.error, reason);
  }

  ghost predicate RuleLive(docs: multiset<Doc>, compile: Compiler, name: string) {
    exists d :: Once(docs, RulesOf, name, d) && Compiles(compile, d.rules[name])
  }

  /** The rules an endpoint names that are not live. */
  ghost function MissingFrom(docs: multiset<Doc>, compile: Compiler, config: EndpointConfig): set<string> {
    set ref | ref in config.refs && ref != "" && !RuleLive(docs, compile, ref)
  }

  ghost predicate EndpointLive(docs: multiset<Doc>, compile: Compiler, name: string) {
    exists d :: Once(docs, EndpointsOf, name, d) && MissingFrom(docs, compile, d.endpoints[name]) == {}
  }

  /** Why a defined rule is not live. */
  ghost predicate RuleReason(docs: multiset<Doc>, compile: Compiler, name: string, reason: Reason) {
    if exists d :: Once(docs, RulesOf, name, d)
    then exists d :: Once(docs, RulesOf, name, d) && Objection(compile, d.rules[name], reason)
    else reason == Duplicate
  }

  /** Why a defined endpoint is not live. */
  ghost predicate EndpointReason(docs: multiset<Doc>, compile: Compiler, name: string, reason: Reason) {
    if exists d :: Once(docs, EndpointsOf, name, d)
    then exists d :: Once(docs, EndpointsOf, name, d)
                     && reason == MissingRules(Listing(MissingFrom(docs, compile, d.endpoints[name])))
    else reason == Duplicate
  }

  ghost function SkippedRules(docs: multiset<Doc>, compile: Compiler): set<string> {
    set d, n | d in docs && n in d.rules && !RuleLive(docs, compile, n) :: n
  }

  ghost function SkippedEndpoints(docs: multiset<Doc>, compile: Compiler): set<string> {
    set d, n | d in docs && n in d.endpoints && !EndpointLive(docs, compile, n) :: n
  }

  ghost predicate DescribesRule(docs: multiset<Doc>, compile: Compiler, name: string, skip: DefinitionSkip) {
    && skip.kind == "rule" && skip.name == name
    && skip.sources == Listing(Sources(docs, RulesOf, name)) && RuleReason(docs, compile, name, skip.reason)
  }

  ghost predicate DescribesEndpoint(docs: multiset<Doc>, compile: Compiler, name: string, skip: DefinitionSkip) {
    && skip.kind == "endpoint" && skip.name == name
    && skip.sources == Listing(Sources(docs, EndpointsOf, name)) && EndpointReason(docs, compile, name, skip.reason)
  }

  ghost function NamedSources(docs: multiset<Doc>): set<string> {
    set d | d in docs && d.source != "" :: d.source
  }

  /** Exactly the live rules, each as its one document defines it. */
  ghost predicate RulesAre(docs: multiset<Doc>, compile: Compiler, rules: map<string, RuleConfig>) {
    && (forall n :: n in rules <==> RuleLive(docs, compile, n))
    && (forall n, d | n in rules && Once(docs, RulesOf, n, d) :: rules[n] == d.rules[n])
  }

  ghost predicate EndpointsAre(docs: multiset<Doc>, compile: Compiler, endpoints: map<string, EndpointConfig>) {
    && (forall n :: n in endpoints <==> EndpointLive(docs, compile, n))
    && (forall n, d | n in endpoints && Once(docs, EndpointsOf, n, d) :: endpoints[n] == d.endpoints[n])
  }

  /** The bundle of a collection of documents, whatever their order. */
  ghost predicate IsBundle(docs: multiset<Doc>, compile: Compiler, b: Bundle) {
    && RulesAre(docs, compile, b.rules) && EndpointsAre(docs, compile, b.endpoints)
    && b.sources == Listing(NamedSources(docs))
    && SkipsAre(docs, compile, b.skipped)
  }

  /** Exactly one entry per defined name that is not live, endpoints first, each kind ordered by name. */
  ghost predicate SkipsAre(docs: multiset<Doc>, compile: Compiler, skipped: seq<DefinitionSkip>) {
    var es, rs := Listing(SkippedEndpoints(docs, compile)), Listing(SkippedRules(docs, compile));
    && |skipped| == |es| + |rs|
    && (forall i | 0 <= i < |es| :: DescribesEndpoint(docs, compile, es[i], skipped[i]))
    && (forall i | 0 <= i < |rs| :: DescribesRule(docs, compile, rs[i], skipped[|es| + i]))
  }

  lemma SameSkip(docs: multiset<Doc>, compile: Compiler, name: string, a: DefinitionSkip, b: DefinitionSkip)
    requires (DescribesRule(docs, compile, name, a) && DescribesRule(docs, compile, name, b))
             || (DescribesEndpoint(docs, compile, name, a) && DescribesEndpoint(docs, compile, name, b))
    ensures a == b
  {
    if a.kind == "rule" && exists d :: Once(docs, RulesOf, name, d) {
      var d :| Once(docs, RulesOf, name, d);
      assert forall e | Once(docs, RulesOf, name, e) :: e == d;
      RuleErrorIs(compile, d.rules[name], a.reason);
      RuleErrorIs(compile, d.rules[name], b.reason);
    } else if a.kind == "endpoint" && exists d :: Once(docs, EndpointsOf, name, d) {
      var d :| Once(docs, EndpointsOf, name, d);
      assert forall e | Once(docs, EndpointsOf, name, e) :: e == d;
    }
  }

  lemma SameSkips(docs: multiset<Doc>, compile: Compiler, a: seq<DefinitionSkip>, b: seq<DefinitionSkip>)
    requires SkipsAre(docs, compile, a) && SkipsAre(docs, compile, b)
    ensures a == b
  {
    var es, rs := Listing(SkippedEndpoints(docs, compile)), Listing(SkippedRules(docs, compile));
    forall i | 0 <= i < |es| + |rs| ensures a[i] == b[i] {
      if i < |es| {
        SameSkip(docs, compile, es[i], a[i], b[i]);
      } else {
        var j := i - |es|;
        assert DescribesRule(docs, compile, rs[j], a[|es| + j]) && DescribesRule(docs, compile, rs[j], b[|es| + j]);
        SameSkip(docs, compile, rs[j], a[i], b[i]);
      }
    }
  }

  lemma SameRules(docs: multiset<Doc>, compile: Compiler, a: map<string, RuleConfig>, b: map<string, RuleConfig>)
    requires RulesAre(docs, compile, a) && RulesAre(docs, compile, b)
    ensures a == b
  {
    forall n | n in a ensures n in b && a[n] == b[n] {
      assert RuleLive(docs, compile, n);
      var d :| Once(docs, RulesOf, n, d) && Compiles(compile, d.rules[n]);
    }
    assert a.Keys == b.Keys;
  }

  lemma SameEndpoints(docs: multiset<Doc>, compile: Compiler,
                      a: map<string, EndpointConfig>, b: map<string, EndpointConfig>)
    requires EndpointsAre(docs, compile, a) && EndpointsAre(docs, compile, b)
    ensures a == b
  {
    forall n | n in a ensures n in b && a[n] == b[n] {
      assert EndpointLive(docs, compile, n);
      var d :| Once(docs, EndpointsOf, n, d) && MissingFrom(docs, compile, d.endpoints[n]) == {};
    }
    assert a.Keys == b.Keys;
  }

  /** There is only one bundle: neither document order nor map iteration order can show in the result. */
  lemma BundleIsUnique(docs: multiset<Doc>, compile: Compiler, a: Bundle, b: Bundle)
    requires IsBundle(docs, compile, a) && IsBundle(docs, compile, b)
    ensures a == b
  {
    SameSkips(docs, compile, a.skipped, b.skipped);
    SameRules(docs, compile, a.rules, b.rules);
    SameEndpoints(docs, compile, a.endpoints, b.endpoints);
  }

  // ---- Slots at the end of loading ----

  ghost predicate RuleFinal(docs: multiset<Doc>, compile: Compiler, name: string, slot: Slot<RuleConfig>) {
    match slot
    case Absent => !Defined(docs, RulesOf, name)
    case Live(config, _) =>
      exists d :: Once(docs, RulesOf, name, d) && Compiles(compile, d.rules[name]) && config == d.rules[name]
    case Skipped(skip) =>
      && Defined(docs, RulesOf, name) && !RuleLive(docs, compile, name)
      && RuleReason(docs, compile, name, skip.reason) && NoRepeats(skip.sources, Sources(docs, RulesOf, name))
  }

  ghost predicate EndpointFinal(docs: multiset<Doc>, compile: Compiler, name: string, slot: Slot<EndpointConfig>) {
    match slot
    case Absent => !Defined(docs, EndpointsOf, name)
    case Live(config, _) =>
      exists d :: Once(docs, EndpointsOf, name, d) && MissingFrom(docs, compile, d.endpoints[name]) == {}
                  && config == d.endpoints[name]
    case Skipped(skip) =>
      && Defined(docs, EndpointsOf, name) && !EndpointLive(docs, compile, name)
      && EndpointReason(docs, compile, name, skip.reason) && NoRepeats(skip.sources, Sources(docs, EndpointsOf, name))
  }

  lemma OnceSources<C(!new)>(docs: multiset<Doc>, get: Doc -> map<string, C>, name: string, d: Doc)
    requires Once(docs, get, name, d)
    ensures NoRepeats(AppendAll([], [d.source]), Sources(docs, get, name))
  {
    AppendAllMembers([], {}, [d.source]);
    assert {} + (set v | v in [d.source] && v != "") == Sources(docs, get, name);
  }

  function RuleCheck(compile: Compiler): RuleConfig -> Option<Reason> {
    config => RuleError(compile, config)
  }

  lemma RuleChecked(docs: multiset<Doc>, compile: Compiler, name: string, slot: Slot<RuleConfig>)
    requires Reads(docs, RulesOf, name, slot)
    ensures RuleFinal(docs, compile, name, CheckSlot(RuleCheck(compile), slot))
  {
    if slot.Live? {
      RuleErrorIff(compile, slot.config);
      if RuleError(compile, slot.config).Some? {
        RuleErrorIs(compile, slot.config, RuleError(compile, slot.config).value);
      }
      var d :| Once(docs, RulesOf, name, d) && slot.config == d.rules[name] && slot.source == d.source;
      OnceSources(docs, RulesOf, name, d);
      assert d in docs && name in RulesOf(d);
    }
  }

  /** The distinct references that are not blank and not live, in the order they are met. */
  function Missing(refs: seq<string>, live: map<string, RuleConfig>): seq<string> {
    if refs == [] then []
    else
      var ref, before := refs[|refs| - 1], Missing(refs[..|refs| - 1], live);
      if ref in live then before else AppendUnique(before, ref)
  }

  lemma {:induction false} MissingMembers(refs: seq<string>, live: map<string, RuleConfig>)
    ensures NoRepeats(Missing(refs, live), set ref | ref in refs && ref != "" && ref !in live)
  {
    if refs != [] {
      var ref, init := refs[|refs| - 1], refs[..|refs| - 1];
      MissingMembers(init, live);
      var before := set r | r in init && r != "" && r !in live;
      assert refs == init + [ref];
      AppendUniqueMembers(Missing(init, live), before, ref);
      assert (set r | r in refs && r != "" && r !in live) ==
             if ref == "" || ref in live then before else before + {ref};
    }
  }

  function EndpointCheck(live: map<string, RuleConfig>): EndpointConfig -> Option<Reason> {
    (config: EndpointConfig) =>
      if Missing(config.refs, live) == [] then None else Some(MissingRules(Sort(Missing(config.refs, live))))
  }

  lemma MissingIff(docs: multiset<Doc>, compile: Compiler, live: map<string, RuleConfig>, config: EndpointConfig)
    requires forall n :: n in live <==> RuleLive(docs, compile, n)
    ensures Missing(config.refs, live) == [] <==> MissingFrom(docs, compile, config) == {}
    ensures Sort(Missing(config.refs, live)) == Listing(MissingFrom(docs, compile, config))
  {
    MissingMembers(config.refs, live);
    var missing := MissingFrom(docs, compile, config);
    assert missing == set ref | ref in config.refs && ref != "" && ref !in live;
    SortIsListing(Missing(config.refs, live), missing);
    if missing != {} {
      var x :| x in missing;
      assert x in multiset(Missing(config.refs, live));
    }
  }

  lemma EndpointChecked(docs: multiset<Doc>, compile: Compiler, live: map<string, RuleConfig>, name: string,
                        slot: Slot<EndpointConfig>)
    requires Reads(docs, EndpointsOf, name, slot)
    requires forall n :: n in live <==> RuleLive(docs, compile, n)
    ensures EndpointFinal(docs, compile, name, CheckSlot(EndpointCheck(live), slot))
  {
    if slot.Live? {
      var d :| Once(docs, EndpointsOf, name, d) && slot.config == EndpointsOf(d)[name] && slot.source == d.source;
      LiveEndpointChecked(docs, compile, live, name, d);
    }
  }

  lemma LiveEndpointChecked(docs: multiset<Doc>, compile: Compiler, live: map<string, RuleConfig>, name: string, d: Doc)
    requires Once(docs, EndpointsOf, name, d)
    requires forall n :: n in live <==> RuleLive(docs, compile, n)
    ensures EndpointFinal(docs, compile, name, CheckSlot(EndpointCheck(live), Live(d.endpoints[name], d.source)))
  {
    MissingIff(docs, compile, live, d.endpoints[name]);
    OnceSources(docs, EndpointsOf, name, d);
    assert d in docs && name in EndpointsOf(d);
  }

  lemma RuleLiveIff(docs: multiset<Doc>, compile: Compiler, name: string, slot: Slot<RuleConfig>)
    requires RuleFinal(docs, compile, name, slot)
    ensures slot.Live? <==> RuleLive(docs, compile, name)
    ensures slot.Skipped? <==> Defined(docs, RulesOf, name) && !RuleLive(docs, compile, name)
    ensures forall d | slot.Live? && Once(docs, RulesOf, name, d) :: slot.config == d.rules[name]
  {
    forall d | Once(docs, RulesOf, name, d) ensures Defined(docs, RulesOf, name) {
      assert d in docs && name in RulesOf(d);
    }
  }

  lemma EndpointLiveIff(docs: multiset<Doc>, compile: Compiler, name: string, slot: Slot<EndpointConfig>)
    requires EndpointFinal(docs, compile, name, slot)
    ensures slot.Live? <==> EndpointLive(docs, compile, name)
    ensures slot.Skipped? <==> Defined(docs, EndpointsOf, name) && !EndpointLive(docs, compile, name)
    ensures forall d | slot.Live? && Once(docs, EndpointsOf, name, d) :: slot.config == d.endpoints[name]
  {
    forall d | Once(docs, EndpointsOf, name, d) ensures Defined(docs, EndpointsOf, name) {
      assert d in docs && name in EndpointsOf(d);
    }
  }

  // ---- From final slots to the bundle ----

  function Describe(kind: string, names: seq<string>, skips: map<string, Skip>): (r: seq<DefinitionSkip>)
    requires forall n | n in names :: n in skips
    ensures |r| == |names|
    ensures forall i | 0 <= i < |names| ::
      r[i] == DefinitionSkip(kind, names[i], skips[names[i]].reason, Sort(skips[names[i]].sources))
  {
    seq(|names|, i requires 0 <= i < |names| =>
      DefinitionSkip(kind, names[i], skips[names[i]].reason, Sort(skips[names[i]].sources)))
  }

  ghost predicate AllRulesFinal(docs: multiset<Doc>, compile: Compiler,
                                live: map<string, RuleConfig>, sources: map<string, string>, skips: map<string, Skip>) {
    && live.Keys == sources.Keys && live.Keys !! skips.Keys
    && forall n :: RuleFinal(docs, compile, n, SlotIn(live, sources, skips, n))
  }

  ghost predicate AllEndpointsFinal(docs: multiset<Doc>, compile: Compiler,
                                    live: map<string, EndpointConfig>, sources: map<string, string>,
                                    skips: map<string, Skip>) {
    && live.Keys == sources.Keys && live.Keys !! skips.Keys
    && forall n :: EndpointFinal(docs, compile, n, SlotIn(live, sources, skips, n))
  }

  lemma FinalRules(docs: multiset<Doc>, compile: Compiler,
                   live: map<string, RuleConfig>, sources: map<string, string>, skips: map<string, Skip>)
    requires AllRulesFinal(docs, compile, live, sources, skips)
    ensures forall n :: n in live <==> RuleLive(docs, compile, n)
    ensures forall n, d | n in live && Once(docs, RulesOf, n, d) :: live[n] == d.rules[n]
    ensures skips.Keys == SkippedRules(docs, compile)
    ensures forall n | n in skips ::
      DescribesRule(docs, compile, n, DefinitionSkip("rule", n, skips[n].reason, Sort(skips[n].sources)))
  {
    forall n
      ensures n in live <==> RuleLive(docs, compile, n)
      ensures forall d | n in live && Once(docs, RulesOf, n, d) :: live[n] == d.rules[n]
      ensures n in skips <==> Defined(docs, RulesOf, n) && !RuleLive(docs, compile, n)
      ensures n in skips ==>
        DescribesRule(docs, compile, n, DefinitionSkip("rule", n, skips[n].reason, Sort(skips[n].sources)))
    {
      var slot := SlotIn(live, sources, skips, n);
      assert RuleFinal(docs, compile, n, slot);
      RuleLiveIff(docs, compile, n, slot);
      if n in skips {
        SortIsListing(skips[n].sources, Sources(docs, RulesOf, n));
      }
    }
    forall n ensures n in SkippedRules(docs, compile) <==> Defined(docs, RulesOf, n) && !RuleLive(docs, compile, n) {
      assert forall d :: RulesOf(d) == d.rules;
    }
  }

  lemma FinalEndpoints(docs: multiset<Doc>, compile: Compiler,
                       live: map<string, EndpointConfig>, sources: map<string, string>, skips: map<string, Skip>)
    requires AllEndpointsFinal(docs, compile, live, sources, skips)
    ensures forall n :: n in live <==> EndpointLive(docs, compile, n)
    ensures forall n, d | n in live && Once(docs, EndpointsOf, n, d) :: live[n] == d.endpoints[n]
    ensures skips.Keys == SkippedEndpoints(docs, compile)
    ensures forall n | n in skips ::
      DescribesEndpoint(docs, compile, n, DefinitionSkip("endpoint", n, skips[n].reason, Sort(skips[n].sources)))
  {
    forall n
      ensures n in live <==> EndpointLive(docs, compile, n)
      ensures forall d | n in live && Once(docs, EndpointsOf, n, d) :: live[n] == d.endpoints[n]
      ensures n in skips <==> Defined(docs, EndpointsOf, n) && !EndpointLive(docs, compile, n)
      ensures n in skips ==>
        DescribesEndpoint(docs, compile, n, DefinitionSkip("endpoint", n, skips[n].reason, Sort(skips[n].sources)))
    {
      var slot := SlotIn(live, sources, skips, n);
      assert EndpointFinal(docs, compile, n, slot);
      EndpointLiveIff(docs, compile, n, slot);
      if n in skips {
        SortIsListing(skips[n].sources, Sources(docs, EndpointsOf, n));
      }
    }
    forall n ensures n in SkippedEndpoints(docs, compile) <==>
      Defined(docs, EndpointsOf, n) && !EndpointLive(docs, compile, n) {
      assert forall d :: EndpointsOf(d) == d.endpoints;
    }
  }

  // ---- The aggregator ----

  /** The skips of one kind, ordered by name, each with its sources sorted. */
  method DescribeSkips(kind: string, skips: map<string, Skip>) returns (list: seq<DefinitionSkip>)
    ensures Listed(kind, skips, list)
  {
    var names := KeysInAnyOrder(skips);
    SortIsListing(names, skips.Keys);
    ListingKeys(skips);
    list := DescribeNamed(kind, Sort(names), skips);
  }

  ghost predicate Listed(kind: string, skips: map<string, Skip>, list: seq<DefinitionSkip>) {
    ListingKeys(skips);
    list == Describe(kind, Listing(skips.Keys), skips)
  }

  method DescribeNamed(kind: string, names: seq<string>, skips: map<string, Skip>) returns (list: seq<DefinitionSkip>)
    requires forall n | n in names :: n in skips
    ensures list == Describe(kind, names, skips)
  {
    list := [];
    for i := 0 to |names|
      invariant list == Describe(kind, names[..i], skips)
    {
      list := list + [DefinitionSkip(kind, names[i], skips[names[i]].reason, Sort(skips[names[i]].sources))];
    }
    assert names[..|names|] == names;
  }

  lemma RulesListed(docs: multiset<Doc>, compile: Compiler,
                    live: map<string, RuleConfig>, sources: map<string, string>, skips: map<string, Skip>,
                    list: seq<DefinitionSkip>)
    requires AllRulesFinal(docs, compile, live, sources, skips) && Listed("rule", skips, list)
    ensures var names := Listing(SkippedRules(docs, compile));
      |list| == |names| && forall i | 0 <= i < |names| :: DescribesRule(docs, compile, names[i], list[i])
  {
    FinalRules(docs, compile, live, sources, skips);
    ListingKeys(skips);
    var names := Listing(skips.Keys);
    assert forall i | 0 <= i < |names| :: names[i] in names;
  }

  lemma EndpointsListed(docs: multiset<Doc>, compile: Compiler,
                        live: map<string, EndpointConfig>, sources: map<string, string>, skips: map<string, Skip>,
                        list: seq<DefinitionSkip>)
    requires AllEndpointsFinal(docs, compile, live, sources, skips) && Listed("endpoint", skips, list)
    ensures var names := Listing(SkippedEndpoints(docs, compile));
      |list| == |names| && forall i | 0 <= i < |names| :: DescribesEndpoint(docs, compile, names[i], list[i])
  {
    FinalEndpoints(docs, compile, live, sources, skips);
    ListingKeys(skips);
    var names := Listing(skips.Keys);
    assert forall i | 0 <= i < |names| :: names[i] in names;
  }

  lemma SkipsJoin(docs: multiset<Doc>, compile: Compiler, es: seq<DefinitionSkip>, rs: seq<DefinitionSkip>)
    requires var names := Listing(SkippedRules(docs, compile));
      |rs| == |names| && forall i | 0 <= i < |names| :: DescribesRule(docs, compile, names[i], rs[i])
    requires var names := Listing(SkippedEndpoints(docs, compile));
      |es| == |names| && forall i | 0 <= i < |names| :: DescribesEndpoint(docs, compile, names[i], es[i])
    ensures SkipsAre(docs, compile, es + rs)
  {
    assert forall i | 0 <= i < |rs| :: (es + rs)[|es| + i] == rs[i];
  }

  lemma NamedSourcesStep(docs: seq<Doc>, doc: Doc)
    ensures NamedSources(multiset(docs + [doc])) ==
            NamedSources(multiset(docs)) + (if doc.source != "" then {doc.source} else {})
  {
    assert forall d :: d in multiset(docs + [doc]) <==> d in multiset(docs) || d == doc;
  }

  lemma FoldedStep<C>(docs: seq<Doc>, get: Doc -> map<string, C>, doc: Doc, name: string)
    ensures Folded(docs + [doc], get, name) ==
            if name in get(doc) then AddSlot(Folded(docs, get, name), get(doc)[name], doc.source)
              else Folded(docs, get, name)
  {
    assert (docs + [doc])[..|docs|] == docs;
  }

  class RuleAggregator {
    const endpoints: Table<EndpointConfig>
    const rules: Table<RuleConfig>
    var sources: map<string, ()>
    ghost var added: seq<Doc>

    ghost predicate Valid()
      reads this, endpoints, rules
    {
      endpoints.Valid() && rules.Valid() && sources.Keys == NamedSources(multiset(added))
    }

    ghost predicate EndpointsLoaded()
      requires endpoints.Valid()
      reads this, endpoints
    {
      forall n :: endpoints.SlotOf(n) == Folded(added, EndpointsOf, n)
    }

    ghost predicate RulesLoaded()
      requires rules.Valid()
      reads this, rules
    {
      forall n :: rules.SlotOf(n) == Folded(added, RulesOf, n)
    }

    ghost predicate RulesChecked(compile: Compiler)
      reads this, rules
    {
      AllRulesFinal(multiset(added), compile, rules.live, rules.sources, rules.skips)
    }

    constructor ()
      ensures Valid() && EndpointsLoaded() && RulesLoaded() && added == [] && fresh(endpoints) && fresh(rules)
    {
      endpoints := new Table<EndpointConfig>();
      rules := new Table<RuleConfig>();
      sources := map[];
      added := [];
    }

    method AddDocument(doc: Doc)
      requires Valid() && EndpointsLoaded() && RulesLoaded()
      modifies this, endpoints, rules
      ensures Valid() && EndpointsLoaded() && RulesLoaded() && added == old(added) + [doc]
    {
      NamedSourcesStep(added, doc);
      if doc.source != "" {
        sources := sources[doc.source := ()];
      }
      endpoints.AddAll(doc.endpoints, doc.source);
      rules.AddAll(doc.rules, doc.source);
      added := added + [doc];
      forall n
        ensures endpoints.SlotOf(n) == Folded(added, EndpointsOf, n)
        ensures rules.SlotOf(n) == Folded(added, RulesOf, n)
      {
        FoldedStep(old(added), EndpointsOf, doc, n);
        FoldedStep(old(added), RulesOf, doc, n);
      }
    }

    method ValidateRuleExpressions(compile: Compiler)
      requires Valid() && RulesLoaded()
      modifies rules
      ensures Valid() && RulesChecked(compile)
    {
      forall n ensures RuleFinal(multiset(added), compile, n, CheckSlot(RuleCheck(compile), rules.SlotOf(n))) {
        FoldedReads(added, RulesOf, n);
        RuleChecked(multiset(added), compile, n, rules.SlotOf(n));
      }
      rules.RejectWhere(RuleCheck(compile));
      assert forall n :: rules.SlotOf(n) == SlotIn(rules.live, rules.sources, rules.skips, n);
    }

    method PruneInvalidEndpoints(ghost compile: Compiler)
      requires Valid() && EndpointsLoaded() && RulesChecked(compile)
      modifies endpoints
      ensures Valid()
      ensures AllEndpointsFinal(multiset(added), compile, endpoints.live, endpoints.sources, endpoints.skips)
    {
      FinalRules(multiset(added), compile, rules.live, rules.sources, rules.skips);
      forall n
        ensures EndpointFinal(multiset(added), compile, n, CheckSlot(EndpointCheck(rules.live), endpoints.SlotOf(n))) {
        FoldedReads(added, EndpointsOf, n);
        EndpointChecked(multiset(added), compile, rules.live, n, endpoints.SlotOf(n));
      }
      endpoints.RejectWhere(EndpointCheck(rules.live));
      assert forall n :: endpoints.SlotOf(n) == SlotIn(endpoints.live, endpoints.sources, endpoints.skips, n);
    }

    method MakeBundle(ghost compile: Compiler) returns (b: Bundle)
      requires Valid() && EndpointsLoaded() && RulesChecked(compile)
      modifies endpoints
      ensures IsBundle(multiset(added), compile, b)
    {
      PruneInvalidEndpoints(compile);
      var endpointSkips := DescribeSkips("endpoint", endpoints.skips);
      var ruleSkips := DescribeSkips("rule", rules.skips);
      var names := KeysInAnyOrder(sources);
      SortIsListing(names, sources.Keys);
      b := Bundle(endpoints.live, rules.live, Sort(names), endpointSkips + ruleSkips);
      ghost var docs := multiset(added);
      FinalRules(docs, compile, rules.live, rules.sources, rules.skips);
      FinalEndpoints(docs, compile, endpoints.live, endpoints.sources, endpoints.skips);
      RulesListed(docs, compile, rules.live, rules.sources, rules.skips, ruleSkips);
      EndpointsListed(docs, compile, endpoints.live, endpoints.sources, endpoints.skips, endpointSkips);
      SkipsJoin(docs, compile, endpointSkips, ruleSkips);
    }
  }

  /** Load every document, validate, prune and bundle. */
  method BuildRuleBundle(docs: seq<Doc>, compile: Compiler) returns (b: Bundle)
    ensures IsBundle(multiset(docs), compile, b)
  {
    var agg := new RuleAggregator();
    for i := 0 to |docs|
      invariant agg.Valid() && agg.EndpointsLoaded() && agg.RulesLoaded() && agg.added == docs[..i]
      invariant fresh(agg) && fresh(agg.endpoints) && fresh(agg.rules)
    {
      agg.AddDocument(docs[i]);
      assert docs[..i + 1] == docs[..i] + [docs[i]];
    }
    assert docs[..|docs|] == docs;
    agg.ValidateRuleExpressions(compile);
    b := agg.MakeBundle(compile);
  }
}
