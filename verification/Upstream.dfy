/** Exported variables over whole runs: what a hit says about them, and rules that defeat their own cache. */
module Upstream {
  import opened Wrappers
  import opened State
  import opened CacheKeys
  import opened Variables
  import opened RuleSpec
  import opened Records
  import opened Repeats
  import opened Runs
  import opened Origins
  import opened Ttl

  // ---- What a configuration may export ----

  /** One of the expressions that a rule exports, for any outcome, has this name. */
  ghost predicate ExportsName(rule: Rule, name: string) {
    exists outcome, k :: 0 <= k < |ExportsFor(rule, outcome)| && ExportsFor(rule, outcome)[k].name == name
  }

  /** The variables that the rules of a configuration may export. */
  ghost function ExportedBy(config: Config): Exported {
    (rule, name) =>
      exists e, i :: e in config && 0 <= i < |config[e].rules| && config[e].rules[i].name == rule
        && ExportsName(config[e].rules[i], name)
  }

  /** No exported name holds a '=', and no two exports of the configuration have the same dotted name. */
  ghost predicate ToldApart(config: Config) { NoEquals(ExportedBy(config)) && DotsTell(ExportedBy(config)) }

  /** Whatever the rule exports evaluates to JSON values. */
  ghost predicate JsonRule(env: Env, rule: Rule) {
    forall outcome, k, v, vars | 0 <= k < |ExportsFor(rule, outcome)| ::
      JsonResult(env, ExportsFor(rule, outcome)[k].eval(v, vars))
  }

  ghost predicate JsonResult(env: Env, r: Result<string, string>) { r.Ok? ==> env.json(r.value) }

  ghost predicate JsonConfig(env: Env, config: Config) {
    forall e, i | e in config && 0 <= i < |config[e].rules| :: JsonRule(env, config[e].rules[i])
  }

  ghost predicate JsonActions(env: Env, actions: seq<Action>) {
    forall i | 0 <= i < |actions| :: actions[i].Reload? ==> JsonConfig(env, actions[i].config)
  }

  lemma {:induction false} ExportsAreNamed(env: Env, bindings: seq<Binding>, v: View, n: string)
    requires forall k, vars | 0 <= k < |bindings| :: JsonResult(env, bindings[k].eval(v, vars))
    requires EvalExports(bindings, v).Some? && n in EvalExports(bindings, v).value
    ensures env.json(EvalExports(bindings, v).value[n]) && exists k :: 0 <= k < |bindings| && bindings[k].name == n
  {
    var init, last := bindings[..|bindings| - 1], bindings[|bindings| - 1];
    if n == last.name {
      assert JsonResult(env, last.eval(v, map[]));
      assert bindings[|bindings| - 1].name == n;
    } else {
      ExportsAreNamed(env, init, v, n);
      var k :| 0 <= k < |init| && init[k].name == n;
      assert bindings[k].name == n;
    }
  }

  ghost function FitsKind(env: Env, exported: Exported, rule: string): Vars -> bool {
    vars => Fits(env.json, exported, rule, vars)
  }

  lemma PlannedExports(config: Config, q: Incoming, rule: Rule, n: string)
    requires rule in Plan(config, q) && ExportsName(rule, n)
    ensures ExportedBy(config)(rule.name, n)
  {
    var rules := Plan(config, q);
    var i :| 0 <= i < |rules| && rules[i] == rule;
    assert q.endpoint in config && config[q.endpoint].rules[i] == rule;
  }

  /** What a planned rule exports fits the configuration. */
  lemma PlannedYields(env: Env, config: Config, q: Incoming, rule: Rule)
    requires rule in Plan(config, q) && JsonRule(env, rule)
    ensures Yields(rule, FitsKind(env, ExportedBy(config), rule.name))
  {
    var kind := FitsKind(env, ExportedBy(config), rule.name);
    forall outcome, v
      ensures match EvalExports(ExportsFor(rule, outcome), v) case None => true case Some(vars) => kind(vars)
    {
      var bindings := ExportsFor(rule, outcome);
      if EvalExports(bindings, v).Some? {
        var vars := EvalExports(bindings, v).value;
        forall n | n in vars ensures ExportedBy(config)(rule.name, n) && env.json(vars[n]) {
          ExportsAreNamed(env, bindings, v, n);
          var k :| 0 <= k < |bindings| && bindings[k].name == n;
          assert 0 <= k < |ExportsFor(rule, outcome)| && ExportsFor(rule, outcome)[k].name == n;
          PlannedExports(config, q, rule, n);
        }
        assert Fits(env.json, ExportedBy(config), rule.name, vars);
      }
    }
  }

  // ---- One evaluation, whatever evaluates it ----

  /** A stored evaluation shows what its rule exports for the outcome. */
  ghost predicate ShowsExports(r: Evaluation) {
    r.entry.Some? ==> var exports := ExportsFor(r.rule, r.verdict.outcome);
      exports != [] && Total(exports) ==> r.rule.name in r.storeVars
  }

  ghost predicate Tidies(env: Env, rule: Rule, w: World, v: View, s: Step) {
    && s.record.rule == rule && ShowsExports(s.record)
    && forall kind | Yields(rule, kind) && RestoresKind(env, kind, w.contents, s.record) ::
         KeepsKind(kind, rule, v.rules, s)
  }

  ghost predicate Tidy(env: Env, eval: Evaluator) {
    forall rule, w, v :: Tidies(env, rule, w, v, eval(rule, w, v))
  }

  lemma EvaluationIsTidy(env: Env, rule: Rule, w: World, v: View)
    requires Clockwork(env) && env.serverMax > 0
    ensures Tidies(env, rule, w, v, Evaluate(env, rule, w, v))
  {
    var s := Evaluate(env, rule, w, v);
    EvaluationPromises(env, rule, w, v);
    forall kind | Yields(rule, kind) && RestoresKind(env, kind, w.contents, s.record)
      ensures KeepsKind(kind, rule, v.rules, s)
    {
      EvaluationKeepsKind(env, kind, rule, w, v);
    }
    if s.record.entry.Some? {
      StoredExports(env, rule, w, v);
    }
  }

  lemma RulesAreTidy(env: Env)
    requires Clockwork(env) && env.serverMax > 0
    ensures Tidy(env, EvaluatorOf(env))
  {
    forall rule, w, v ensures Tidies(env, rule, w, v, EvaluatorOf(env)(rule, w, v)) {
      EvaluationIsTidy(env, rule, w, v);
    }
  }

  // ---- The variables of every record fit its configuration ----

  ghost predicate RecordFits(env: Env, exported: Exported, r: Evaluation) {
    && Over(env.json, exported, r.vars) && Over(env.json, exported, r.storeVars) && ShowsExports(r)
    && (r.entry.Some? ==> Holds(FitsKind(env, exported, r.rule.name), r.entry.value.exported))
  }

  ghost predicate FitsLog(env: Env, log: seq<Event>) {
    forall i | 0 <= i < |log| && log[i].Evaluated? :: RecordFits(env, ExportedBy(log[i].config), log[i].record)
  }

  /** Everything an evaluation relies on: what the cache holds is backed, and the records behind it fit. */
  ghost predicate Whole(env: Env, site: Site, s: System) {
    Inv(env, site, s) && Traced(site, s.config, s.log) && FitsLog(env, s.log)
  }

  lemma ExtendsOver(env: Env, exported: Exported, name: string, before: map<string, Vars>, after: map<string, Vars>)
    requires Over(env.json, exported, before) && Extends(FitsKind(env, exported, name), name, before, after)
    ensures Over(env.json, exported, after)
  {
  }

  /** What a hit restores was stored by a rule of the same name under the same configuration, and so fits. */
  lemma HitRestores(env: Env, site: Site, s: System, rule: Rule, r: Evaluation)
    requires Sane(env) && SiteOk(site) && Whole(env, site, s) && RecordOk(site, r) && r.rule == rule
    requires HitIsHeld(env, s.world.contents, r)
    ensures RestoresKind(env, FitsKind(env, ExportedBy(s.config), rule.name), s.world.contents, r)
  {
    if r.hit {
      var i := HeldWasStored(env, site, s, r);
      EraFits(env, site, s, i);
      DecodedFits(env, ExportedBy(s.config), rule.name, s.log[i].record.entry.value);
    }
  }

  /** Event `i` is an evaluation since the last purge whose entry is held under `key`. */
  ghost predicate Holder(env: Env, s: System, i: nat, key: string) {
    && i < |s.log| && s.log[i].Evaluated? && SameEra(s.log, i, |s.log|) && s.log[i].record.entry.Some?
    && var e := s.log[i].record.entry.value;
       env.toJson(e).Some? && key in s.world.contents && s.world.contents[key] == StoredAs(env, e)
  }

  lemma HeldWasStored(env: Env, site: Site, s: System, r: Evaluation) returns (i: nat)
    requires Sane(env) && SiteOk(site) && Inv(env, site, s) && RecordOk(site, r)
    requires r.hit && HitIsHeld(env, s.world.contents, r)
    ensures Holder(env, s, i, r.lookupKey) && s.log[i].record.rule.name == r.rule.name
  {
    i :| Backs(env, s, r.lookupKey, i);
    var a := s.log[i].record;
    assert RecordOk(site, a);
    SharedKey(env, site, a, r);
  }

  lemma EraFits(env: Env, site: Site, s: System, i: nat)
    requires Whole(env, site, s) && i < |s.log| && s.log[i].Evaluated? && SameEra(s.log, i, |s.log|)
    ensures RecordFits(env, ExportedBy(s.config), s.log[i].record)
  {
  }

  lemma DecodedFits(env: Env, exported: Exported, name: string, e: RuleEntry)
    requires Lossless(env) && env.toJson(e).Some? && Holds(FitsKind(env, exported, name), e.exported)
    ensures var read := env.fromJson(env.toJson(e).value);
      read.Some? && Holds(FitsKind(env, exported, name), read.value.exported)
  {
    assert KeptBy(env, e, env.fromJson(env.toJson(e).value));
  }

  lemma StepFits(env: Env, site: Site, s: System, q: Incoming, rule: Rule, v: View, step: Step)
    requires Sane(env) && SiteOk(site) && Whole(env, site, s) && JsonRule(env, rule) && rule in Plan(s.config, q)
    requires Promises(env, rule, s.world, v, step) && Tidies(env, rule, s.world, v, step)
    requires RecordOk(site, step.record) && Over(env.json, ExportedBy(s.config), v.rules)
    ensures RecordFits(env, ExportedBy(s.config), step.record)
    ensures Over(env.json, ExportedBy(s.config), step.view.rules)
  {
    var exported := ExportedBy(s.config);
    var kind := FitsKind(env, exported, rule.name);
    PlannedYields(env, s.config, q, rule);
    HitRestores(env, site, s, rule, step.record);
    assert KeepsKind(kind, rule, v.rules, step);
    ExtendsOver(env, exported, rule.name, v.rules, step.record.storeVars);
  }

  lemma FitsGrows(env: Env, log: seq<Event>, e: Event)
    requires FitsLog(env, log) && (e.Evaluated? ==> RecordFits(env, ExportedBy(e.config), e.record))
    ensures FitsLog(env, log + [e])
  {
    var more := log + [e];
    assert forall k | 0 <= k < |log| :: more[k] == log[k];
  }

  /** One evaluation of a planned rule keeps the whole invariant. */
  lemma EvaluationKeepsWhole(env: Env, site: Site, s: System, q: Incoming, rule: Rule, v: View, step: Step)
    requires Sane(env) && SiteOk(site) && Whole(env, site, s) && JsonRule(env, rule) && rule in Plan(s.config, q)
    requires Promises(env, rule, s.world, v, step) && Tidies(env, rule, s.world, v, step)
    requires PipeFree(rule.name) && v.cacheKey == StartView(site, s.config, q).cacheKey && BaseOk(site, v.cacheKey)
    requires Over(env.json, ExportedBy(s.config), v.rules)
    ensures Whole(env, site, Append(s, step.world, step.record, q))
    ensures Over(env.json, ExportedBy(s.config), step.view.rules)
  {
    StepFits(env, site, s, q, rule, v, step);
    EvaluationKeepsInv(env, site, s, q, rule, v, step);
    FitsGrows(env, s.log, Evaluated(step.record, s.config, q));
    TracedGrows(site, s.config, s.log, Evaluated(step.record, s.config, q), s.config);
  }

  ghost predicate Planned(env: Env, config: Config, q: Incoming, rules: seq<Rule>) {
    forall i | 0 <= i < |rules| :: rules[i] in Plan(config, q) && JsonRule(env, rules[i]) && PipeFree(rules[i].name)
  }

  lemma PlannedTail(env: Env, config: Config, q: Incoming, rules: seq<Rule>)
    requires Planned(env, config, q, rules) && rules != []
    ensures Planned(env, config, q, rules[1..])
  {
    assert forall i | 0 <= i < |rules[1..]| :: rules[1..][i] == rules[i + 1];
  }

  lemma {:induction false} ChainKeepsWhole(env: Env, site: Site, eval: Evaluator, s: System, q: Incoming,
                                           rules: seq<Rule>, v: View)
    requires Sane(env) && SiteOk(site) && Trustworthy(env, eval) && Tidy(env, eval) && Whole(env, site, s)
    requires Planned(env, s.config, q, rules)
    requires v.cacheKey == StartView(site, s.config, q).cacheKey && BaseOk(site, v.cacheKey)
    requires Over(env.json, ExportedBy(s.config), v.rules)
    ensures var c := RunChain(eval, rules, s.world, v);
      Whole(env, site, System(s.config, c.world, s.log + Events(s.config, q, c.records)))
    decreases rules
  {
    var c := RunChain(eval, rules, s.world, v);
    if rules == [] {
      assert s.log + Events(s.config, q, c.records) == s.log;
    } else {
      var step := eval(rules[0], s.world, ResetCache(v));
      assert Promises(env, rules[0], s.world, ResetCache(v), step);
      assert Tidies(env, rules[0], s.world, ResetCache(v), step);
      EvaluationKeepsWhole(env, site, s, q, rules[0], ResetCache(v), step);
      var t := Append(s, step.world, step.record, q);
      if step.record.verdict.outcome != Pass {
        EventsOne(s.config, q, step.record);
      } else {
        PlannedTail(env, s.config, q, rules);
        ChainKeepsWhole(env, site, eval, t, q, rules[1..], Concluded(step));
        var rest := RunChain(eval, rules[1..], step.world, Concluded(step));
        EventsCons(s.config, q, s.log, step.record, rest.records);
        assert System(s.config, c.world, s.log + Events(s.config, q, c.records))
            == System(t.config, rest.world, t.log + Events(t.config, q, rest.records));
      }
    }
  }

  lemma PlanIsPlanned(env: Env, config: Config, q: Incoming)
    requires JsonConfig(env, config) && ConfigOk(config)
    ensures Planned(env, config, q, Plan(config, q))
  {
  }

  lemma StepKeepsWhole(env: Env, site: Site, s: System, a: Action)
    requires Sane(env) && SiteOk(site) && ConfigOk(s.config) && JsonConfig(env, s.config) && Whole(env, site, s)
    ensures Whole(env, site, Next(env, site, s, a))
  {
    match a
    case Serve(incoming) =>
      var start := StartView(site, s.config, incoming);
      assert BaseOk(site, start.cacheKey);
      RulesAreTrustworthy(env);
      RulesAreTidy(env);
      PlanIsPlanned(env, s.config, incoming);
      ChainKeepsWhole(env, site, EvaluatorOf(env), s, incoming, Plan(s.config, incoming), start);
    case Reload(config) =>
      StepKeepsInv(env, site, s, a);
      FitsGrows(env, s.log, Purged);
      TracedGrows(site, s.config, s.log, Purged, config);
  }

  /** In every run the variables of every record fit its configuration, and no rule has exported an empty set. */
  lemma {:induction false} RunKeepsWhole(env: Env, site: Site, config: Config, actions: seq<Action>)
    requires Sane(env) && SiteOk(site) && ConfigOk(config) && ActionsOk(actions)
    requires JsonConfig(env, config) && JsonActions(env, actions)
    ensures var s := Run(env, site, config, actions);
      Whole(env, site, s) && ConfigOk(s.config) && JsonConfig(env, s.config)
  {
    if actions != [] {
      RunKeepsWhole(env, site, config, actions[..|actions| - 1]);
      StepKeepsWhole(env, site, Run(env, site, config, actions[..|actions| - 1]), actions[|actions| - 1]);
    }
  }

  /** Variables that take part in one of the keys take part in both and, where they are told apart, are the same. */
  ghost predicate SharesVars(config: Config, a: Evaluation, b: Evaluation) {
    && ShowsExports(a)
    && (HashesVars(a.rule, a.storeVars) || HashesVars(b.rule, b.vars) ==>
          && HashesVars(a.rule, a.storeVars) && HashesVars(b.rule, b.vars)
          && (ToldApart(config) ==> a.storeVars == b.vars))
  }

  /**
    Where the dotted names of the configuration in force tell its exports apart, a hit of a strict rule was answered
    by an evaluation that had exactly the same exported variables when it was stored.
   */
  lemma HitSharesVariables(env: Env, site: Site, config: Config, actions: seq<Action>, j: nat) returns (i: nat)
    requires Sane(env) && Collisionless(env) && SelfDelimiting(env.json)
    requires SiteOk(site) && ConfigOk(config) && ActionsOk(actions)
    requires JsonConfig(env, config) && JsonActions(env, actions)
    requires var log := Run(env, site, config, actions).log; j < |log| && log[j].Evaluated? && log[j].record.hit
    ensures var log := Run(env, site, config, actions).log;
      && i < j && log[i].Evaluated? && !log[i].record.hit && log[i].record.entry.Some?
      && log[i].config == log[j].config && (Coherent(log[j].config) ==> log[i].record.rule == log[j].record.rule)
      && var a, b := log[i].record, log[j].record;
         && a.rule.name == b.rule.name && a.verdict == b.verdict && b.verdict.outcome != Error
         && SharesVars(log[j].config, a, b)
  {
    i := HitRepeatsFresh(env, site, config, actions, j);
    RunFits(env, site, config, actions);
    WholeAgrees(env, site, Run(env, site, config, actions), i, j);
  }

  lemma RunFits(env: Env, site: Site, config: Config, actions: seq<Action>)
    requires Sane(env) && SiteOk(site) && ConfigOk(config) && ActionsOk(actions)
    requires JsonConfig(env, config) && JsonActions(env, actions)
    ensures var s := Run(env, site, config, actions); Traced(site, s.config, s.log) && FitsLog(env, s.log)
  {
    RunKeepsWhole(env, site, config, actions);
  }

  lemma WholeAgrees(env: Env, site: Site, s: System, i: nat, j: nat)
    requires SelfDelimiting(env.json) && Traced(site, s.config, s.log) && FitsLog(env, s.log)
    requires i < j < |s.log| && s.log[i].Evaluated? && s.log[j].Evaluated? && forall k | i < k < j :: !s.log[k].Purged?
    requires var a, b := s.log[i].record, s.log[j].record; a.base == b.base != "" && a.rule.name == b.rule.name
    requires SharesText(s.log[i].record, s.log[j].record)
    ensures s.log[i].config == s.log[j].config
    ensures Coherent(s.log[j].config) ==> s.log[i].record.rule == s.log[j].record.rule
    ensures SharesVars(s.log[j].config, s.log[i].record, s.log[j].record)
  {
    EraAgrees(site, s.config, s.log, i, j);
    RecordsAgree(env, s.log[i], s.log[j]);
  }

  lemma RecordsAgree(env: Env, a: Event, b: Event)
    requires SelfDelimiting(env.json) && a.Evaluated? && b.Evaluated? && a.config == b.config
    requires RecordFits(env, ExportedBy(a.config), a.record) && RecordFits(env, ExportedBy(b.config), b.record)
    ensures ToldApart(b.config) && VarsText(a.record.storeVars) == VarsText(b.record.vars) ==>
            a.record.storeVars == b.record.vars
  {
    if ToldApart(b.config) && VarsText(a.record.storeVars) == VarsText(b.record.vars) {
      TextInjective(env.json, ExportedBy(b.config), a.record.storeVars, b.record.vars);
    }
  }

  // ---- Rules that defeat their own cache ----

  /** The rule of this name is listed at most once. */
  ghost predicate ListedOnce(rules: seq<Rule>, name: string) {
    forall i, j | 0 <= i < j < |rules| :: !(rules[i].name == name && rules[j].name == name)
  }

  ghost predicate Untouched(rules: seq<Rule>, r: Evaluation) {
    ListedOnce(rules, r.rule.name) ==> r.rule.name !in r.vars
  }

  /** In a chain that lists a rule once, the rule finds no variables of its own. */
  lemma {:induction false} ChainIsFresh(env: Env, eval: Evaluator, rules: seq<Rule>, w: World, v: View, name: string)
    requires Tidy(env, eval) && ListedOnce(rules, name) && name !in v.rules
    ensures forall r | r in RunChain(eval, rules, w, v).records ::
      r.rule in rules && (r.rule.name == name ==> name !in r.vars)
    decreases rules
  {
    if rules != [] {
      var s := eval(rules[0], w, ResetCache(v));
      assert Tidies(env, rules[0], w, ResetCache(v), s);
      assert KeepsKind(AnyKind(), rules[0], v.rules, s);
      if s.record.verdict.outcome == Pass {
        if rules[0].name == name {
          ChainIsListed(env, eval, rules[1..], s.world, Concluded(s));
        } else {
          ChainIsFresh(env, eval, rules[1..], s.world, Concluded(s), name);
        }
      }
    }
  }

  lemma {:induction false} ChainIsListed(env: Env, eval: Evaluator, rules: seq<Rule>, w: World, v: View)
    requires Tidy(env, eval)
    ensures forall r | r in RunChain(eval, rules, w, v).records :: r.rule in rules
    decreases rules
  {
    if rules != [] {
      var s := eval(rules[0], w, ResetCache(v));
      assert Tidies(env, rules[0], w, ResetCache(v), s);
      if s.record.verdict.outcome == Pass {
        ChainIsListed(env, eval, rules[1..], s.world, Concluded(s));
      }
    }
  }

  ghost predicate FreshLog(log: seq<Event>) {
    forall i | 0 <= i < |log| && log[i].Evaluated? :: Untouched(Plan(log[i].config, log[i].incoming), log[i].record)
  }

  lemma FreshAppend(config: Config, q: Incoming, log: seq<Event>, records: seq<Evaluation>)
    requires FreshLog(log) && forall r | r in records :: Untouched(Plan(config, q), r)
    ensures FreshLog(log + Events(config, q, records))
  {
    var more := log + Events(config, q, records);
    forall i | 0 <= i < |more| && more[i].Evaluated?
      ensures Untouched(Plan(more[i].config, more[i].incoming), more[i].record) {
      assert more[i] == if i < |log| then log[i] else Evaluated(records[i - |log|], config, q);
    }
  }

  lemma ServeIsFresh(env: Env, site: Site, s: System, q: Incoming)
    requires Clockwork(env) && env.serverMax > 0
    ensures forall r | r in ServeChain(env, site, s, q).records :: Untouched(Plan(s.config, q), r)
  {
    RulesAreTidy(env);
    var rules := Plan(s.config, q);
    forall r | r in ServeChain(env, site, s, q).records ensures Untouched(rules, r) {
      if ListedOnce(rules, r.rule.name) {
        ChainIsFresh(env, EvaluatorOf(env), rules, s.world, StartView(site, s.config, q), r.rule.name);
      }
    }
  }

  lemma {:induction false} RunIsFresh(env: Env, site: Site, config: Config, actions: seq<Action>)
    requires Clockwork(env) && env.serverMax > 0
    ensures FreshLog(Run(env, site, config, actions).log)
  {
    if actions != [] {
      var s := Run(env, site, config, actions[..|actions| - 1]);
      RunIsFresh(env, site, config, actions[..|actions| - 1]);
      match actions[|actions| - 1]
      case Serve(incoming) =>
        ServeIsFresh(env, site, s, incoming);
        FreshAppend(s.config, incoming, s.log, ServeChain(env, site, s, incoming).records);
      case Reload(_) =>
    }
  }

  /**
    A strict rule that its plan lists once is answered only by an evaluation that exported nothing, under every
    configuration that lists one rule per name and whose dotted names tell its exports apart.
   */
  lemma StrictAnswerIsSilent(env: Env, site: Site, config: Config, actions: seq<Action>, j: nat) returns (i: nat)
    requires Sane(env) && Collisionless(env) && SelfDelimiting(env.json)
    requires SiteOk(site) && ConfigOk(config) && ActionsOk(actions)
    requires JsonConfig(env, config) && JsonActions(env, actions)
    requires var log := Run(env, site, config, actions).log;
      && j < |log| && log[j].Evaluated? && log[j].record.hit && log[j].record.rule.cache.strict != Some(false)
      && ListedOnce(Plan(log[j].config, log[j].incoming), log[j].record.rule.name)
      && Coherent(log[j].config) && ToldApart(log[j].config)
    ensures var log := Run(env, site, config, actions).log;
      && i < j && log[i].Evaluated? && log[i].record.entry.Some? && log[i].record.rule == log[j].record.rule
      && log[i].record.verdict == log[j].record.verdict && log[j].record.verdict.outcome != Error
      && log[j].record.rule.name !in log[i].record.storeVars && ShowsExports(log[i].record)
  {
    i := HitSharesVariables(env, site, config, actions, j);
    RunIsFresh(env, site, config, actions);
    var log := Run(env, site, config, actions).log;
    assert Untouched(Plan(log[j].config, log[j].incoming), log[j].record);
  }

  /** Strict, and exports something, whatever the state, for a pass and for a fail. */
  ghost predicate Exporter(rule: Rule) {
    && rule.cache.strict != Some(false) && rule.passExports != [] && rule.failExports != []
    && Total(rule.passExports) && Total(rule.failExports)
  }

  /** So a strict rule whose exports can always be evaluated defeats its own cache: it is never answered from it. */
  lemma StrictExporterNeverHits(env: Env, site: Site, config: Config, actions: seq<Action>, j: nat)
    requires Sane(env) && Collisionless(env) && SelfDelimiting(env.json)
    requires SiteOk(site) && ConfigOk(config) && ActionsOk(actions)
    requires JsonConfig(env, config) && JsonActions(env, actions)
    requires var log := Run(env, site, config, actions).log;
      && j < |log| && log[j].Evaluated? && Exporter(log[j].record.rule)
      && ListedOnce(Plan(log[j].config, log[j].incoming), log[j].record.rule.name)
      && Coherent(log[j].config) && ToldApart(log[j].config)
    ensures !Run(env, site, config, actions).log[j].record.hit
  {
    if Run(env, site, config, actions).log[j].record.hit {
      var i := StrictAnswerIsSilent(env, site, config, actions, j);
    }
  }
}
