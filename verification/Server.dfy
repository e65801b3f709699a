/** Serving requests and reloading: the chain loop and the pipeline object, whose every state is the state of a run. */
module Server {
  import opened Wrappers
  import opened State
  import Forwarded
  import Admission
  import opened Requests
  import opened MemoryCache
  import opened CacheKeys
  import opened RuleSpec
  import opened Records
  import Pagination
  import opened RuleAgent
  import opened Runs
  import opened Ttl

  datatype HistoryEntry = HistoryEntry(name: string, outcome: Outcome, reason: string, fromCache: bool)

  function EntryOf(r: Evaluation): HistoryEntry {
    HistoryEntry(r.rule.name, r.verdict.outcome, r.verdict.reason, r.hit)
  }

  function HistoryOf(records: seq<Evaluation>): (history: seq<HistoryEntry>)
    ensures |history| == |records| && forall i | 0 <= i < |records| :: history[i] == EntryOf(records[i])
  {
    seq(|records|, i requires 0 <= i < |records| => EntryOf(records[i]))
  }

  // ---- The cache-hit flag of the state is the hit of the record ----

  lemma FinishKeepsCache(rule: Rule, verdict: Verdict, v: View)
    ensures Finish(rule, verdict, v).cache == v.cache
  {
  }

  lemma FreshKeepsCache(env: Env, rule: Rule, r: Pagination.Rendered, v: View, w: World)
    ensures Fresh(env, rule, r, v, w).view.cache == v.cache
  {
    var f := Pagination.FetchAll(env.web, r, rule.backend, w.calls);
    var answered := v.(backend := Pagination.Conclude(rule.backend, v.backend, f));
    LocalsKeepView(rule.locals, answered, answered);
  }

  lemma ReadyFlag(env: Env, rule: Rule, w: World, v: View, r: Pagination.Rendered)
    requires !v.cache.hit
    ensures var s := EvaluateReady(env, rule, w, v, r); s.view.cache.hit == s.record.hit
  {
    var key := CacheKey(env, rule, r, v.cacheKey, v.rules);
    match FindEntry(env, w.contents, key, w.tick)
    case Some(e) => FinishKeepsCache(rule, Verdict(e.outcome, e.reason), Restore(rule, e, v));
    case None =>
      var judged := Fresh(env, rule, r, v, w);
      FreshKeepsCache(env, rule, r, v, w);
      FinishKeepsCache(rule, judged.verdict, judged.view);
  }

  lemma PreparedFlag(env: Env, rule: Rule, w: World, p: Prepared)
    requires !p.view.cache.hit
    ensures var s := EvaluatePrepared(env, rule, w, p); s.view.cache.hit == s.record.hit
  {
    match p
    case Ended(v, verdict) => FinishKeepsCache(rule, verdict, v);
    case NoBackend(v) =>
      LocalsKeepView(rule.locals, v, v);
      var judged := Judge(env, rule, v, env.clock(w.tick + 2));
      FinishKeepsCache(rule, judged.verdict, judged.view);
    case Ready(v, r) => ReadyFlag(env, rule, w, v, r);
  }

  lemma PrepareKeepsCache(env: Env, rule: Rule, start: View)
    ensures Prepare(env, rule, start).view.cache == start.cache
  {
    AuthenticateKeeps(rule, Reset(start));
    var v := Authenticate(rule, Reset(start)).0;
    assert v.cache == start.cache;
    var p := Prepare(env, rule, start);
    assert p.view == v || p.view == v.(backend := p.view.backend);
  }

  lemma HitFlag(env: Env, rule: Rule, w: World, start: View)
    requires !start.cache.hit
    ensures var s := Evaluate(env, rule, w, start); s.view.cache.hit == s.record.hit
  {
    PrepareKeepsCache(env, rule, start);
    PreparedFlag(env, rule, w, Prepare(env, rule, start));
  }

  // ---- The chain loop ----

  /** The chain `f` is what has been evaluated, all of it passed, and then the chain of the remaining rules. */
  ghost predicate Remains(env: Env, f: Chain, history: seq<HistoryEntry>, done: seq<Evaluation>, rules: seq<Rule>,
                          w: World, v: View) {
    var rest := RunChain(EvaluatorOf(env), rules, w, v);
    f == Chain(rest.view, rest.world, done + rest.records) && history == HistoryOf(done)
  }

  /** The chain `f` has ended here, with this history. */
  ghost predicate Ended(f: Chain, history: seq<HistoryEntry>, w: World, v: View) {
    f.view == v && f.world == w && history == HistoryOf(f.records)
  }

  lemma RemainsAll(env: Env, rules: seq<Rule>, w: World, v: View)
    ensures Remains(env, RunChain(EvaluatorOf(env), rules, w, v), [], [], rules, w, v)
  {
    NothingDone(RunChain(EvaluatorOf(env), rules, w, v));
  }

  lemma NothingDone(f: Chain)
    ensures f == Chain(f.view, f.world, [] + f.records)
  {
  }

  lemma StepChain(eval: Evaluator, f: Chain, done: seq<Evaluation>, rules: seq<Rule>, w: World, v: View, s: Step)
    requires rules != [] && s == eval(rules[0], w, ResetCache(v))
    requires var rest := RunChain(eval, rules, w, v); f == Chain(rest.view, rest.world, done + rest.records)
    ensures s.record.verdict.outcome == Pass ==>
      var rest := RunChain(eval, rules[1..], s.world, Concluded(s));
      f == Chain(rest.view, rest.world, done + [s.record] + rest.records)
    ensures s.record.verdict.outcome != Pass ==> f == Chain(Concluded(s), s.world, done + [s.record])
  {
    if s.record.verdict.outcome == Pass {
      var rest := RunChain(eval, rules[1..], s.world, Concluded(s));
      assert done + ([s.record] + rest.records) == done + [s.record] + rest.records;
    }
  }

  lemma RemainsStep(env: Env, f: Chain, history: seq<HistoryEntry>, done: seq<Evaluation>, rules: seq<Rule>, w: World,
                    v: View, s: Step)
    requires rules != [] && Remains(env, f, history, done, rules, w, v)
    requires s == EvaluatorOf(env)(rules[0], w, ResetCache(v))
    ensures s.record.verdict.outcome == Pass ==>
      Remains(env, f, history + [EntryOf(s.record)], done + [s.record], rules[1..], s.world, Concluded(s))
    ensures s.record.verdict.outcome != Pass ==> Ended(f, history + [EntryOf(s.record)], s.world, Concluded(s))
  {
    StepChain(EvaluatorOf(env), f, done, rules, w, v, s);
    assert history + [EntryOf(s.record)] == HistoryOf(done + [s.record]);
  }

  lemma RemainsNothing(env: Env, f: Chain, history: seq<HistoryEntry>, done: seq<Evaluation>, w: World, v: View)
    requires Remains(env, f, history, done, [], w, v)
    ensures Ended(f, history, w, v)
  {
    assert done + [] == done;
  }

  /** One turn of the loop: reset the cache flags, evaluate, record the verdict. */
  method ExecuteRule(agent: Agent, rule: Rule, state: PipelineState) returns (entry: HistoryEntry, ghost s: Step)
    requires agent.Valid()
    modifies agent`tick, agent`calls, agent.cache, state
    ensures agent.Valid()
    ensures s == EvaluatorOf(agent.env)(rule, old(agent.World()), ResetCache(old(state.Snapshot())))
    ensures state.Snapshot() == Concluded(s) && agent.World() == s.world && entry == EntryOf(s.record)
  {
    state.cache := NO_CACHE;
    ghost var w, start := agent.World(), state.Snapshot();
    s := Evaluate(agent.env, rule, w, start);
    HitFlag(agent.env, rule, w, start);
    var verdict := agent.EvaluateRule(rule, state);
    RecordRule(agent.env, rule, w, start);
    entry := HistoryEntry(rule.name, verdict.outcome, verdict.reason, state.cache.hit);
    state.rule := state.rule.(outcome := Some(verdict.outcome), reason := verdict.reason);
  }

  lemma RecordRule(env: Env, rule: Rule, w: World, start: View)
    ensures Evaluate(env, rule, w, start).record.rule == rule
  {
  }

  /** One turn of the loop, with the history it appends to. */
  method ExecuteNext(agent: Agent, rule: Rule, state: PipelineState, before: seq<HistoryEntry>,
                     ghost c: Chain, ghost done: seq<Evaluation>, ghost rules: seq<Rule>)
    returns (history: seq<HistoryEntry>, more: bool, ghost evaluated: seq<Evaluation>)
    requires agent.Valid() && rules != [] && rules[0] == rule
    requires Remains(agent.env, c, before, done, rules, agent.World(), state.Snapshot())
    modifies agent`tick, agent`calls, agent.cache, state
    ensures agent.Valid()
    ensures more ==> Remains(agent.env, c, history, evaluated, rules[1..], agent.World(), state.Snapshot())
    ensures !more ==> Ended(c, history, agent.World(), state.Snapshot())
  {
    ghost var w, v := agent.World(), state.Snapshot();
    var entry;
    ghost var s;
    entry, s := ExecuteRule(agent, rule, state);
    RemainsStep(agent.env, c, before, done, rules, w, v, s);
    history, evaluated, more := before + [entry], done + [s.record], entry.outcome == Pass;
  }

  /** The rule execution agent's Execute. */
  method ExecuteChain(agent: Agent, rules: seq<Rule>, state: PipelineState)
    returns (history: seq<HistoryEntry>, ghost c: Chain)
    requires agent.Valid()
    modifies agent`tick, agent`calls, agent.cache, state
    ensures agent.Valid()
    ensures c == RunChain(EvaluatorOf(agent.env), rules, old(agent.World()), old(state.Snapshot()))
    ensures Ended(c, history, agent.World(), state.Snapshot())
  {
    c := RunChain(EvaluatorOf(agent.env), rules, agent.World(), state.Snapshot());
    RemainsAll(agent.env, rules, agent.World(), state.Snapshot());
    ghost var done: seq<Evaluation> := [];
    history := [];
    assert rules[0..] == rules;
    for i := 0 to |rules|
      invariant agent.Valid()
      invariant Remains(agent.env, c, history, done, rules[i..], agent.World(), state.Snapshot())
    {
      assert rules[i..][1..] == rules[i + 1..];
      var more;
      history, more, done := ExecuteNext(agent, rules[i], state, history, c, done, rules[i..]);
      if !more {
        return;
      }
    }
    RemainsNothing(agent.env, c, history, done, agent.World(), state.Snapshot());
  }

  // ---- The status of the reply ----

  /** The response policy's status for an outcome. */
  function OutcomeStatus(s: Statuses, outcome: Outcome): int {
    match outcome
    case Pass => if s.pass > 0 then s.pass else 200
    case Fail => if s.fail > 0 then s.fail else 403
    case Error => if s.error > 0 then s.error else 502
  }

  /** The status of a reply to a request for a known endpoint: an unrendered response becomes an internal error. */
  function StatusFor(s: Statuses, authenticated: bool, challenged: bool, outcome: Outcome): (status: int)
    ensures status > 0
  {
    if authenticated then OutcomeStatus(s, outcome)
    else if !challenged then 500
    else if s.admission > 0 then s.admission else 401
  }

  /** The status of every reply, also to a request that admission rejected. */
  function ReplyStatus(config: Config, incoming: Incoming, outcome: Outcome): (status: int)
    ensures status > 0
  {
    if incoming.endpoint !in config then 404
    else
      var endpoint := config[incoming.endpoint];
      var admitted := Admission.Admit(endpoint.policy, incoming.arrival);
      StatusFor(endpoint.statuses, admitted.Authenticated(), admitted.refusal == Some(Admission.NoCredential), outcome)
  }

  function HistoryOutcome(history: seq<HistoryEntry>): Outcome {
    if history == [] then Pass else history[|history| - 1].outcome
  }

  predicate Success(status: int) { 200 <= status < 300 }

  /** Only a pass is answered with a success status; the built-in statuses are proper. */
  predicate Proper(s: Statuses) {
    && Success(OutcomeStatus(s, Pass)) && !Success(OutcomeStatus(s, Fail)) && !Success(OutcomeStatus(s, Error))
    && !Success(s.admission)
  }

  /** The chain of a request passes iff every rule of its plan was evaluated and passed. */
  lemma HistoryTells(env: Env, site: Site, s: System, incoming: Incoming)
    ensures var records := ServeChain(env, site, s, incoming).records;
      HistoryOutcome(HistoryOf(records)) == Pass <==> |records| == |Plan(s.config, incoming)| && AllPassed(records)
  {
    var c := ServeChain(env, site, s, incoming);
    ChainStopsAtFirst(EvaluatorOf(env), Plan(s.config, incoming), s.world, StartView(site, s.config, incoming));
    assert HistoryOutcome(HistoryOf(c.records)) == LastOutcome(c.records);
  }

  /**
    Admission lets the request through: its forwarding headers do not stop it, and it has a credential or needs none.
   */
  ghost predicate LetThrough(policy: Admission.Policy, a: Admission.Arrival) {
    && !Admission.Stopped(policy, a)
    && (Admission.HasCredential(policy, a) || !policy.required)
  }

  /**
    Where only a pass is answered with a success status, exactly those requests get one that are for a known endpoint,
    that admission lets through, and whose every rule was evaluated and passed.
   */
  lemma AllowedIffAllPassed(env: Env, site: Site, s: System, incoming: Incoming)
    requires incoming.endpoint in s.config ==>
      var e := s.config[incoming.endpoint]; Forwarded.Codec(e.policy.parse, e.policy.show) && Proper(e.statuses)
    ensures var records := ServeChain(env, site, s, incoming).records;
      Success(ReplyStatus(s.config, incoming, HistoryOutcome(HistoryOf(records)))) <==>
        && incoming.endpoint in s.config && LetThrough(s.config[incoming.endpoint].policy, incoming.arrival)
        && |records| == |s.config[incoming.endpoint].rules| && AllPassed(records)
  {
    if incoming.endpoint in s.config {
      Admission.AuthenticatedIff(s.config[incoming.endpoint].policy, incoming.arrival);
      HistoryTells(env, site, s, incoming);
    }
  }

  function Configured(status: int, standard: int): int { if status > 0 then status else standard }

  /** The outcome of a chain: that of the last rule evaluated; a chain without rules passes. */
  function ChainOutcome(records: seq<Evaluation>): Outcome {
    if records == [] then Pass else records[|records| - 1].verdict.outcome
  }

  /**
    The status of every reply: 404 for an unknown endpoint, 500 where forwarding headers stop the request, the challenge
    where a required credential is missing, and otherwise the status of the outcome, 200, 403 or 502 unless configured.
   */
  lemma StatusByCase(env: Env, site: Site, s: System, incoming: Incoming)
    requires incoming.endpoint in s.config ==>
      var p := s.config[incoming.endpoint].policy; Forwarded.Codec(p.parse, p.show)
    ensures var records := ServeChain(env, site, s, incoming).records;
      var status := ReplyStatus(s.config, incoming, HistoryOutcome(HistoryOf(records)));
      if incoming.endpoint !in s.config then status == 404
      else
        var p, t, a := s.config[incoming.endpoint].policy, s.config[incoming.endpoint].statuses, incoming.arrival;
        && (Admission.Stopped(p, a) ==> status == 500)
        && (!Admission.Stopped(p, a) && !Admission.HasCredential(p, a) && p.required ==>
              status == Configured(t.admission, 401))
        && (LetThrough(p, a) ==>
              status == match ChainOutcome(records)
                case Pass => Configured(t.pass, 200)
                case Fail => Configured(t.fail, 403)
                case Error => Configured(t.error, 502))
  {
    if incoming.endpoint in s.config {
      Admission.AuthenticatedIff(s.config[incoming.endpoint].policy, incoming.arrival);
      OutcomeIsLast(ServeChain(env, site, s, incoming).records);
    }
  }

  lemma OutcomeIsLast(records: seq<Evaluation>)
    ensures HistoryOutcome(HistoryOf(records)) == ChainOutcome(records)
  {
  }

  // ---- The pipeline ----

  class Pipeline {
    const site: Site
    const agent: Agent
    var config: Config
    ghost var log: seq<Event>
    /** How this object got here: the first configuration and everything done since. */
    ghost const initial: Config
    ghost var actions: seq<Action>

    ghost function System(): System
      reads this, agent, agent.cache
    {
      Runs.System(config, agent.World(), log)
    }

    /** The object is in a state that a run reaches, so everything proved of runs holds of it. */
    ghost predicate Valid()
      reads this, agent, agent.cache, agent.cache.owned
    {
      agent.Valid() && System() == Run(agent.env, site, initial, actions)
    }

    constructor (env: Env, site: Site, config: Config)
      requires env.cacheTtl > 0
      ensures Valid() && actions == [] && initial == config && agent.env == env && this.site == site
      ensures fresh(agent) && fresh(agent.cache)
    {
      var cache := new MemoryCache(env.cacheTtl);
      this.site := site;
      agent := new Agent(env, cache);
      this.config, log, initial, actions := config, [], config, [];
    }

    /** ServeAuth: run admission, then the rules, unless admission rejects the request. */
    method ServeAuth(name: string, r: Admission.Request, facts: RequestFacts)
      returns (history: seq<HistoryEntry>, status: int, ghost incoming: Incoming)
      requires Valid()
      modifies this`log, this`actions, agent`tick, agent`calls, agent.cache, r
      ensures incoming == Incoming(name, old(r.Arrives()), facts)
      ensures Valid() && actions == old(actions) + [Serve(incoming)]
      ensures System() == Next(agent.env, site, old(System()), Serve(incoming))
      ensures history == HistoryOf(ServeChain(agent.env, site, old(System()), incoming).records)
      ensures status == ReplyStatus(config, incoming, HistoryOutcome(history))
    {
      incoming := Incoming(name, r.Arrives(), facts);
      ghost var before := System();
      var rules, state, authenticated, challenged := Receive(name, r, facts);
      ghost var c;
      history, c := ExecuteChain(agent, rules, state);
      assert c == ServeChain(agent.env, site, before, incoming);
      status := 404;
      if name in config {
        status := StatusFor(config[name].statuses, authenticated, challenged, HistoryOutcome(history));
      }
      Note(Serve(incoming), before, log + Events(config, incoming, c.records));
    }

    /** Keep the ghost record: the step just taken is a step of the run. */
    ghost method Note(a: Action, before: System, grown: seq<Event>)
      requires agent.Valid() && before == Run(agent.env, site, initial, actions)
      requires Runs.System(config, agent.World(), grown) == Next(agent.env, site, before, a)
      modifies this`log, this`actions
      ensures Valid() && log == grown && actions == old(actions) + [a]
    {
      RunStep(agent.env, site, initial, actions, a);
      log, actions := grown, actions + [a];
    }

    /** Look up the endpoint, derive the base key, run admission and set up the state and the plan. */
    method Receive(name: string, r: Admission.Request, facts: RequestFacts)
      returns (rules: seq<Rule>, state: PipelineState, authenticated: bool, challenged: bool)
      modifies r
      ensures var incoming := Incoming(name, old(r.Arrives()), facts);
        && fresh(state) && rules == Plan(config, incoming) && state.Snapshot() == StartView(site, config, incoming)
        && (name in config ==> var admitted := Admission.Admit(config[name].policy, incoming.arrival);
              authenticated == admitted.Authenticated()
                && challenged == (admitted.refusal == Some(Admission.NoCredential)))
    {
      if name !in config {
        rules, authenticated, challenged := [], false, false;
        state := new PipelineState("", facts, []);
        return;
      }
      var policy := config[name].policy;
      var key := "";
      if !policy.allow.none {
        var raw := RawText(CredentialText(policy.allow, r.Arrives()), name, facts.path);
        key := BaseKey(site.namespace, site.epoch, site.digest(raw));
      }
      var out := new Admission.AdmissionState();
      var admission := new Admission.Agent(policy);
      admission.Execute(r, out);
      authenticated, challenged := out.authenticated, out.refusal == Some(Admission.NoCredential);
      rules := if authenticated then config[name].rules else [];
      state := new PipelineState(key, facts, out.credentials);
    }

    /** Reload, not overlapping any request: swap the configuration and purge this site's epoch. */
    method Reload(replacement: Config)
      requires Valid()
      modifies this`config, this`log, this`actions, agent.cache
      ensures Valid() && actions == old(actions) + [Action.Reload(replacement)]
      ensures System() == Next(agent.env, site, old(System()), Action.Reload(replacement))
    {
      ghost var before := System();
      config := replacement;
      agent.Purge(Prefix(site.namespace, site.epoch));
      Note(Action.Reload(replacement), before, log + [Purged]);
    }
  }

  lemma RunStep(env: Env, site: Site, config: Config, actions: seq<Action>, a: Action)
    ensures Run(env, site, config, actions + [a]) == Next(env, site, Run(env, site, config, actions), a)
  {
    assert (actions + [a])[..|actions|] == actions;
  }
}
