/** A chain of rules, step by step: what each rule starts from, what it hands on, and what its backend is sent. */
module Chains {
  import opened Credentials
  import opened State
  import opened Admission
  import opened Pagination
  import MemoryCache
  import opened RuleSpec
  import opened Records
  import opened Runs
  import opened Delivery
  import opened Ttl

  // ---- What one evaluation leaves for the next ----

  /** Nothing that identifies the request changes, and the variables go from state to record to state. */
  ghost predicate HandsOn(start: View, s: Step) {
    && s.record.vars == start.rules && s.view.rules == s.record.storeVars
    && SameRequest(start, s.view)
  }

  ghost predicate SameRequest(a: View, b: View) {
    b.cacheKey == a.cacheKey && b.request == a.request && b.credentials == a.credentials
  }

  lemma FinishKeepsRequest(rule: Rule, verdict: Verdict, v: View)
    ensures SameRequest(v, Finish(rule, verdict, v))
  {
  }

  lemma PrepareKeepsRequest(env: Env, rule: Rule, start: View)
    ensures var p := Prepare(env, rule, start); SameRequest(start, p.view) && p.view.rules == start.rules
  {
    AuthenticateKeeps(rule, Reset(start));
    PrepareKeeps(env, rule, start);
    var v := Authenticate(rule, Reset(start)).0;
    assert SameRequest(start, v);
    var p := Prepare(env, rule, start);
    assert p.view == v || p.view == v.(backend := p.view.backend);
  }

  lemma JudgeKeepsRequest(env: Env, rule: Rule, v: View, now: int)
    ensures SameRequest(v, Judge(env, rule, v, now).view) && Judge(env, rule, v, now).view.rules == v.rules
  {
    var scopes := LocalsAreBound(rule.locals, v, v);
  }

  lemma FreshKeepsRequest(env: Env, rule: Rule, r: Rendered, v: View, w: World)
    ensures SameRequest(v, Fresh(env, rule, r, v, w).view)
  {
    var f := FetchAll(env.web, r, rule.backend, w.calls);
    var answered := v.(backend := Conclude(rule.backend, v.backend, f));
    JudgeKeepsRequest(env, rule, answered, env.clock(w.tick + 2));
  }

  lemma RecordHandsOn(env: Env, rule: Rule, w: World, contents: MemoryCache.Contents, start: View, r: Rendered,
                      key: string, done: View, verdict: Verdict, sent: nat)
    requires SameRequest(start, done)
    ensures HandsOn(start, Record(env, rule, w, contents, start, r, key, done, verdict, sent))
  {
  }

  lemma MissHandsOn(env: Env, rule: Rule, w: World, contents: MemoryCache.Contents, v: View, r: Rendered, key: string)
    ensures HandsOn(v, EvaluateMiss(env, rule, w, contents, v, r, key))
  {
    FreshKeepsRequest(env, rule, r, v, w);
    var judged, sent := Fresh(env, rule, r, v, w), FetchAll(env.web, r, rule.backend, w.calls).sent;
    FinishKeepsRequest(rule, judged.verdict, judged.view);
    RecordHandsOn(env, rule, w, contents, v, r, key, Finish(rule, judged.verdict, judged.view), judged.verdict, sent);
  }

  lemma HitHandsOn(rule: Rule, w: World, contents: MemoryCache.Contents, v: View, r: Rendered, key: string,
                   e: RuleEntry, lookedAt: int)
    ensures HandsOn(v, EvaluateHit(rule, w, contents, v, r, key, e, lookedAt))
  {
    FinishKeepsRequest(rule, Verdict(e.outcome, e.reason), Restore(rule, e, v));
  }

  lemma EvaluationHandsOn(env: Env, rule: Rule, w: World, start: View)
    ensures HandsOn(start, Evaluate(env, rule, w, start))
  {
    PrepareKeepsRequest(env, rule, start);
    match Prepare(env, rule, start)
    case Ended(v, verdict) => FinishKeepsRequest(rule, verdict, v);
    case NoBackend(v) =>
      var judged := Judge(env, rule, v, env.clock(w.tick + 2));
      JudgeKeepsRequest(env, rule, v, env.clock(w.tick + 2));
      FinishKeepsRequest(rule, judged.verdict, judged.view);
    case Ready(v, r) => ReadyHandsOn(env, rule, w, v, r);
  }

  lemma ReadyHandsOn(env: Env, rule: Rule, w: World, v: View, r: Rendered)
    ensures HandsOn(v, EvaluateReady(env, rule, w, v, r))
  {
    var key := CacheKey(env, rule, r, v.cacheKey, v.rules);
    var contents := if key == "" then w.contents else MemoryCache.AfterLookup(w.contents, key, env.clock(w.tick));
    match FindEntry(env, w.contents, key, w.tick)
    case Some(e) => HitHandsOn(rule, w, contents, v, r, key, e, env.clock(w.tick));
    case None => MissHandsOn(env, rule, w, contents, v, r, key);
  }

  /**
    Two states that differ at most in what the rule before left of its own: its backend, its credentials and variables.
   */
  ghost predicate SameButLeftovers(a: View, b: View) {
    b == a.(backend := b.backend,
            rule := a.rule.(auth := b.rule.auth, locals := b.rule.locals, exported := b.rule.exported))
  }

  /** Nothing leaks from one rule into the next but what it exported: the leftovers change nothing at all. */
  lemma LeftoversDoNotShow(env: Env, rule: Rule, w: World, a: View, b: View)
    requires SameButLeftovers(a, b)
    ensures Evaluate(env, rule, w, a) == Evaluate(env, rule, w, b)
  {
    assert Reset(a) == Reset(b);
    assert Prepare(env, rule, a) == Prepare(env, rule, b);
  }

  // ---- What every rule of a chain starts from ----

  datatype Entry = Entry(world: World, view: View)

  /** Where rule `i` of a chain starts, once all rules before it have passed. */
  ghost function EntryAt(eval: Evaluator, rules: seq<Rule>, w: World, v: View, i: nat): Entry
    requires i < |rules|
    decreases i
  {
    if i == 0 then Entry(w, ResetCache(v))
    else
      var s := eval(rules[0], w, ResetCache(v));
      EntryAt(eval, rules[1..], s.world, Concluded(s), i - 1)
  }

  /** Rule `i` is evaluated where the chain stands, for the request as it came. */
  ghost predicate StepAt(env: Env, rules: seq<Rule>, w: World, v: View, i: nat)
    requires i < |rules|
  {
    var eval := EvaluatorOf(env);
    var at, records := EntryAt(eval, rules, w, v, i), RunChain(eval, rules, w, v).records;
    i < |records| && records[i] == Evaluate(env, rules[i], at.world, at.view).record && SameRequest(v, at.view)
  }

  lemma ChainSplits(eval: Evaluator, rules: seq<Rule>, w: World, v: View)
    requires rules != []
    ensures var s := eval(rules[0], w, ResetCache(v)); var records := RunChain(eval, rules, w, v).records;
      records == if s.record.verdict.outcome != Pass then [s.record]
                 else [s.record] + RunChain(eval, rules[1..], s.world, Concluded(s)).records
  {
  }

  lemma {:induction false} RecordsAt(eval: Evaluator, rules: seq<Rule>, w: World, v: View, i: nat)
    requires i < |rules| && i < |RunChain(eval, rules, w, v).records|
    ensures var at := EntryAt(eval, rules, w, v, i);
      RunChain(eval, rules, w, v).records[i] == eval(rules[i], at.world, at.view).record
    decreases i
  {
    ChainSplits(eval, rules, w, v);
    if i > 0 {
      var s := eval(rules[0], w, ResetCache(v));
      RecordsAt(eval, rules[1..], s.world, Concluded(s), i - 1);
    }
  }

  lemma {:induction false} EntryKeeps(env: Env, rules: seq<Rule>, w: World, v: View, i: nat)
    requires i < |rules|
    ensures SameRequest(v, EntryAt(EvaluatorOf(env), rules, w, v, i).view)
    decreases i
  {
    if i > 0 {
      var s := EvaluatorOf(env)(rules[0], w, ResetCache(v));
      EvaluationHandsOn(env, rules[0], w, ResetCache(v));
      EntryKeeps(env, rules[1..], s.world, Concluded(s), i - 1);
    }
  }

  lemma ChainSteps(env: Env, rules: seq<Rule>, w: World, v: View, i: nat)
    requires i < |rules| && i < |RunChain(EvaluatorOf(env), rules, w, v).records|
    ensures StepAt(env, rules, w, v, i)
  {
    RecordsAt(EvaluatorOf(env), rules, w, v, i);
    EntryKeeps(env, rules, w, v, i);
  }

  /** The variables of each rule are those that the rule before it left, and the first starts from none of its own. */
  ghost predicate Threads(records: seq<Evaluation>, first: map<string, Vars>) {
    && (records != [] ==> records[0].vars == first)
    && forall i | 0 <= i < |records| - 1 :: records[i + 1].vars == records[i].storeVars
  }

  lemma {:induction false} ChainThreads(env: Env, rules: seq<Rule>, w: World, v: View)
    ensures Threads(RunChain(EvaluatorOf(env), rules, w, v).records, v.rules)
    decreases rules
  {
    if rules != [] {
      var s := Evaluate(env, rules[0], w, ResetCache(v));
      EvaluationHandsOn(env, rules[0], w, ResetCache(v));
      if s.record.verdict.outcome == Pass {
        ChainThreads(env, rules[1..], s.world, Concluded(s));
        ThreadsCons(s.record, RunChain(EvaluatorOf(env), rules[1..], s.world, Concluded(s)).records, v.rules);
      }
    }
  }

  lemma ThreadsCons(r: Evaluation, rest: seq<Evaluation>, first: map<string, Vars>)
    requires r.vars == first && Threads(rest, r.storeVars)
    ensures Threads([r] + rest, first)
  {
    var all := [r] + rest;
    forall i | 0 <= i < |all| - 1 ensures all[i + 1].vars == all[i].storeVars {
      if i > 0 {
        assert rest[i - 1 + 1].vars == rest[i - 1].storeVars;
      }
    }
  }

  /** Within a request, every rule sees exactly the variables that the rules before it exported. */
  lemma ServedVariablesThread(env: Env, site: Site, s: System, incoming: Incoming)
    ensures Threads(ServeChain(env, site, s, incoming).records, map[])
  {
    ChainThreads(env, Plan(s.config, incoming), s.world, StartView(site, s.config, incoming));
  }

  // ---- What the backends of a served request are sent ----

  /** The requests an evaluation sends are those of its conversation. */
  lemma SentIsConversation(env: Env, rule: Rule, w: World, start: View)
    requires !Evaluate(env, rule, w, start).record.hit
    ensures Evaluate(env, rule, w, start).record.sent == Conversation(env, rule, w, start).sent
  {
    PrepareEndsIff(env, rule, start);
    if !Blocked(env, rule, start) {
      PreparedAnswer(env, rule, w, start);
    }
  }

  /** Rule `k` of the request's plan, where its evaluation starts. */
  ghost function ServedAt(env: Env, site: Site, s: System, incoming: Incoming, k: nat): Entry
    requires k < |Plan(s.config, incoming)|
  {
    EntryAt(EvaluatorOf(env), Plan(s.config, incoming), s.world, StartView(site, s.config, incoming), k)
  }

  lemma ServedCredentials(env: Env, site: Site, s: System, incoming: Incoming, k: nat)
    requires k < |Plan(s.config, incoming)| && k < |ServeChain(env, site, s, incoming).records|
    ensures var policy, a := s.config[incoming.endpoint].policy, incoming.arrival;
      ServedAt(env, site, s, incoming, k).view.credentials
        == Collect(policy.allow, policy.decode, HeadersLeft(policy, a), a.query)
    ensures var at := ServedAt(env, site, s, incoming, k);
      ServeChain(env, site, s, incoming).records[k]
        == Evaluate(env, Plan(s.config, incoming)[k], at.world, at.view).record
  {
    ChainSteps(env, Plan(s.config, incoming), s.world, StartView(site, s.config, incoming), k);
  }

  /**
    Every rule of a served request that passes credentials through and reaches its backend delivers, in the first
    request it sends, each credential its group takes of those that admission read from the client's request.
   */
  lemma ServedCredentialsArrive(env: Env, site: Site, s: System, incoming: Incoming, k: nat, i: nat)
    requires k < |Plan(s.config, incoming)| && k < |ServeChain(env, site, s, incoming).records|
    requires Base64(env.encode, s.config[incoming.endpoint].policy.decode)
    requires var rule, at := Plan(s.config, incoming)[k], ServedAt(env, site, s, incoming, k);
      && FirstMatch(rule, Reset(at.view), i) && rule.auth[i].forwards == []
      && Conversation(env, rule, at.world, at.view).exchanges != []
    ensures var policy, a := s.config[incoming.endpoint].policy, incoming.arrival;
      var rule, at := Plan(s.config, incoming)[k], ServedAt(env, site, s, incoming, k);
      var (v, auth) := Authenticate(rule, Reset(at.view)); var r := RenderRequest(env, rule, auth, v);
      r.Some? && forall c
        | Collected(policy.allow, policy.decode, HeadersLeft(policy, a), a.query, rule.auth[i].matchers, c) ::
        Delivers(env, policy.decode, r.value, Conversation(env, rule, at.world, at.view).exchanges[0].request, c)
  {
    ServedCredentials(env, site, s, incoming, k);
    var policy, at := s.config[incoming.endpoint].policy, ServedAt(env, site, s, incoming, k);
    CredentialsReachBackend(env, Plan(s.config, incoming)[k], at.world, at.view, policy.allow, policy.decode,
                            HeadersLeft(policy, incoming.arrival), incoming.arrival.query, i);
  }
}
