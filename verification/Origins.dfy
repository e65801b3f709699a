/** Where the records of a run come from: the request and the configuration behind each evaluation. */
module Origins {
  import opened Requests
  import opened RuleSpec
  import opened Records
  import opened Runs

  /** A record is of a rule that its request's plan lists, under its request's base key. */
  ghost predicate Rooted(site: Site, config: Config, incoming: Incoming, r: Evaluation) {
    && incoming.endpoint in config && r.rule in Plan(config, incoming)
    && r.base == DeriveCacheKey(site, config[incoming.endpoint].policy, incoming)
  }

  ghost predicate RootedLog(site: Site, log: seq<Event>) {
    forall i | 0 <= i < |log| && log[i].Evaluated? :: Rooted(site, log[i].config, log[i].incoming, log[i].record)
  }

  /** Since event `i` the cache has not been purged before event `j`. */
  ghost predicate SameEra(log: seq<Event>, i: nat, j: nat) {
    i < j <= |log| && forall k | i < k < j :: !log[k].Purged?
  }

  /** Everything evaluated since the last purge was evaluated under this configuration. */
  ghost predicate Current(config: Config, log: seq<Event>) {
    forall i | 0 <= i < |log| && log[i].Evaluated? && SameEra(log, i, |log|) :: log[i].config == config
  }

  /** Without a purge in between, the configuration is the same. */
  ghost predicate Steady(log: seq<Event>) {
    forall i, j | 0 <= i < j < |log| && log[i].Evaluated? && log[j].Evaluated? && SameEra(log, i, j) ::
      log[i].config == log[j].config
  }

  ghost predicate Traced(site: Site, config: Config, log: seq<Event>) {
    RootedLog(site, log) && Current(config, log) && Steady(log)
  }

  lemma EraGrows(log: seq<Event>, e: Event, i: nat, j: nat)
    requires i < j <= |log|
    ensures SameEra(log + [e], i, j) <==> SameEra(log, i, j)
    ensures SameEra(log + [e], i, |log| + 1) ==> SameEra(log, i, |log|) && !e.Purged?
  {
    var more := log + [e];
    assert forall k | 0 <= k < |log| :: more[k] == log[k];
    assert more[|log|] == e;
  }

  /** One more event under the current configuration, or a purge, after which any configuration may be current. */
  lemma TracedGrows(site: Site, config: Config, log: seq<Event>, e: Event, after: Config)
    requires Traced(site, config, log)
    requires e.Evaluated? ==> e.config == config && after == config && Rooted(site, config, e.incoming, e.record)
    ensures Traced(site, after, log + [e])
  {
    var more := log + [e];
    assert forall k | 0 <= k < |log| :: more[k] == log[k];
    assert more[|log|] == e;
    forall i | 0 <= i < |more| && more[i].Evaluated? && SameEra(more, i, |more|) ensures more[i].config == after {
      if i < |log| {
        EraGrows(log, e, i, |log|);
      }
    }
    forall i, j | 0 <= i < j < |more| && more[i].Evaluated? && more[j].Evaluated? && SameEra(more, i, j)
      ensures more[i].config == more[j].config
    {
      EraGrows(log, e, i, j);
      if j < |log| {
        assert SameEra(log, i, j);
      }
    }
  }

  lemma {:induction false} ChainIsTraced(site: Site, config: Config, log: seq<Event>, q: Incoming,
                                         records: seq<Evaluation>)
    requires Traced(site, config, log) && forall r | r in records :: Rooted(site, config, q, r)
    ensures Traced(site, config, log + Events(config, q, records))
    decreases records
  {
    if records == [] {
      assert log + Events(config, q, records) == log;
    } else {
      assert records == [records[0]] + records[1..];
      TracedGrows(site, config, log, Evaluated(records[0], config, q), config);
      ChainIsTraced(site, config, log + [Evaluated(records[0], config, q)], q, records[1..]);
      EventsCons(config, q, log, records[0], records[1..]);
    }
  }

  lemma ServeIsRooted(env: Env, site: Site, s: System, q: Incoming)
    requires Clockwork(env) && env.serverMax > 0
    ensures forall r | r in ServeChain(env, site, s, q).records :: Rooted(site, s.config, q, r)
  {
    RulesAreTrustworthy(env);
    ChainIsPrefix(env, EvaluatorOf(env), Plan(s.config, q), s.world, StartView(site, s.config, q));
  }

  lemma StepIsTraced(env: Env, site: Site, s: System, a: Action)
    requires Clockwork(env) && env.serverMax > 0 && Traced(site, s.config, s.log)
    ensures var t := Next(env, site, s, a); Traced(site, t.config, t.log)
  {
    match a
    case Serve(incoming) =>
      ServeIsRooted(env, site, s, incoming);
      ChainIsTraced(site, s.config, s.log, incoming, ServeChain(env, site, s, incoming).records);
    case Reload(config) =>
      TracedGrows(site, s.config, s.log, Purged, config);
  }

  lemma {:induction false} RunIsTraced(env: Env, site: Site, config: Config, actions: seq<Action>)
    requires Clockwork(env) && env.serverMax > 0
    ensures var s := Run(env, site, config, actions); Traced(site, s.config, s.log)
  {
    if actions != [] {
      RunIsTraced(env, site, config, actions[..|actions| - 1]);
      StepIsTraced(env, site, Run(env, site, config, actions[..|actions| - 1]), actions[|actions| - 1]);
    }
  }

  // ---- What a hit has in common with its answer ----

  /** Rules are compiled once per name, so every endpoint that lists a name lists the same rule. */
  ghost predicate Coherent(config: Config) {
    forall e, i, e', j | e in config && 0 <= i < |config[e].rules| && e' in config && 0 <= j < |config[e'].rules|
      && config[e].rules[i].name == config[e'].rules[j].name :: config[e].rules[i] == config[e'].rules[j]
  }

  ghost predicate Injective(site: Site) { forall s, t | site.digest(s) == site.digest(t) :: s == t }

  /** Both requests presented one credential to one endpoint at one path. */
  ghost predicate SameAsker(config: Config, a: Incoming, b: Incoming) {
    && a.endpoint in config && a.endpoint == b.endpoint && a.request.path == b.request.path
    && var allow := config[a.endpoint].policy.allow;
       PresentTheSame(allow, a.arrival, allow, b.arrival)
  }

  lemma SamePlannedRule(config: Config, a: Incoming, r: Rule, b: Incoming, q: Rule)
    requires Coherent(config) && r in Plan(config, a) && q in Plan(config, b) && r.name == q.name
    ensures r == q
  {
    var i :| 0 <= i < |Plan(config, a)| && Plan(config, a)[i] == r;
    var j :| 0 <= j < |Plan(config, b)| && Plan(config, b)[j] == q;
    assert config[a.endpoint].rules[i] == r && config[b.endpoint].rules[j] == q;
  }

  /**
    Both evaluations were made under one configuration, so by one rule definition and, for requests without
    separators, for one credential, endpoint and path.
   */
  ghost predicate SameOrigin(site: Site, a: Event, b: Event)
    requires a.Evaluated? && b.Evaluated?
  {
    && a.config == b.config && a.incoming.endpoint in a.config && b.incoming.endpoint in b.config
    && (Coherent(b.config) ==> a.record.rule == b.record.rule)
    && (Injective(site) && PlainRequest(a.config[a.incoming.endpoint].policy, a.incoming)
        && PlainRequest(b.config[b.incoming.endpoint].policy, b.incoming)
        ==> SameAsker(b.config, a.incoming, b.incoming))
  }

  lemma OriginsAgree(site: Site, a: Event, b: Event)
    requires a.Evaluated? && b.Evaluated? && a.config == b.config
    requires Rooted(site, a.config, a.incoming, a.record) && Rooted(site, b.config, b.incoming, b.record)
    requires a.record.base == b.record.base != "" && a.record.rule.name == b.record.rule.name
    ensures SameOrigin(site, a, b)
  {
    var p, q := a.config[a.incoming.endpoint].policy, b.config[b.incoming.endpoint].policy;
    if Coherent(b.config) {
      SamePlannedRule(b.config, a.incoming, a.record.rule, b.incoming, b.record.rule);
    }
    if Injective(site) && PlainRequest(p, a.incoming) && PlainRequest(q, b.incoming) {
      BaseKeyTellsWho(site, p, a.incoming, q, b.incoming);
    }
  }

  lemma EraAgrees(site: Site, config: Config, log: seq<Event>, i: nat, j: nat)
    requires Traced(site, config, log) && i < j < |log| && log[i].Evaluated? && log[j].Evaluated?
    requires forall k | i < k < j :: !log[k].Purged?
    requires log[i].record.base == log[j].record.base != "" && log[i].record.rule.name == log[j].record.rule.name
    ensures SameOrigin(site, log[i], log[j])
  {
    assert SameEra(log, i, j);
    OriginsAgree(site, log[i], log[j]);
  }

  /**
    Cache soundness, over every run of requests and reloads: a rule answered from the cache gets the pass or fail of an
    earlier fresh evaluation with the same base key, the same rule, the same canonical backend request and, where they
    are hashed, the same text of the exported variables.  It was stored since the last reload, under the same
    configuration, and has not expired; no backend is asked.  For requests without separators both presented the same
    credential to the same endpoint at the same path.
   */
  lemma CacheIsSound(env: Env, site: Site, config: Config, actions: seq<Action>, j: nat) returns (i: nat)
    requires Sane(env) && Collisionless(env) && SiteOk(site) && ConfigOk(config) && ActionsOk(actions)
    requires var log := Run(env, site, config, actions).log; j < |log| && log[j].Evaluated? && log[j].record.hit
    ensures var log := Run(env, site, config, actions).log;
      SoundAnswer(env, log, i, j) && SameOrigin(site, log[i], log[j])
  {
    i := HitRepeatsFresh(env, site, config, actions, j);
    RunIsTraced(env, site, config, actions);
    AnswerHasOrigin(env, site, Run(env, site, config, actions), i, j);
  }

  lemma AnswerHasOrigin(env: Env, site: Site, s: System, i: nat, j: nat)
    requires Traced(site, s.config, s.log) && SoundAnswer(env, s.log, i, j)
    ensures SameOrigin(site, s.log[i], s.log[j])
  {
    EraAgrees(site, s.config, s.log, i, j);
  }

  // ---- Endpoints open to anonymous requests ----

  lemma HitHasBase(env: Env, site: Site, s: System, j: nat)
    requires Inv(env, site, s) && j < |s.log| && s.log[j].Evaluated? && s.log[j].record.hit
    ensures s.log[j].record.base != ""
  {
    var i :| AnsweredBy(env, s.log, i, j);
  }

  /** Where anonymous requests are allowed there is no base key, so nothing is ever answered from the cache. */
  lemma AnonymousIsNeverAnswered(env: Env, site: Site, config: Config, actions: seq<Action>, j: nat)
    requires Sane(env) && SiteOk(site) && ConfigOk(config) && ActionsOk(actions)
    requires var log := Run(env, site, config, actions).log;
      && j < |log| && log[j].Evaluated? && log[j].incoming.endpoint in log[j].config
      && log[j].config[log[j].incoming.endpoint].policy.allow.none
    ensures !Run(env, site, config, actions).log[j].record.hit
  {
    RunIsTraced(env, site, config, actions);
    RunKeepsInv(env, site, config, actions);
    var s := Run(env, site, config, actions);
    RootedBase(site, s.log, j);
    if s.log[j].record.hit {
      HitHasBase(env, site, s, j);
    }
  }

  lemma RootedBase(site: Site, log: seq<Event>, j: nat)
    requires RootedLog(site, log) && j < |log| && log[j].Evaluated?
    ensures log[j].incoming.endpoint in log[j].config
    ensures log[j].record.base == "" <== log[j].config[log[j].incoming.endpoint].policy.allow.none
  {
    assert Rooted(site, log[j].config, log[j].incoming, log[j].record);
  }
}
