/**
  Whole runs: requests and reloads in any order, sharing one cache.  Every answer taken from the cache is
  shown to be the verdict of an earlier fresh evaluation of the same rule on the same request, made since
  the last reload and not yet expired.
 */
module Runs {
  import opened Wrappers
  import opened Text
  import opened State
  import Forwarded
  import opened Admission
  import opened Requests
  import opened Pagination
  import opened Descriptor
  import opened MemoryCache
  import opened CacheKeys
  import opened Variables
  import opened RuleSpec
  import opened Records
  import opened Ttl

  // ---- A chain of rules ----

  datatype Chain = Chain(view: View, world: World, records: seq<Evaluation>)

  function ResetCache(v: View): View { v.(cache := NO_CACHE) }

  /** The state the next rule starts from: the chain records the verdict once more. */
  function Concluded(s: Step): View {
    s.view.(rule := s.view.rule.(outcome := Some(s.record.verdict.outcome), reason := s.record.verdict.reason))
  }

  /** One rule evaluation, as a function; a chain is defined, and safe, for any of them. */
  type Evaluator = (Rule, World, View) -> Step

  ghost function EvaluatorOf(env: Env): Evaluator { (rule, w, v) => Evaluate(env, rule, w, v) }

  /** The rules of a plan in order, until one does not pass. */
  ghost function RunChain(eval: Evaluator, rules: seq<Rule>, w: World, v: View): Chain {
    if rules == [] then Chain(v, w, [])
    else
      var s := eval(rules[0], w, ResetCache(v));
      if s.record.verdict.outcome != Pass then Chain(Concluded(s), s.world, [s.record])
      else
        var rest := RunChain(eval, rules[1..], s.world, Concluded(s));
        Chain(rest.view, rest.world, [s.record] + rest.records)
  }

  function CallsMade(records: seq<Evaluation>): nat {
    if records == [] then 0 else records[0].sent + CallsMade(records[1..])
  }

  /** Every evaluation keeps its promises. */
  ghost predicate Trustworthy(env: Env, eval: Evaluator) {
    forall rule, w, v :: Promises(env, rule, w, v, eval(rule, w, v))
  }

  lemma RulesAreTrustworthy(env: Env)
    requires Clockwork(env) && env.serverMax > 0
    ensures Trustworthy(env, EvaluatorOf(env))
  {
    forall rule, w, v ensures Promises(env, rule, w, v, EvaluatorOf(env)(rule, w, v)) {
      EvaluationPromises(env, rule, w, v);
    }
  }

  /** The rules evaluated are a prefix of the plan, under the request's own base key. */
  lemma {:induction false} ChainIsPrefix(env: Env, eval: Evaluator, rules: seq<Rule>, w: World, v: View)
    requires Trustworthy(env, eval)
    ensures var records := RunChain(eval, rules, w, v).records;
      && |records| <= |rules| && (rules != [] ==> records != [])
      && forall i | 0 <= i < |records| :: records[i].rule == rules[i] && records[i].base == v.cacheKey
    decreases rules
  {
    if rules != [] {
      var s := eval(rules[0], w, ResetCache(v));
      assert Promises(env, rules[0], w, ResetCache(v), s);
      if s.record.verdict.outcome == Pass {
        ChainIsPrefix(env, eval, rules[1..], s.world, Concluded(s));
      }
    }
  }

  ghost predicate AllPassed(records: seq<Evaluation>) {
    forall i | 0 <= i < |records| :: records[i].verdict.outcome == Pass
  }

  ghost function LastOutcome(records: seq<Evaluation>): Outcome {
    if records == [] then Pass else records[|records| - 1].verdict.outcome
  }

  /** The records of a plan of `n` rules: all but the last passed, and the last passed iff all `n` rules did. */
  ghost predicate StopsAtFirst(records: seq<Evaluation>, n: nat) {
    && |records| <= n
    && (forall i | 0 <= i < |records| - 1 :: records[i].verdict.outcome == Pass)
    && (LastOutcome(records) == Pass <==> |records| == n && AllPassed(records))
  }

  lemma StopsLater(r: Evaluation, rest: seq<Evaluation>, n: nat)
    requires r.verdict.outcome == Pass && StopsAtFirst(rest, n)
    ensures StopsAtFirst([r] + rest, n + 1)
  {
    var records := [r] + rest;
    assert forall i | 0 <= i < |records| :: records[i] == if i == 0 then r else rest[i - 1];
    if AllPassed(records) {
      assert forall i | 0 <= i < |rest| :: rest[i] == records[i + 1];
    }
  }

  /** All rules evaluated but the last passed, and the chain passes iff the whole plan was evaluated and passed. */
  lemma {:induction false} ChainStopsAtFirst(eval: Evaluator, rules: seq<Rule>, w: World, v: View)
    ensures StopsAtFirst(RunChain(eval, rules, w, v).records, |rules|)
    decreases rules
  {
    if rules != [] {
      var s := eval(rules[0], w, ResetCache(v));
      if s.record.verdict.outcome == Pass {
        ChainStopsAtFirst(eval, rules[1..], s.world, Concluded(s));
        StopsLater(s.record, RunChain(eval, rules[1..], s.world, Concluded(s)).records, |rules| - 1);
      }
    }
  }

  /** An evaluation with a record in the list stored this entry under this key. */
  ghost predicate StoredIn(env: Env, records: seq<Evaluation>, key: string, held: Stored) {
    exists i | 0 <= i < |records| :: records[i].entry.Some? && records[i].storeKey == key
      && env.toJson(records[i].entry.value).Some? && held == StoredAs(env, records[i].entry.value)
  }

  /** An evaluation with a record in the list looked the key up when the entry had expired. */
  ghost predicate ExpiredIn(records: seq<Evaluation>, key: string, held: Stored) {
    exists i | 0 <= i < |records| :: records[i].lookupKey == key && Expired(held, records[i].lookedAt)
  }

  /**
    What changed in the cache was stored, or looked up after it expired, by an evaluation with a record in the list.
   */
  ghost predicate ChangedBy(env: Env, before: Contents, after: Contents, records: seq<Evaluation>) {
    && (forall k | k in after :: (k in before && after[k] == before[k]) || StoredIn(env, records, k, after[k]))
    && (forall k | k in before && k !in after :: ExpiredIn(records, k, before[k]) || Overwritten(records, k))
  }

  /** An evaluation with a record in the list stored something under the key. */
  ghost predicate Overwritten(records: seq<Evaluation>, key: string) {
    exists i | 0 <= i < |records| :: records[i].entry.Some? && records[i].storeKey == key
  }

  lemma ChangedLater(env: Env, before: Contents, between: Contents, after: Contents, r: Evaluation,
                     rest: seq<Evaluation>)
    requires Evolves(env, before, between, r) && StoreIsFresh(env, r) && ChangedBy(env, between, after, rest)
    ensures ChangedBy(env, before, after, [r] + rest)
  {
    var records := [r] + rest;
    assert records[0] == r && forall i | 0 <= i < |rest| :: records[i + 1] == rest[i];
    forall k | k in after ensures (k in before && after[k] == before[k]) || StoredIn(env, records, k, after[k]) {
      if StoredIn(env, rest, k, after[k]) {
        var i :| 0 <= i < |rest| && rest[i].entry.Some? && rest[i].storeKey == k
          && env.toJson(rest[i].entry.value).Some? && after[k] == StoredAs(env, rest[i].entry.value);
        assert records[i + 1] == rest[i];
      } else if r.entry.Some? && k == r.storeKey {
        assert records[0].storeKey == k;
      }
    }
    forall k | k in before && k !in after ensures ExpiredIn(records, k, before[k]) || Overwritten(records, k) {
      if k !in between {
        assert records[0].lookupKey == k;
      } else if Overwritten(rest, k) {
        var i :| 0 <= i < |rest| && rest[i].entry.Some? && rest[i].storeKey == k;
        assert records[i + 1] == rest[i];
      } else {
        var i :| 0 <= i < |rest| && rest[i].lookupKey == k && Expired(between[k], rest[i].lookedAt);
        assert records[i + 1] == rest[i];
        if r.entry.Some? && k == r.storeKey {
          assert records[0].storeKey == k;
        }
      }
    }
  }

  /**
    Every clock reading, every backend request and every change of the cache belongs to an evaluated rule: the rules
    after the first that does not pass touch nothing.
   */
  lemma {:induction false} ChainAccounts(env: Env, eval: Evaluator, rules: seq<Rule>, w: World, v: View)
    requires Trustworthy(env, eval)
    ensures var c := RunChain(eval, rules, w, v);
      && c.world.tick == w.tick + TICKS * |c.records| && c.world.calls == w.calls + CallsMade(c.records)
      && ChangedBy(env, w.contents, c.world.contents, c.records)
    decreases rules
  {
    if rules != [] {
      var s, c := eval(rules[0], w, ResetCache(v)), RunChain(eval, rules, w, v);
      assert Promises(env, rules[0], w, ResetCache(v), s);
      if s.record.verdict.outcome == Pass {
        ChainAccounts(env, eval, rules[1..], s.world, Concluded(s));
        var rest := RunChain(eval, rules[1..], s.world, Concluded(s));
        assert c.records[0] == s.record && c.records[1..] == rest.records;
        ChangedLater(env, w.contents, s.world.contents, rest.world.contents, s.record, rest.records);
      } else {
        assert c.records[1..] == [];
        ChangedLater(env, w.contents, s.world.contents, s.world.contents, s.record, []);
        assert [s.record] + [] == [s.record];
      }
    }
  }

  // ---- The pipeline and its steps ----

  /** The cache namespace and epoch, and the salted digest of a request's credential, endpoint and path. */
  datatype Site = Site(namespace: string, epoch: nat, digest: string -> string)

  /** The configured statuses; 0 keeps the built-in one. */
  datatype Statuses = Statuses(admission: int, pass: int, fail: int, error: int)

  datatype Endpoint = Endpoint(policy: Policy, rules: seq<Rule>, statuses: Statuses)

  type Config = map<string, Endpoint>

  /** A request: the endpoint it is for, what admission reads of it, and what rules see of it. */
  datatype Incoming = Incoming(endpoint: string, arrival: Arrival, request: RequestFacts)

  datatype Action = Serve(incoming: Incoming) | Reload(config: Config)

  /** What happened: a rule was evaluated, for a request under a configuration, or the cache was purged. */
  datatype Event = Evaluated(record: Evaluation, config: Config, incoming: Incoming) | Purged

  datatype System = System(config: Config, world: World, log: seq<Event>)

  /** cacheKeyFromRequest */
  function Raw(policy: Policy, incoming: Incoming): string {
    RawText(CredentialText(policy.allow, incoming.arrival), incoming.endpoint, incoming.request.path)
  }

  /** deriveCacheKey: anonymous endpoints are never cached. */
  function DeriveCacheKey(site: Site, policy: Policy, incoming: Incoming): string {
    if policy.allow.none then "" else BaseKey(site.namespace, site.epoch, site.digest(Raw(policy, incoming)))
  }

  function Events(config: Config, incoming: Incoming, records: seq<Evaluation>): (events: seq<Event>)
    ensures |events| == |records|
    ensures forall i | 0 <= i < |records| :: events[i] == Evaluated(records[i], config, incoming)
  {
    seq(|records|, i requires 0 <= i < |records| => Evaluated(records[i], config, incoming))
  }

  /** A request rejected by admission, or for an unknown endpoint, evaluates no rule. */
  ghost function Plan(config: Config, incoming: Incoming): seq<Rule> {
    if incoming.endpoint in config && Admit(config[incoming.endpoint].policy, incoming.arrival).Authenticated()
    then config[incoming.endpoint].rules else []
  }

  /** The state a chain starts in. */
  ghost function StartView(site: Site, config: Config, incoming: Incoming): View {
    if incoming.endpoint !in config then FreshView("", incoming.request, [])
    else
      var policy := config[incoming.endpoint].policy;
      FreshView(DeriveCacheKey(site, policy, incoming), incoming.request, Admit(policy, incoming.arrival).credentials)
  }

  ghost function ServeChain(env: Env, site: Site, s: System, incoming: Incoming): Chain {
    RunChain(EvaluatorOf(env), Plan(s.config, incoming), s.world, StartView(site, s.config, incoming))
  }

  ghost function Next(env: Env, site: Site, s: System, a: Action): System {
    match a
    case Serve(incoming) =>
      var c := ServeChain(env, site, s, incoming);
      System(s.config, c.world, s.log + Events(s.config, incoming, c.records))
    case Reload(config) =>
      System(config, s.world.(contents := AfterPurge(s.world.contents, Prefix(site.namespace, site.epoch))),
             s.log + [Purged])
  }

  ghost function Run(env: Env, site: Site, config: Config, actions: seq<Action>): System {
    if actions == [] then System(config, World(map[], 0, 0), [])
    else Next(env, site, Run(env, site, config, actions[..|actions| - 1]), actions[|actions| - 1])
  }

  // ---- What holds of every run ----

  ghost predicate SiteOk(site: Site) { forall raw :: PipeFree(site.digest(raw)) }

  /** Rule names are free of the key separator. */
  ghost predicate ConfigOk(config: Config) {
    forall name, i | name in config && 0 <= i < |config[name].rules| :: PipeFree(config[name].rules[i].name)
  }

  ghost predicate ActionsOk(actions: seq<Action>) {
    forall i | 0 <= i < |actions| :: actions[i].Reload? ==> ConfigOk(actions[i].config)
  }

  /** The base key of a record is one this site derives. */
  ghost predicate BaseOk(site: Site, base: string) {
    base == "" || exists raw :: base == Prefix(site.namespace, site.epoch) + site.digest(raw)
  }

  ghost predicate RecordOk(site: Site, r: Evaluation) { PipeFree(r.rule.name) && BaseOk(site, r.base) }

  /** Event `i` stored `key`. */
  ghost predicate StoredAt(log: seq<Event>, i: nat, key: string) {
    i < |log| && log[i].Evaluated? && log[i].record.entry.Some? && log[i].record.storeKey == key
  }

  /** Event `i` is the latest word on `key` before event `j`: it stored it, and nothing since stored or purged it. */
  ghost predicate LatestWord(log: seq<Event>, i: nat, j: nat, key: string) {
    && i < j <= |log| && StoredAt(log, i, key)
    && forall k | i < k < j :: !log[k].Purged? && !StoredAt(log, k, key)
  }

  /** Every entry held was written by the latest word on its key, in the past. */
  ghost predicate Backed(env: Env, s: System) {
    forall key | key in s.world.contents :: exists i :: Backs(env, s, key, i)
  }

  ghost predicate Backs(env: Env, s: System, key: string, i: nat) {
    && LatestWord(s.log, i, |s.log|, key)
    && var r := s.log[i].record;
       && StoreIsFresh(env, r) && key in s.world.contents && s.world.contents[key] == StoredAs(env, r.entry.value)
       && r.entry.value.storedAt <= env.clock(s.world.tick)
  }

  /**
    The evaluation `b` that hit was answered by the fresh evaluation `a`: same base key, rule name, hash of
    the request and hash of the variables, same pass or fail and reason, looked up within a lifetime that the
    server's ceiling bounds, without asking a backend.
   */
  ghost predicate Answers(env: Env, a: Evaluation, b: Evaluation) {
    && !a.hit && a.entry.Some? && StoreIsFresh(env, a)
    && b.request.Some? && b.request.value.url != "" && b.sent == 0 && b.entry.None?
    && a.base == b.base && a.rule.name == b.rule.name
    && BackendHash(env, a.rule, a.request.value) == BackendHash(env, b.rule, b.request.value)
    && UpstreamHash(env, a.rule, a.storeVars) == UpstreamHash(env, b.rule, b.vars)
    && a.verdict == b.verdict
    && a.entry.value.storedAt <= b.lookedAt <= a.entry.value.expiresAt
  }

  /** Every hit in the log is answered by the latest word on its key, and so since the last reload. */
  ghost predicate Sound(env: Env, log: seq<Event>) {
    forall j | 0 <= j < |log| && log[j].Evaluated? && log[j].record.hit :: exists i :: AnsweredBy(env, log, i, j)
  }

  ghost predicate AnsweredBy(env: Env, log: seq<Event>, i: nat, j: nat) {
    && j < |log| && log[j].Evaluated?
    && LatestWord(log, i, j, log[j].record.lookupKey)
    && Answers(env, log[i].record, log[j].record)
  }

  ghost predicate RecordsOk(site: Site, log: seq<Event>) {
    forall i | 0 <= i < |log| && log[i].Evaluated? :: RecordOk(site, log[i].record)
  }

  /** Everything the cache holds belongs to this site. */
  ghost predicate KeysOk(site: Site, c: Contents) {
    forall key | key in c :: Prefix(site.namespace, site.epoch) <= key
  }

  ghost predicate Inv(env: Env, site: Site, s: System) {
    && Backed(env, s) && Sound(env, s.log) && RecordsOk(site, s.log) && KeysOk(site, s.world.contents)
  }

  // ---- One evaluation preserves the invariant ----

  lemma LogGrows(log: seq<Event>, e: Event, i: nat, j: nat, key: string)
    requires LatestWord(log, i, j, key)
    ensures LatestWord(log + [e], i, j, key)
    ensures j == |log| && e.Evaluated? && !(e.record.entry.Some? && e.record.storeKey == key) ==>
            LatestWord(log + [e], i, j + 1, key)
  {
    var more := log + [e];
    assert forall k | 0 <= k < |log| :: more[k] == log[k];
    forall k | i < k < j ensures !more[k].Purged? && !StoredAt(more, k, key) {
      assert !log[k].Purged? && !StoredAt(log, k, key);
    }
    assert StoredAt(more, i, key);
  }

  lemma SoundGrows(env: Env, log: seq<Event>, e: Event, i: nat)
    requires Sound(env, log)
    requires e.Evaluated? && e.record.hit ==> AnsweredBy(env, log + [e], i, |log|)
    ensures Sound(env, log + [e])
  {
    var more := log + [e];
    forall j | 0 <= j < |more| && more[j].Evaluated? && more[j].record.hit
      ensures exists i :: AnsweredBy(env, more, i, j) {
      if j < |log| {
        assert more[j] == log[j];
        var i :| AnsweredBy(env, log, i, j);
        LogGrows(log, e, i, j, log[j].record.lookupKey);
        assert AnsweredBy(env, more, i, j);
      }
    }
  }

  /** Sharing a key means sharing everything the key was made of. */
  lemma SharedKey(env: Env, site: Site, a: Evaluation, b: Evaluation)
    requires SiteOk(site) && Hashes(env) && RecordOk(site, a) && RecordOk(site, b)
    requires a.request.Some? && a.base != "" && b.request.Some? && b.base != ""
    requires CacheKey(env, a.rule, a.request.value, a.base, a.storeVars)
      == CacheKey(env, b.rule, b.request.value, b.base, b.vars)
    ensures a.base == b.base && a.rule.name == b.rule.name
    ensures BackendHash(env, a.rule, a.request.value) == BackendHash(env, b.rule, b.request.value)
    ensures UpstreamHash(env, a.rule, a.storeVars) == UpstreamHash(env, b.rule, b.vars)
  {
    var p := Prefix(site.namespace, site.epoch);
    var x :| a.base == p + site.digest(x);
    var y :| b.base == p + site.digest(y);
    KeyInjective(p, site.digest(x), a.rule.name, BackendHash(env, a.rule, a.request.value),
                 UpstreamHash(env, a.rule, a.storeVars),
                 site.digest(y), b.rule.name, BackendHash(env, b.rule, b.request.value),
                 UpstreamHash(env, b.rule, b.vars));
  }

  lemma HitIsAnswered(env: Env, site: Site, s: System, r: Evaluation, q: Incoming) returns (i: nat)
    requires Sane(env) && SiteOk(site) && Inv(env, site, s) && RecordOk(site, r)
    requires r.hit && HitIsHeld(env, s.world.contents, r) && r.lookedAt == env.clock(s.world.tick)
    ensures AnsweredBy(env, s.log + [Evaluated(r, s.config, q)], i, |s.log|)
  {
    i :| Backs(env, s, r.lookupKey, i);
    var a := s.log[i].record;
    assert RecordOk(site, a);
    SharedKey(env, site, a, r);
    assert KeptBy(env, a.entry.value, env.fromJson(env.toJson(a.entry.value).value));
    LogGrows(s.log, Evaluated(r, s.config, q), i, |s.log|, r.lookupKey);
    assert (s.log + [Evaluated(r, s.config, q)])[i] == s.log[i];
  }

  lemma KeysStay(env: Env, site: Site, before: Contents, after: Contents, r: Evaluation)
    requires KeysOk(site, before) && Evolves(env, before, after, r) && StoreIsFresh(env, r) && RecordOk(site, r)
    ensures KeysOk(site, after)
  {
    if r.entry.Some? {
      var raw :| r.base == Prefix(site.namespace, site.epoch) + site.digest(raw);
      KeyHasPrefix(site.namespace, site.epoch, site.digest(raw), r.rule.name,
                   BackendHash(env, r.rule, r.request.value), UpstreamHash(env, r.rule, r.storeVars));
    }
  }

  /** The system once a record has been appended. */
  ghost function Append(s: System, world: World, r: Evaluation, q: Incoming): System {
    System(s.config, world, s.log + [Evaluated(r, s.config, q)])
  }

  lemma NewlyBacked(env: Env, s: System, world: World, r: Evaluation, q: Incoming)
    requires r.entry.Some? && StoreIsFresh(env, r) && Evolves(env, s.world.contents, world.contents, r)
    requires r.entry.value.storedAt <= env.clock(world.tick)
    ensures Backs(env, Append(s, world, r, q), r.storeKey, |s.log|)
  {
    var t := Append(s, world, r, q);
    assert t.log[|s.log|] == Evaluated(r, s.config, q) && |t.log| == |s.log| + 1;
  }

  lemma BackedAsBefore(env: Env, s: System, world: World, r: Evaluation, q: Incoming, key: string, i: nat)
    requires Backs(env, s, key, i) && !(r.entry.Some? && key == r.storeKey) && key in world.contents
    requires Evolves(env, s.world.contents, world.contents, r)
    requires env.clock(s.world.tick) <= env.clock(world.tick)
    ensures Backs(env, Append(s, world, r, q), key, i)
  {
    LogGrows(s.log, Evaluated(r, s.config, q), i, |s.log|, key);
    assert Append(s, world, r, q).log[i] == s.log[i];
  }

  lemma StillBacked(env: Env, s: System, world: World, r: Evaluation, q: Incoming)
    requires Clockwork(env) && Backed(env, s) && StoreIsFresh(env, r)
    requires Evolves(env, s.world.contents, world.contents, r) && world.tick == s.world.tick + TICKS
    requires r.entry.Some? ==> r.entry.value.storedAt == env.clock(s.world.tick + 3)
    ensures Backed(env, Append(s, world, r, q))
  {
    var t := Append(s, world, r, q);
    assert env.clock(s.world.tick) <= env.clock(world.tick) && env.clock(s.world.tick + 3) <= env.clock(world.tick);
    forall key | key in world.contents ensures exists i :: Backs(env, t, key, i) {
      if r.entry.Some? && key == r.storeKey {
        NewlyBacked(env, s, world, r, q);
      } else {
        var i :| Backs(env, s, key, i);
        BackedAsBefore(env, s, world, r, q, key, i);
      }
    }
  }

  /** One evaluation, from any system that satisfies the invariant, leads to one that does. */
  lemma EvaluationKeepsInv(env: Env, site: Site, s: System, q: Incoming, rule: Rule, v: View, step: Step)
    requires Sane(env) && SiteOk(site) && Inv(env, site, s) && Promises(env, rule, s.world, v, step)
    requires PipeFree(rule.name) && BaseOk(site, v.cacheKey)
    ensures Inv(env, site, Append(s, step.world, step.record, q))
  {
    var r := step.record;
    var i := 0;
    if r.hit {
      i := HitIsAnswered(env, site, s, r, q);
    }
    SoundGrows(env, s.log, Evaluated(r, s.config, q), i);
    StillBacked(env, s, step.world, r, q);
    KeysStay(env, site, s.world.contents, step.world.contents, r);
    var log := s.log + [Evaluated(r, s.config, q)];
    assert forall k | 0 <= k < |s.log| :: log[k] == s.log[k];
  }

  lemma EventsCons(config: Config, q: Incoming, log: seq<Event>, r: Evaluation, rest: seq<Evaluation>)
    ensures log + Events(config, q, [r] + rest) == log + [Evaluated(r, config, q)] + Events(config, q, rest)
  {
  }

  lemma EventsOne(config: Config, q: Incoming, r: Evaluation)
    ensures Events(config, q, [r]) == [Evaluated(r, config, q)]
  {
  }

  lemma {:induction false} ChainKeepsInv(env: Env, site: Site, eval: Evaluator, s: System, q: Incoming,
                                         rules: seq<Rule>, v: View)
    requires Sane(env) && SiteOk(site) && Trustworthy(env, eval) && Inv(env, site, s) && BaseOk(site, v.cacheKey)
    requires forall i | 0 <= i < |rules| :: PipeFree(rules[i].name)
    ensures var c := RunChain(eval, rules, s.world, v);
      Inv(env, site, System(s.config, c.world, s.log + Events(s.config, q, c.records)))
    decreases rules
  {
    var c := RunChain(eval, rules, s.world, v);
    if rules == [] {
      assert s.log + Events(s.config, q, c.records) == s.log;
    } else {
      var step := eval(rules[0], s.world, ResetCache(v));
      assert Promises(env, rules[0], s.world, ResetCache(v), step);
      EvaluationKeepsInv(env, site, s, q, rules[0], ResetCache(v), step);
      var t := Append(s, step.world, step.record, q);
      if step.record.verdict.outcome != Pass {
        EventsOne(s.config, q, step.record);
      } else {
        ChainKeepsInv(env, site, eval, t, q, rules[1..], Concluded(step));
        EventsCons(s.config, q, s.log, step.record, RunChain(eval, rules[1..], step.world, Concluded(step)).records);
      }
    }
  }

  /** A reload empties the cache of this site. */
  lemma ReloadEmpties(site: Site, c: Contents)
    requires KeysOk(site, c)
    ensures AfterPurge(c, Prefix(site.namespace, site.epoch)) == map[]
  {
    assert Prefix(site.namespace, site.epoch) != "";
  }

  lemma StepKeepsInv(env: Env, site: Site, s: System, a: Action)
    requires Sane(env) && SiteOk(site) && Inv(env, site, s) && ConfigOk(s.config)
    ensures Inv(env, site, Next(env, site, s, a))
  {
    match a
    case Serve(incoming) =>
      var start := StartView(site, s.config, incoming);
      assert BaseOk(site, start.cacheKey);
      RulesAreTrustworthy(env);
      ChainKeepsInv(env, site, EvaluatorOf(env), s, incoming, Plan(s.config, incoming), start);
    case Reload(config) =>
      ReloadEmpties(site, s.world.contents);
      SoundGrows(env, s.log, Purged, 0);
  }

  lemma {:induction false} RunKeepsInv(env: Env, site: Site, config: Config, actions: seq<Action>)
    requires Sane(env) && SiteOk(site) && ConfigOk(config) && ActionsOk(actions)
    ensures Inv(env, site, Run(env, site, config, actions)) && ConfigOk(Run(env, site, config, actions).config)
  {
    if actions != [] {
      RunKeepsInv(env, site, config, actions[..|actions| - 1]);
      StepKeepsInv(env, site, Run(env, site, config, actions[..|actions| - 1]), actions[|actions| - 1]);
    }
  }

  // ---- The promises to a user of the cache ----

  /** The variables take part in the key of this record. */
  predicate HashesVars(rule: Rule, vars: map<string, Vars>) { rule.cache.strict != Some(false) && vars != map[] }

  /** Variables that take part in one of the keys take part in both, and have the same text. */
  ghost predicate SharesText(a: Evaluation, b: Evaluation) {
    HashesVars(a.rule, a.storeVars) || HashesVars(b.rule, b.vars) ==>
      && HashesVars(a.rule, a.storeVars) && HashesVars(b.rule, b.vars) && VarsText(a.storeVars) == VarsText(b.vars)
  }

  lemma SameVarsText(env: Env, a: Evaluation, b: Evaluation)
    requires Hashes(env) && Collisionless(env)
    requires UpstreamHash(env, a.rule, a.storeVars) == UpstreamHash(env, b.rule, b.vars)
    ensures SharesText(a, b)
  {
  }

  /**
    The hit at `j` repeats the pass or fail of the earlier fresh evaluation at `i`, made with the same base key, rule
    name, canonical backend request and, where they are hashed, text of the exported variables; the entry was stored
    since the last reload and has not expired, and no backend is asked.
   */
  ghost predicate SoundAnswer(env: Env, log: seq<Event>, i: nat, j: nat) {
    && i < j < |log| && log[i].Evaluated? && log[j].Evaluated?
    && var a, b := log[i].record, log[j].record;
       && !a.hit && a.request.Some? && b.request.Some? && a.entry.Some?
       && a.base == b.base != "" && a.rule.name == b.rule.name
       && RequestText(env, a.rule, a.request.value) == RequestText(env, b.rule, b.request.value)
       && SharesText(a, b)
       && a.verdict == b.verdict && b.verdict.outcome != Error && b.sent == 0
       && a.entry.value.storedAt <= b.lookedAt <= a.entry.value.expiresAt
       && (forall k | i < k < j :: !log[k].Purged?)
  }

  lemma AnswerIsSound(env: Env, log: seq<Event>, i: nat, j: nat)
    requires Hashes(env) && Collisionless(env) && AnsweredBy(env, log, i, j)
    ensures SoundAnswer(env, log, i, j)
  {
    SameVarsText(env, log[i].record, log[j].record);
  }

  /** Over every run of requests and reloads, a hit repeats an earlier fresh evaluation. */
  lemma HitRepeatsFresh(env: Env, site: Site, config: Config, actions: seq<Action>, j: nat) returns (i: nat)
    requires Sane(env) && Collisionless(env) && SiteOk(site) && ConfigOk(config) && ActionsOk(actions)
    requires var log := Run(env, site, config, actions).log; j < |log| && log[j].Evaluated? && log[j].record.hit
    ensures SoundAnswer(env, Run(env, site, config, actions).log, i, j)
  {
    RunKeepsInv(env, site, config, actions);
    var log := Run(env, site, config, actions).log;
    i :| AnsweredBy(env, log, i, j);
    AnswerIsSound(env, log, i, j);
  }

  /** The headers of a request that its rule does not leave out of the key. */
  function KeyHeaders(env: Env, rule: Rule, r: Rendered): map<string, string> {
    Kept(r.headers, env.exclude(rule.cache.includeProxyHeaders))
  }

  predicate CleanRequest(env: Env, rule: Rule, r: Rendered) { Clean(r.verb, r.url, KeyHeaders(env, rule, r), r.body) }

  /**
    When neither request holds a separator, a hit is answered by an earlier evaluation of the very same backend
    request: method, URL, body and every header that is not left out of the key.
   */
  lemma HitAsksTheSame(env: Env, site: Site, config: Config, actions: seq<Action>, j: nat) returns (i: nat)
    requires Sane(env) && Collisionless(env) && SiteOk(site) && ConfigOk(config) && ActionsOk(actions)
    requires var log := Run(env, site, config, actions).log; j < |log| && log[j].Evaluated? && log[j].record.hit
    ensures var log := Run(env, site, config, actions).log;
      && i < j && log[i].Evaluated? && !log[i].record.hit && log[i].record.verdict == log[j].record.verdict
      && log[i].record.request.Some? && log[j].record.request.Some?
      && var a, b := log[i].record, log[j].record; var r, q := a.request.value, b.request.value;
         CleanRequest(env, a.rule, r) && CleanRequest(env, b.rule, q) ==>
           && r.verb == q.verb && r.url == q.url && r.body == q.body
           && KeyHeaders(env, a.rule, r) == KeyHeaders(env, b.rule, q)
  {
    i := HitRepeatsFresh(env, site, config, actions, j);
    var log := Run(env, site, config, actions).log;
    var a, b := log[i].record, log[j].record;
    if CleanRequest(env, a.rule, a.request.value) && CleanRequest(env, b.rule, b.request.value) {
      SameRequest(env, a.rule, a.request.value, b.rule, b.request.value);
    }
  }

  lemma SameRequest(env: Env, rule: Rule, r: Rendered, other: Rule, q: Rendered)
    requires CleanRequest(env, rule, r) && CleanRequest(env, other, q)
    requires RequestText(env, rule, r) == RequestText(env, other, q)
    ensures r.verb == q.verb && r.url == q.url && r.body == q.body
      && KeyHeaders(env, rule, r) == KeyHeaders(env, other, q)
  {
    CanonicalInjective(r.verb, r.url, KeyHeaders(env, rule, r), r.body, q.verb, q.url, KeyHeaders(env, other, q),
                       q.body);
  }

  /** Headers that take part in both keys agree. */
  lemma KeptAgree(exclude: seq<string>, exclude': seq<string>, m: map<string, string>, n: map<string, string>,
                  name: string)
    requires Kept(m, exclude) == Kept(n, exclude') && !Excluded(exclude, name) && !Excluded(exclude', name)
    ensures (name in m <==> name in n) && (name in m ==> m[name] == n[name])
  {
    assert name in m <==> name in Kept(m, exclude);
    assert name in n <==> name in Kept(n, exclude');
  }

  /**
    A header that the key of a rule never leaves out: no tracing or correlation header, and no proxy header where those
    are left out.
   */
  ghost predicate Telling(correlation: string, rule: Rule, name: string) {
    && !Excluded(TRACING, name) && !(correlation != "" && ToLower(name) == ToLower(correlation))
    && !(rule.cache.includeProxyHeaders == Some(false) && Excluded(PROXY, name))
  }

  /** The two header maps agree on every header that is telling for both rules. */
  ghost predicate AgreeOnTelling(correlation: string, a: Rule, m: map<string, string>, b: Rule,
                                 n: map<string, string>) {
    forall name | Telling(correlation, a, name) && Telling(correlation, b, name) ::
      (name in m <==> name in n) && (name in m ==> m[name] == n[name])
  }

  lemma KeyHeadersAgree(env: Env, correlation: string, a: Rule, r: Rendered, b: Rule, q: Rendered)
    requires forall p :: env.exclude(p) == ExcludedNames(correlation, p)
    requires KeyHeaders(env, a, r) == KeyHeaders(env, b, q)
    ensures AgreeOnTelling(correlation, a, r.headers, b, q.headers)
  {
    forall name | Telling(correlation, a, name) && Telling(correlation, b, name)
      ensures (name in r.headers <==> name in q.headers) && (name in r.headers ==> r.headers[name] == q.headers[name])
    {
      LeftOutIff(correlation, a.cache.includeProxyHeaders, name);
      LeftOutIff(correlation, b.cache.includeProxyHeaders, name);
      KeptAgree(env.exclude(a.cache.includeProxyHeaders), env.exclude(b.cache.includeProxyHeaders), r.headers,
                q.headers,
                name);
    }
  }

  /** The same with the names that the code leaves out: a hit and its answer agree on every telling header. */
  lemma HitAgreesOnHeaders(env: Env, site: Site, config: Config, actions: seq<Action>, correlation: string, j: nat)
    returns (i: nat)
    requires Sane(env) && Collisionless(env) && SiteOk(site) && ConfigOk(config) && ActionsOk(actions)
    requires forall p :: env.exclude(p) == ExcludedNames(correlation, p)
    requires var log := Run(env, site, config, actions).log; j < |log| && log[j].Evaluated? && log[j].record.hit
    ensures var log := Run(env, site, config, actions).log;
      && i < j && log[i].Evaluated? && !log[i].record.hit && log[i].record.verdict == log[j].record.verdict
      && log[i].record.request.Some? && log[j].record.request.Some?
      && var a, b := log[i].record, log[j].record; var r, q := a.request.value, b.request.value;
         CleanRequest(env, a.rule, r) && CleanRequest(env, b.rule, q) ==>
           AgreeOnTelling(correlation, a.rule, r.headers, b.rule, q.headers)
  {
    i := HitAsksTheSame(env, site, config, actions, j);
    var log := Run(env, site, config, actions).log;
    var a, b := log[i].record, log[j].record;
    if CleanRequest(env, a.rule, a.request.value) && CleanRequest(env, b.rule, b.request.value) {
      KeyHeadersAgree(env, correlation, a.rule, a.request.value, b.rule, b.request.value);
    }
  }

  /** Every entry ever held by a run lives for more than nothing and for no longer than the server's ceiling. */
  lemma HeldLifetimes(env: Env, site: Site, config: Config, actions: seq<Action>, key: string)
    requires Sane(env) && SiteOk(site) && ConfigOk(config) && ActionsOk(actions)
    requires key in Run(env, site, config, actions).world.contents
    ensures var held := Run(env, site, config, actions).world.contents[key];
      0 < held.expiresAt - held.storedAt <= env.serverMax
    ensures Prefix(site.namespace, site.epoch) <= key
  {
    RunKeepsInv(env, site, config, actions);
    var s := Run(env, site, config, actions);
    var i :| Backs(env, s, key, i);
  }

  /** A reload at any point of any run leaves nothing in the cache for later requests to find. */
  lemma ReloadForgets(env: Env, site: Site, config: Config, actions: seq<Action>, replacement: Config)
    requires Sane(env) && SiteOk(site) && ConfigOk(config) && ActionsOk(actions)
    ensures Run(env, site, config, actions + [Reload(replacement)]).world.contents == map[]
  {
    RunKeepsInv(env, site, config, actions);
    var more := actions + [Reload(replacement)];
    assert more[..|actions|] == actions;
    ReloadEmpties(site, Run(env, site, config, actions).world.contents);
  }

  // ---- Admission and the base key ----

  /**
    A request that its forwarding headers stop, or that carries no allowed credential where one is required,
    evaluates no rule and touches neither the cache nor a backend.
   */
  lemma RejectedTouchesNothing(env: Env, site: Site, s: System, incoming: Incoming)
    requires incoming.endpoint in s.config
    requires var policy, a := s.config[incoming.endpoint].policy, incoming.arrival;
      && Forwarded.Codec(policy.parse, policy.show)
      && (Stopped(policy, a) || (policy.required && !HasCredential(policy, a)))
    ensures ServeChain(env, site, s, incoming).records == [] && Next(env, site, s, Serve(incoming)) == s
  {
    AuthenticatedIff(s.config[incoming.endpoint].policy, incoming.arrival);
    var c := ServeChain(env, site, s, incoming);
    assert c.records == [] && s.log + Events(s.config, incoming, c.records) == s.log;
  }

  /** Which credential, endpoint and path a request stands for in the cache. */
  ghost predicate PlainRequest(policy: Policy, incoming: Incoming) {
    && PresentsPlainly(policy.allow, incoming.arrival)
    && PipeFree(incoming.endpoint) && PipeFree(incoming.request.path)
  }

  /** Requests without separators share a base key only when they present one credential to one endpoint at one path. */
  lemma BaseKeyTellsWho(site: Site, p: Policy, a: Incoming, q: Policy, b: Incoming)
    requires forall s, t | site.digest(s) == site.digest(t) :: s == t
    requires PlainRequest(p, a) && PlainRequest(q, b)
    requires DeriveCacheKey(site, p, a) == DeriveCacheKey(site, q, b) != ""
    ensures PresentTheSame(p.allow, a.arrival, q.allow, b.arrival)
    ensures a.endpoint == b.endpoint && a.request.path == b.request.path
  {
    SameTail(Prefix(site.namespace, site.epoch), site.digest(Raw(p, a)), site.digest(Raw(q, b)));
    PlainCredential(p.allow, a.arrival);
    PlainCredential(q.allow, b.arrival);
    RawInjective(CredentialText(p.allow, a.arrival), a.endpoint, a.request.path,
                 CredentialText(q.allow, b.arrival), b.endpoint, b.request.path);
    SameCredential(p.allow, a.arrival, q.allow, b.arrival);
  }
}
