/** What the record of one evaluation says about the cache before and after it. */
module Records {
  import opened Wrappers
  import opened State
  import opened Pagination
  import opened MemoryCache
  import opened CacheKeys
  import opened RuleSpec
  import opened Ttl

  // ---- What is assumed of the libraries ----

  /** The clock never runs backwards, and no reading is the zero time. */
  ghost predicate Clockwork(env: Env) {
    && (forall i :: env.clock(i) > ZERO_TIME)
    && (forall i, j | i <= j :: env.clock(i) <= env.clock(j))
  }

  /**
    JSON keeps the outcome, the reason and the times of an entry, and which variables it exports; the values of those
    may change their type but stay JSON values.
   */
  ghost predicate Lossless(env: Env) {
    forall e {:trigger env.toJson(e)} | env.toJson(e).Some? :: KeptBy(env, e, env.fromJson(env.toJson(e).value))
  }

  predicate KeptBy(env: Env, e: RuleEntry, read: Option<RuleEntry>) {
    && read.Some? && read.value.outcome == e.outcome && read.value.reason == e.reason
    && read.value.storedAt == e.storedAt && read.value.expiresAt == e.expiresAt
    && read.value.exported.Keys == e.exported.Keys
    && forall n | n in read.value.exported :: env.json(read.value.exported[n])
  }

  /** Hashes print as non-empty text without a '|'. */
  ghost predicate Hashes(env: Env) { forall s :: PipeFree(env.hash(s)) && env.hash(s) != "" }

  /** No two texts share a hash. */
  ghost predicate Collisionless(env: Env) { forall s, t | env.hash(s) == env.hash(t) :: s == t }

  ghost predicate Sane(env: Env) {
    Clockwork(env) && Lossless(env) && Hashes(env) && env.serverMax > 0
  }

  // ---- One record ----

  /** A hit answers from an entry that is held under the key looked up, and asks no backend. */
  ghost predicate HitIsHeld(env: Env, c: Contents, r: Evaluation) {
    r.hit ==>
      && r.request.Some? && r.request.value.url != "" && r.base != "" && r.entry.None? && r.sent == 0
      && r.lookupKey == CacheKey(env, r.rule, r.request.value, r.base, r.vars)
      && r.lookupKey in c && !Expired(c[r.lookupKey], r.lookedAt)
      && env.fromJson(c[r.lookupKey].decision).Some?
      && var e := env.fromJson(c[r.lookupKey].decision).value; r.verdict == Verdict(e.outcome, e.reason)
  }

  /** The entry written for a record. */
  function StoredAs(env: Env, e: RuleEntry): Stored
    requires env.toJson(e).Some?
  {
    Stored(env.toJson(e).value, 0, "", map[], e.storedAt, e.expiresAt)
  }

  /** What is stored is the fresh pass or fail just reached, for a lifetime within the server's ceiling. */
  ghost predicate StoreIsFresh(env: Env, r: Evaluation) {
    r.entry.Some? ==>
      && !r.hit && r.request.Some? && r.request.value.url != "" && r.base != ""
      && r.storeKey == CacheKey(env, r.rule, r.request.value, r.base, r.storeVars)
      && r.verdict == Verdict(r.entry.value.outcome, r.entry.value.reason)
      && r.verdict.outcome != Error
      && env.toJson(r.entry.value).Some?
      && 0 < r.entry.value.expiresAt - r.entry.value.storedAt <= env.serverMax
  }

  /** Afterwards the cache holds what it held, except for the entry stored and an expired entry that was looked up. */
  ghost predicate Evolves(env: Env, before: Contents, after: Contents, r: Evaluation) {
    && (r.entry.Some? && env.toJson(r.entry.value).Some? ==>
          r.storeKey in after && after[r.storeKey] == StoredAs(env, r.entry.value))
    && (forall k | k in after && !(r.entry.Some? && k == r.storeKey) :: k in before && after[k] == before[k])
    && (forall k | k in before && k !in after :: k == r.lookupKey && Expired(before[k], r.lookedAt))
  }

  lemma LifeTimeBound(env: Env, rule: Rule, outcome: Outcome, headers: map<string, string>)
    requires env.serverMax > 0 && LifeTime(env, rule, outcome, headers) > 0
    ensures LifeTime(env, rule, outcome, headers) <= env.serverMax && outcome != Error
  {
    EffectiveIsMinimum(env.parseDuration, outcome, env.serverMax, TtlConfig("", ""), rule.cache, headers);
  }

  lemma {:induction false} LocalsKeepView(bindings: seq<Binding>, start: View, v: View)
    ensures var (w, _) := BindLocals(bindings, start, v);
      && w.cacheKey == v.cacheKey && w.rules == v.rules && w.backend == v.backend && w.cache == v.cache
      && w.rule.exported == v.rule.exported
    decreases bindings
  {
    if bindings != [] {
      match bindings[0].eval(start, v.rule.locals)
      case Err(_) =>
      case Ok(x) =>
        LocalsKeepView(bindings[1..], start, v.(rule := v.rule.(locals := v.rule.locals[bindings[0].name := x])));
    }
  }

  lemma FinishKeeps(rule: Rule, verdict: Verdict, v: View)
    ensures var done := Finish(rule, verdict, v);
      && done.cacheKey == v.cacheKey && done.backend == v.backend
      && done.rule.outcome == Some(verdict.outcome) && done.rule.reason == verdict.reason
  {
  }

  lemma AuthenticateKeeps(rule: Rule, v: View)
    ensures Authenticate(rule, v).0 == SetAuth(v, Authenticate(rule, v).0.rule.auth)
  {
  }

  lemma PrepareKeeps(env: Env, rule: Rule, start: View)
    ensures Prepare(env, rule, start).view.cacheKey == start.cacheKey
    ensures Prepare(env, rule, start).view.rules == start.rules
    ensures Prepare(env, rule, start).view.rule.exported == map[]
  {
    AuthenticateKeeps(rule, Reset(start));
    var v := Authenticate(rule, Reset(start)).0;
    assert v.cacheKey == start.cacheKey && v.rules == start.rules;
    var p := Prepare(env, rule, start);
    assert p.view == v || p.view == v.(backend := p.view.backend);
  }

  lemma FreshKeeps(env: Env, rule: Rule, r: Rendered, v: View, w: World)
    ensures Fresh(env, rule, r, v, w).view.cacheKey == v.cacheKey
    ensures Fresh(env, rule, r, v, w).view.rules == v.rules
    ensures Fresh(env, rule, r, v, w).view.rule.exported == v.rule.exported
  {
    var f := FetchAll(env.web, r, rule.backend, w.calls);
    var answered := v.(backend := Conclude(rule.backend, v.backend, f));
    LocalsKeepView(rule.locals, answered, answered);
  }

  /** What a finished evaluation would store carries its verdict and lives no longer than the ceiling. */
  lemma NewEntryFacts(env: Env, rule: Rule, v: View, verdict: Verdict, now: int)
    requires env.serverMax > 0 && NewEntry(env, rule, v, verdict, now).Some?
    ensures var e := NewEntry(env, rule, v, verdict, now).value;
      && e.outcome == verdict.outcome != Error && e.reason == verdict.reason
      && e.storedAt == now && 0 < e.expiresAt - now <= env.serverMax
  {
    LifeTimeBound(env, rule, verdict.outcome, v.backend.headers);
  }

  /** Either nothing is kept, or an entry with this verdict and a lifetime within the ceiling. */
  ghost predicate KeepsFairly(env: Env, c: Contents, key: string, verdict: Verdict, now: int, kept: Keeping) {
    && (kept.entry.None? ==> kept.contents == c)
    && (kept.entry.Some? ==> var e := kept.entry.value;
          && key != "" && env.toJson(e).Some? && kept.contents == c[key := StoredAs(env, e)]
          && e.outcome == verdict.outcome != Error && e.reason == verdict.reason
          && e.storedAt == now && 0 < e.expiresAt - now <= env.serverMax)
  }

  /** What keeping a result does to the cache. */
  lemma KeepFacts(env: Env, rule: Rule, c: Contents, key: string, v: View, verdict: Verdict, now: int)
    requires env.serverMax > 0 && now > ZERO_TIME
    ensures KeepsFairly(env, c, key, verdict, now, Keep(env, rule, c, key, v, verdict, now))
  {
    if NewEntry(env, rule, v, verdict, now).Some? {
      NewEntryFacts(env, rule, v, verdict, now);
    }
  }

  /** What every evaluation keeps, from any state of the cache. */
  ghost predicate Promises(env: Env, rule: Rule, w: World, start: View, s: Step) {
    && HitIsHeld(env, w.contents, s.record) && StoreIsFresh(env, s.record)
    && Evolves(env, w.contents, s.world.contents, s.record)
    && Accounts(env, rule, w, start, s)
  }

  /** An evaluation records its own rule and base key, and accounts for the clock and the backend. */
  ghost predicate Accounts(env: Env, rule: Rule, w: World, start: View, s: Step) {
    && s.record.rule == rule && s.record.base == start.cacheKey && s.view.cacheKey == start.cacheKey
    && s.world.tick == w.tick + TICKS && s.world.calls == w.calls + s.record.sent
    && (s.record.hit ==> s.record.lookedAt == env.clock(w.tick))
    && (s.record.entry.Some? ==> s.record.entry.value.storedAt == env.clock(w.tick + 3))
  }

  /** What is left of the cache after looking for `key`. */
  ghost predicate LookedUp(env: Env, w: World, key: string, contents: Contents) {
    && (forall k | k in contents :: k in w.contents && contents[k] == w.contents[k])
    && forall k | k in w.contents && k !in contents :: k == key && Expired(w.contents[k], env.clock(w.tick))
  }

  lemma EarlyPromises(env: Env, rule: Rule, w: World, start: View, v: View, verdict: Verdict)
    requires v.cacheKey == start.cacheKey
    ensures Promises(env, rule, w, start, Early(rule, w, v, verdict))
  {
    FinishKeeps(rule, verdict, v);
  }

  lemma RecordPromises(env: Env, rule: Rule, w: World, contents: Contents,
                       start: View, v: View, r: Rendered, key: string,
                       done: View, verdict: Verdict, sent: nat)
    requires Clockwork(env) && env.serverMax > 0 && r.url != ""
    requires LookedUp(env, w, key, contents)
    requires start.cacheKey == v.cacheKey == done.cacheKey
    ensures Promises(env, rule, w, start, Record(env, rule, w, contents, v, r, key, done, verdict, sent))
  {
    var storeKey := CacheKey(env, rule, r, v.cacheKey, done.rules);
    var now := env.clock(w.tick + 3);
    assert now > ZERO_TIME;
    KeepFacts(env, rule, contents, storeKey, done, verdict, now);
    var kept := Keep(env, rule, contents, storeKey, done, verdict, now);
    RecordIs(env, rule, w, contents, v, r, key, done, verdict, sent, storeKey, kept);
    RecordedPromises(env, rule, w, contents, start, v, r, key, done, verdict, sent, storeKey, kept);
  }

  lemma RecordedPromises(env: Env, rule: Rule, w: World, contents: Contents,
                         start: View, v: View, r: Rendered, key: string,
                         done: View, verdict: Verdict, sent: nat, storeKey: string, kept: Keeping)
    requires r.url != "" && start.cacheKey == v.cacheKey == done.cacheKey
    requires LookedUp(env, w, key, contents)
    requires storeKey == CacheKey(env, rule, r, v.cacheKey, done.rules)
    requires KeepsFairly(env, contents, storeKey, verdict, env.clock(w.tick + 3), kept)
    ensures Promises(env, rule, w, start,
              Recorded(rule, w, v, r, key, done, verdict, sent, env.clock(w.tick), storeKey, kept))
  {
  }

  lemma MissPromises(env: Env, rule: Rule, w: World, contents: Contents, start: View, v: View, r: Rendered, key: string)
    requires Clockwork(env) && env.serverMax > 0 && r.url != "" && start.cacheKey == v.cacheKey
    requires LookedUp(env, w, key, contents)
    ensures Promises(env, rule, w, start, EvaluateMiss(env, rule, w, contents, v, r, key))
  {
    var judged := Fresh(env, rule, r, v, w);
    FreshKeeps(env, rule, r, v, w);
    FinishKeeps(rule, judged.verdict, judged.view);
    RecordPromises(env, rule, w, contents, start, v, r, key, Finish(rule, judged.verdict, judged.view), judged.verdict,
                   FetchAll(env.web, r, rule.backend, w.calls).sent);
  }

  lemma HitPromises(env: Env, rule: Rule, w: World, contents: Contents, start: View, v: View, r: Rendered, e: RuleEntry)
    requires r.url != "" && start.cacheKey == v.cacheKey
    requires LookedUp(env, w, CacheKey(env, rule, r, v.cacheKey, v.rules), contents)
    requires FindEntry(env, w.contents, CacheKey(env, rule, r, v.cacheKey, v.rules), w.tick) == Some(e)
    ensures Promises(env, rule, w, start,
              EvaluateHit(rule, w, contents, v, r, CacheKey(env, rule, r, v.cacheKey, v.rules), e, env.clock(w.tick)))
  {
    FinishKeeps(rule, Verdict(e.outcome, e.reason), Restore(rule, e, v));
  }

  /** A request is rendered only for a configured backend, to its URL. */
  lemma ReadyHasUrl(env: Env, rule: Rule, start: View)
    requires Prepare(env, rule, start).Ready?
    ensures Prepare(env, rule, start).request.url == rule.backend.url && rule.backend.url != ""
  {
  }

  lemma ReadyPromises(env: Env, rule: Rule, w: World, start: View, v: View, r: Rendered)
    requires Clockwork(env) && env.serverMax > 0 && r.url != "" && start.cacheKey == v.cacheKey
    ensures Promises(env, rule, w, start, EvaluateReady(env, rule, w, v, r))
  {
    var key := CacheKey(env, rule, r, v.cacheKey, v.rules);
    var contents := if key == "" then w.contents else AfterLookup(w.contents, key, env.clock(w.tick));
    match FindEntry(env, w.contents, key, w.tick)
    case Some(e) => HitPromises(env, rule, w, contents, start, v, r, e);
    case None => MissPromises(env, rule, w, contents, start, v, r, key);
  }

  lemma PreparedPromises(env: Env, rule: Rule, w: World, start: View, p: Prepared)
    requires Clockwork(env) && env.serverMax > 0 && p.view.cacheKey == start.cacheKey
    requires p.Ready? ==> p.request.url != ""
    ensures Promises(env, rule, w, start, EvaluatePrepared(env, rule, w, p))
  {
    match p
    case Ended(v, verdict) => EarlyPromises(env, rule, w, start, v, verdict);
    case NoBackend(v) =>
      LocalsKeepView(rule.locals, v, v);
      var judged := Judge(env, rule, v, env.clock(w.tick + 2));
      EarlyPromises(env, rule, w, start, judged.view, judged.verdict);
    case Ready(v, r) => ReadyPromises(env, rule, w, start, v, r);
  }

  /** Every evaluation, from any state of the cache, keeps these promises. */
  lemma EvaluationPromises(env: Env, rule: Rule, w: World, start: View)
    requires Clockwork(env) && env.serverMax > 0
    ensures Promises(env, rule, w, start, Evaluate(env, rule, w, start))
  {
    PrepareKeeps(env, rule, start);
    if Prepare(env, rule, start).Ready? {
      ReadyHasUrl(env, rule, start);
    }
    PreparedPromises(env, rule, w, start, Prepare(env, rule, start));
  }

  // ---- What is stored, exactly ----

  /** The entry that a finished evaluation stands for, if it lives at all. */
  ghost function EntryFor(env: Env, rule: Rule, verdict: Verdict, done: View, now: int): RuleEntry {
    RuleEntry(verdict.outcome, verdict.reason, done.rule.exported, done.responseHeaders, now,
              now + LifeTime(env, rule, verdict.outcome, done.backend.headers))
  }

  ghost predicate Storable(env: Env, rule: Rule, verdict: Verdict, done: View, now: int) {
    && verdict.outcome != Error && LifeTime(env, rule, verdict.outcome, done.backend.headers) > 0
    && env.toJson(EntryFor(env, rule, verdict, done, now)).Some?
  }

  lemma KeepIff(env: Env, rule: Rule, c: Contents, key: string, v: View, verdict: Verdict, now: int)
    ensures Keep(env, rule, c, key, v, verdict, now).entry ==
            if key != "" && Storable(env, rule, verdict, v, now) then Some(EntryFor(env, rule, verdict, v, now))
              else None
  {
  }

  lemma KeyIsEmptyIff(env: Env, rule: Rule, r: Rendered, base: string, vars: map<string, Vars>)
    ensures CacheKey(env, rule, r, base, vars) == "" <==> base == ""
  {
  }

  lemma FreshKeepsAnswer(env: Env, rule: Rule, r: Rendered, v: View, w: World)
    ensures Fresh(env, rule, r, v, w).view.backend.headers
            == Conclude(rule.backend, v.backend, FetchAll(env.web, r, rule.backend, w.calls)).headers
  {
    var answered := v.(backend := Conclude(rule.backend, v.backend, FetchAll(env.web, r, rule.backend, w.calls)));
    LocalsKeepView(rule.locals, answered, answered);
  }

  lemma MissStoresIff(env: Env, rule: Rule, w: World, contents: Contents, v: View, r: Rendered, key: string)
    ensures var s := EvaluateMiss(env, rule, w, contents, v, r, key); var now := env.clock(w.tick + 3);
      && s.view.backend.headers == Fresh(env, rule, r, v, w).view.backend.headers
      && s.record.entry ==
           if v.cacheKey != "" && Storable(env, rule, s.record.verdict, s.view, now)
           then Some(EntryFor(env, rule, s.record.verdict, s.view, now)) else None
  {
    var judged, sent := Fresh(env, rule, r, v, w), FetchAll(env.web, r, rule.backend, w.calls).sent;
    var done := Finish(rule, judged.verdict, judged.view);
    FinishKeeps(rule, judged.verdict, judged.view);
    RecordStoresIff(env, rule, w, contents, v, r, key, done, judged.verdict, sent);
    var s := Record(env, rule, w, contents, v, r, key, done, judged.verdict, sent);
    assert EvaluateMiss(env, rule, w, contents, v, r, key) == s;
    CacheDoesNotShow(env, rule, judged.verdict, done, s.view.cache, env.clock(w.tick + 3));
  }

  lemma CacheDoesNotShow(env: Env, rule: Rule, verdict: Verdict, done: View, cache: CacheState, now: int)
    ensures var v := done.(cache := cache);
      && EntryFor(env, rule, verdict, v, now) == EntryFor(env, rule, verdict, done, now)
      && (Storable(env, rule, verdict, v, now) <==> Storable(env, rule, verdict, done, now))
  {
  }

  lemma RecordStoresIff(env: Env, rule: Rule, w: World, contents: Contents, start: View, r: Rendered, key: string,
                        done: View, verdict: Verdict, sent: nat)
    ensures var s := Record(env, rule, w, contents, start, r, key, done, verdict, sent);
      var now := env.clock(w.tick + 3);
      && s.view == done.(cache := s.view.cache) && s.record.verdict == verdict
      && s.record.entry ==
           if start.cacheKey != "" && Storable(env, rule, verdict, done, now)
           then Some(EntryFor(env, rule, verdict, done, now)) else None
  {
    var storeKey := CacheKey(env, rule, r, start.cacheKey, done.rules);
    KeyIsEmptyIff(env, rule, r, start.cacheKey, done.rules);
    KeepIff(env, rule, contents, storeKey, done, verdict, env.clock(w.tick + 3));
    var kept := Keep(env, rule, contents, storeKey, done, verdict, env.clock(w.tick + 3));
    RecordIs(env, rule, w, contents, start, r, key, done, verdict, sent, storeKey, kept);
  }

  /**
    A fresh evaluation that reaches its backend stores its result if and only if the endpoint has a base key, the
    outcome is no error, its lifetime is positive and it can be encoded; the lifetime is read off the last page.
   */
  lemma EvaluationStoresIff(env: Env, rule: Rule, w: World, start: View)
    requires !Evaluate(env, rule, w, start).record.hit && rule.backend.Configured() && !Blocked(env, rule, start)
    ensures var s := Evaluate(env, rule, w, start); var now := env.clock(w.tick + 3);
      && s.view.backend.headers == AnsweredView(env, rule, w, start).backend.headers
      && s.record.entry ==
           if start.cacheKey != "" && Storable(env, rule, s.record.verdict, s.view, now)
           then Some(EntryFor(env, rule, s.record.verdict, s.view, now)) else None
  {
    PreparedAnswer(env, rule, w, start);
    PrepareKeeps(env, rule, start);
    EvaluateLeads(env, rule, w, start);
    var p := Prepare(env, rule, start);
    ReadyStoresIff(env, rule, w, p.view, p.request);
  }

  lemma ReadyStoresIff(env: Env, rule: Rule, w: World, v: View, r: Rendered)
    requires !EvaluateReady(env, rule, w, v, r).record.hit
    ensures var s := EvaluateReady(env, rule, w, v, r); var now := env.clock(w.tick + 3);
      && s.view.backend.headers
         == Conclude(rule.backend, v.backend, FetchAll(env.web, r, rule.backend, w.calls)).headers
      && s.record.entry ==
           if v.cacheKey != "" && Storable(env, rule, s.record.verdict, s.view, now)
           then Some(EntryFor(env, rule, s.record.verdict, s.view, now)) else None
  {
    var key := CacheKey(env, rule, r, v.cacheKey, v.rules);
    assert FindEntry(env, w.contents, key, w.tick).None?;
    var contents := if key == "" then w.contents else AfterLookup(w.contents, key, env.clock(w.tick));
    FreshKeepsAnswer(env, rule, r, v, w);
    MissStoresIff(env, rule, w, contents, v, r, key);
  }

  /** An entry that answers: held and alive at the first reading of the clock, readable, and alive at the second. */
  ghost predicate Answering(env: Env, c: Contents, key: string, tick: nat, e: RuleEntry) {
    && key in c && !Expired(c[key], env.clock(tick))
    && env.fromJson(c[key].decision) == Some(e) && env.clock(tick + 1) <= e.expiresAt
  }

  /**
    An evaluation is answered from the cache if and only if it gets as far as a backend request, its endpoint has a base
    key, and the cache holds an answering entry under the key of that request and the variables exported so far.
   */
  lemma EvaluationHitsIff(env: Env, rule: Rule, w: World, start: View)
    ensures Evaluate(env, rule, w, start).record.hit <==>
      && rule.backend.Configured() && !Blocked(env, rule, start) && start.cacheKey != ""
      && var (v, auth) := Authenticate(rule, Reset(start));
         var key := CacheKey(env, rule, RenderRequest(env, rule, auth, v).value, start.cacheKey, start.rules);
         exists e :: Answering(env, w.contents, key, w.tick, e)
  {
    PrepareEndsIff(env, rule, start);
    AuthenticateKeeps(rule, Reset(start));
    var p := Prepare(env, rule, start);
    if p.Ready? {
      ReadyHitsIff(env, rule, w, p.view, p.request);
    }
  }

  lemma ReadyHitsIff(env: Env, rule: Rule, w: World, v: View, r: Rendered)
    ensures EvaluateReady(env, rule, w, v, r).record.hit <==>
      v.cacheKey != "" && exists e :: Answering(env, w.contents, CacheKey(env, rule, r, v.cacheKey, v.rules), w.tick, e)
  {
    var key := CacheKey(env, rule, r, v.cacheKey, v.rules);
    KeyIsEmptyIff(env, rule, r, v.cacheKey, v.rules);
    assert forall e :: FindEntry(env, w.contents, key, w.tick) == Some(e) <==>
      key != "" && Answering(env, w.contents, key, w.tick, e);
  }
}
