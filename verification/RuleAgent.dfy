/** The rule execution agent: the objects and loops of the source, proved to compute the evaluation above. */
module RuleAgent {
  import opened Wrappers
  import opened Text
  import opened State
  import opened RuleAuth
  import opened Pagination
  import opened Descriptor
  import opened MemoryCache
  import opened CacheKeys
  import opened Variables
  import opened RuleSpec
  import opened Ttl

  class Agent {
    const env: Env
    const cache: MemoryCache
    /** Clock readings taken and backend requests sent so far. */
    var tick: nat
    var calls: nat

    ghost predicate Valid()
      reads this, cache, cache.owned
    {
      cache.Valid() && cache.ttl == env.cacheTtl
    }

    ghost function World(): World
      reads this, cache
    {
      RuleSpec.World(cache.contents, tick, calls)
    }

    constructor (env: Env, cache: MemoryCache)
      requires cache.Valid() && cache.ttl == env.cacheTtl
      ensures Valid() && this.env == env && this.cache == cache && tick == 0 && calls == 0
    {
      this.env, this.cache, tick, calls := env, cache, 0, 0;
    }

    /** Drops every entry under the prefix; the clock and the backend are not touched. */
    method Purge(prefix: string)
      requires Valid()
      modifies cache
      ensures Valid() && World() == old(World()).(contents := AfterPurge(old(cache.contents), prefix))
    {
      cache.DeletePrefix(prefix);
    }

    // ---- Authentication, rendering, variables ----

    /** prepareRuleAuth: try the match groups in order. */
    method PrepareRuleAuth(rule: Rule, state: PipelineState) returns (auth: Auth)
      modifies state`rule
      ensures (state.Snapshot(), auth) == Authenticate(rule, old(state.Snapshot()))
    {
      state.rule := state.rule.(auth := NO_AUTH);
      if rule.auth == [] {
        return Open;
      }
      var e := ExtractCredentials(state.credentials);
      var i := 0;
      while i < |rule.auth| && !MatchesAll(rule.auth[i].matchers, e)
        invariant 0 <= i <= |rule.auth|
        invariant forall j | 0 <= j < i :: !MatchesAll(rule.auth[j].matchers, e)
      {
        i := i + 1;
      }
      assert i == Select(rule.auth, e);
      if i == |rule.auth| {
        state.rule := state.rule.(auth := NO_AUTH.(input := Unmatched));
        return Refused;
      }
      var d := rule.auth[i];
      state.rule := state.rule.(auth := NO_AUTH.(input := Matched(e)));
      var forwards := [];
      if d.forwards == [] {
        forwards := BuildPassThroughForwards(d.matchers, e);
      } else {
        var rendered := RenderForwards(d.forwards, state.Snapshot());
        if rendered.None? {
          return Unforwardable;
        }
        forwards := rendered.value;
      }
      state.rule := state.rule.(auth := AuthState(if d.matchers == [] then "" else d.matchers[0].Kind(), Matched(e),
                                                  if forwards == [] then None else Some(forwards[0])));
      return Granted(forwards);
    }

    method RenderBackendRequest(rule: Rule, auth: Auth, state: PipelineState) returns (r: Option<Rendered>)
      ensures r == RenderRequest(env, rule, auth, state.Snapshot())
    {
      var parts := rule.render(state.Snapshot());
      if parts.None? {
        return None;
      }
      var verb := if Trim(rule.backend.verb) == "" then "GET" else rule.backend.verb;
      var t := Some(Target(parts.value.headers, parts.value.query));
      if auth.Granted? {
        t := ApplyAuthForwards(env.encode, auth.forwards, t.value);
        if t.None? {
          return None;
        }
      }
      return Some(Rendered(verb, rule.backend.url, t.value.headers, t.value.query, parts.value.body));
    }

    method EvaluateLocalVariables(bindings: seq<Binding>, state: PipelineState) returns (error: Option<string>)
      modifies state`rule
      ensures (state.Snapshot(), error) == BindLocals(bindings, old(state.Snapshot()), old(state.Snapshot()))
    {
      var start := state.Snapshot();
      assert bindings[0..] == bindings;
      for i := 0 to |bindings|
        invariant BindLocals(bindings, start, start) == BindLocals(bindings[i..], start, state.Snapshot())
      {
        assert bindings[i..][1..] == bindings[i + 1..];
        var value := bindings[i].eval(start, state.rule.locals);
        if value.Err? {
          return Some(bindings[i].name + ": " + value.error);
        }
        state.rule := state.rule.(locals := state.rule.locals[bindings[i].name := value.value]);
      }
      return None;
    }

    method EvaluateExports(bindings: seq<Binding>, state: PipelineState) returns (vars: Option<Vars>)
      ensures vars == EvalExports(bindings, state.Snapshot())
    {
      var exported: Vars := map[];
      for i := 0 to |bindings|
        invariant EvalExports(bindings[..i], state.Snapshot()) == Some(exported)
      {
        assert bindings[..i + 1][..i] == bindings[..i];
        var value := bindings[i].eval(state.Snapshot(), map[]);
        if value.Err? {
          ExportsFail(bindings, i + 1, state.Snapshot());
          return None;
        }
        exported := exported[bindings[i].name := value.value];
      }
      assert bindings[..|bindings|] == bindings;
      return Some(exported);
    }

    /** finishRule */
    method FinishRule(rule: Rule, verdict: Verdict, state: PipelineState)
      modifies state`rule, state`rules, state`responseVars
      ensures state.Snapshot() == Finish(rule, verdict, old(state.Snapshot()))
    {
      state.rule := state.rule.(outcome := Some(verdict.outcome), reason := verdict.reason);
      var bindings := ExportsFor(rule, verdict.outcome);
      if bindings == [] {
        return;
      }
      var vars := EvaluateExports(bindings, state);
      if vars.None? {
        return;
      }
      state.rule := state.rule.(exported := vars.value);
      state.rules := state.rules[rule.name := vars.value];
      state.responseVars := state.responseVars + vars.value;
    }

    // ---- The cache ----

    /** The key of the source: canonical text, hash, variables hash, join. */
    method RuleCacheKey(rule: Rule, r: Rendered, state: PipelineState) returns (key: string)
      ensures key == CacheKey(env, rule, r, state.cacheKey, state.rules)
    {
      if state.cacheKey == "" {
        return "";
      }
      var backendHash := "";
      if r.url != "" {
        var text := CanonicalText(BackendDescriptor(r.verb, r.url, r.headers, r.body),
                                  env.exclude(rule.cache.includeProxyHeaders));
        backendHash := env.hash(text);
      }
      var strict := true;
      if rule.cache.strict.Some? {
        strict := rule.cache.strict.value;
      }
      var upstreamHash := "";
      if strict && state.rules != map[] {
        var text := WriteVariables(state.rules);
        upstreamHash := env.hash(text);
      }
      return RuleKey(state.cacheKey, rule.name, backendHash, upstreamHash);
    }

    /** lookupRuleCache */
    method LookupRuleCache(key: string) returns (found: Option<RuleEntry>)
      requires Valid()
      modifies cache`entries, cache`contents, cache`ops
      ensures Valid() && cache.contents == if key == "" then old(cache.contents)
        else AfterLookup(old(cache.contents), key, env.clock(tick))
      ensures found == FindEntry(env, old(cache.contents), key, tick)
    {
      if key == "" {
        return None;
      }
      var e, ok := cache.Lookup(key, env.clock(tick));
      if !ok {
        return None;
      }
      var decoded := env.fromJson(e.decision);
      if decoded.None? || env.clock(tick + 1) > decoded.value.expiresAt {
        return None;
      }
      return decoded;
    }

    /**
      storeRuleCache of the cache layer: nothing is stored for an error, an empty key or a lifetime that is not
      positive.
     */
    method StoreRuleEntry(key: string, rule: Rule, verdict: Verdict, state: PipelineState, now: int) returns (ok: bool)
      requires Valid()
      modifies cache
      ensures Valid()
      ensures var kept := Keep(env, rule, old(cache.contents), key, state.Snapshot(), verdict, now);
        cache.contents == kept.contents && ok == kept.marked
    {
      if key == "" {
        return false;
      }
      var ttl := LifeTime(env, rule, verdict.outcome, state.backend.headers);
      if ttl <= 0 || verdict.outcome == Error {
        return true;
      }
      var entry := RuleEntry(verdict.outcome, verdict.reason, state.rule.exported, state.responseHeaders, now,
                             now + ttl);
      var data := env.toJson(entry);
      if data.None? {
        return false;
      }
      cache.Store(key, Entry(data.value, 0, "", null, now, now + ttl), now);
      return true;
    }

    // ---- One rule ----

    /** Reset, authenticate and render: everything before the cache. */
    method PrepareRule(rule: Rule, state: PipelineState) returns (p: Prepared)
      modifies state`rule, state`backend
      ensures p == Prepare(env, rule, old(state.Snapshot())) && state.Snapshot() == p.view
    {
      state.backend := NO_BACKEND;
      state.rule := state.rule.(auth := NO_AUTH, locals := map[], exported := map[]);
      var auth := PrepareRuleAuth(rule, state);
      if auth.Refused? {
        var reason := rule.message(Fail, AuthUnmatched, state.Snapshot());
        return Ended(state.Snapshot(), Verdict(Fail, reason));
      }
      if auth.Unforwardable? {
        var reason := rule.message(Error, AuthForwardFailed, state.Snapshot());
        return Ended(state.Snapshot(), Verdict(Error, reason));
      }
      if !rule.backend.Configured() {
        state.backend := state.backend.(accepted := true);
        return NoBackend(state.Snapshot());
      }
      var r := RenderBackendRequest(rule, auth, state);
      if r.None? {
        state.backend := state.backend.(error := env.describe(RenderFailed));
        var reason := rule.message(Error, RenderFailed, state.Snapshot());
        return Ended(state.Snapshot(), Verdict(Error, reason));
      }
      return Ready(state.Snapshot(), r.value);
    }

    /** The backend agent's Execute: run the conversation and write the last page into the state. */
    method ExecuteBackend(rule: Rule, r: Rendered, state: PipelineState) returns (sent: nat, failed: bool)
      modifies state`backend
      ensures var f := FetchAll(env.web, r, rule.backend, calls);
        sent == f.sent && failed == f.failed && state.backend == Conclude(rule.backend, old(state.backend), f)
    {
      var exchanges;
      exchanges, sent, failed := Converse(env.web, WithoutBlanks(r), rule.backend, calls);
      var pages := PagesOf(rule.backend, exchanges);
      if AnyAccepted(pages) {
        state.backend := state.backend.(accepted := true);
      }
      if failed || pages == [] {
        return;
      }
      var last := pages[|pages| - 1];
      state.backend := state.backend.(requested := true, pages := pages, status := last.status, headers := last.headers,
                                      body := last.body, accepted := last.accepted);
    }

    /** Local variables, then the conditions. */
    method JudgeRule(rule: Rule, state: PipelineState, now: int) returns (verdict: Verdict)
      modifies state`rule
      ensures Judged(state.Snapshot(), verdict) == Judge(env, rule, old(state.Snapshot()), now)
    {
      var error := EvaluateLocalVariables(rule.locals, state);
      if error.Some? {
        var reason := rule.message(Error, VariablesFailed(error.value), state.Snapshot());
        return Verdict(Error, reason);
      }
      return Decide(env, rule, state.Snapshot(), now);
    }

    /** A miss: ask the backend, then judge. */
    method EvaluateFresh(rule: Rule, r: Rendered, state: PipelineState) returns (verdict: Verdict, sent: nat)
      requires Valid()
      modifies state`rule, state`backend
      ensures Judged(state.Snapshot(), verdict) == Fresh(env, rule, r, old(state.Snapshot()), World())
      ensures sent == FetchAll(env.web, r, rule.backend, calls).sent
    {
      var failed;
      sent, failed := ExecuteBackend(rule, r, state);
      if failed {
        state.backend := state.backend.(error := env.describe(BackendFailed));
        var reason := rule.message(Error, BackendFailed, state.Snapshot());
        return Verdict(Error, reason), sent;
      }
      verdict := JudgeRule(rule, state, env.clock(tick + 2));
    }

    method RestoreFromCache(rule: Rule, e: RuleEntry, state: PipelineState)
      modifies state`cache, state`responseHeaders, state`rules, state`rule
      ensures state.Snapshot() == Restore(rule, e, old(state.Snapshot()))
    {
      state.cache := CacheState(true, Some(e.outcome), e.storedAt, e.expiresAt, state.cache.stored);
      if e.exported != map[] {
        state.rules := state.rules[rule.name := e.exported];
        state.rule := state.rule.(exported := e.exported);
      }
      state.responseHeaders := state.responseHeaders + e.headers;
    }

    /** A hit: restore, finish, done. */
    method AnswerFromCache(rule: Rule, r: Rendered, key: string, e: RuleEntry, state: PipelineState, ghost w: World)
      requires Valid() && tick == w.tick && calls == w.calls
      modifies this`tick, state
      ensures Valid()
      ensures var s := EvaluateHit(rule, w, cache.contents, old(state.Snapshot()), r, key, e, env.clock(w.tick));
        state.Snapshot() == s.view && World() == s.world
    {
      RestoreFromCache(rule, e, state);
      FinishRule(rule, Verdict(e.outcome, e.reason), state);
      tick := tick + TICKS;
    }

    /** storeRuleCache of the agent: compute the key anew, after the exports, and store under it. */
    method StoreRuleCache(rule: Rule, r: Rendered, key: string, verdict: Verdict, sent: nat, state: PipelineState,
                          ghost w: World, ghost start: View)
      requires Valid() && tick == w.tick && calls == w.calls && start.cacheKey == state.cacheKey
      modifies this`tick, this`calls, cache, state`cache
      ensures Valid()
      ensures var s := Record(env, rule, w, old(cache.contents), start, r, key, old(state.Snapshot()), verdict, sent);
        state.Snapshot() == s.view && World() == s.world
    {
      var storeKey := RuleCacheKey(rule, r, state);
      ghost var done, contents := state.Snapshot(), cache.contents;
      assert done.rules == state.rules;
      StoreUnder(storeKey, rule, verdict, sent, state);
      RecordIs(env, rule, w, contents, start, r, key, done, verdict, sent, storeKey,
               Keep(env, rule, contents, storeKey, done, verdict, env.clock(w.tick + 3)));
    }

    method StoreUnder(storeKey: string, rule: Rule, verdict: Verdict, sent: nat, state: PipelineState)
      requires Valid()
      modifies this`tick, this`calls, cache, state`cache
      ensures Valid()
      ensures var done := old(state.Snapshot());
        var kept := Keep(env, rule, old(cache.contents), storeKey, done, verdict, env.clock(old(tick) + 3));
        && World() == RuleSpec.World(kept.contents, old(tick) + TICKS, old(calls) + sent)
        && state.Snapshot() == if kept.marked then done.(cache := done.cache.(stored := true)) else done
    {
      var ok := StoreRuleEntry(storeKey, rule, verdict, state, env.clock(tick + 3));
      MarkStored(ok, sent, state);
    }

    method MarkStored(ok: bool, sent: nat, state: PipelineState)
      requires Valid()
      modifies this`tick, this`calls, state`cache
      ensures Valid() && tick == old(tick) + TICKS && calls == old(calls) + sent
      ensures state.cache == if ok then old(state.cache).(stored := true) else old(state.cache)
    {
      if ok {
        state.cache := state.cache.(stored := true);
      }
      tick, calls := tick + TICKS, calls + sent;
    }

    /** A miss: evaluate afresh, finish, store. */
    method EvaluateMissedRule(rule: Rule, r: Rendered, key: string, state: PipelineState, ghost w: World)
      returns (verdict: Verdict)
      requires Valid() && tick == w.tick && calls == w.calls
      modifies this`tick, this`calls, cache, state
      ensures Valid()
      ensures var s := EvaluateMiss(env, rule, w, old(cache.contents), old(state.Snapshot()), r, key);
        state.Snapshot() == s.view && World() == s.world && verdict == s.record.verdict
    {
      ghost var start := state.Snapshot();
      var sent;
      verdict, sent := EvaluateFresh(rule, r, state);
      FreshIgnoresContents(env, rule, r, start, World(), w);
      FinishRule(rule, verdict, state);
      StoreRuleCache(rule, r, key, verdict, sent, state, w, start);
    }

    /** Look in the cache, and evaluate only on a miss. */
    method EvaluateReadyRule(rule: Rule, r: Rendered, state: PipelineState) returns (verdict: Verdict)
      requires Valid()
      modifies this`tick, this`calls, cache, state
      ensures Valid()
      ensures var s := EvaluateReady(env, rule, old(World()), old(state.Snapshot()), r);
        state.Snapshot() == s.view && World() == s.world && verdict == s.record.verdict
    {
      ghost var w := World();
      var key := RuleCacheKey(rule, r, state);
      var found := LookupRuleCache(key);
      if found.Some? {
        AnswerFromCache(rule, r, key, found.value, state, w);
        verdict := Verdict(found.value.outcome, found.value.reason);
      } else {
        verdict := EvaluateMissedRule(rule, r, key, state, w);
      }
    }

    /** A rule that ends without reaching the cache. */
    method EvaluateEarly(rule: Rule, verdict: Verdict, state: PipelineState)
      requires Valid()
      modifies this`tick, state
      ensures Valid()
      ensures var s := Early(rule, old(World()), old(state.Snapshot()), verdict);
        state.Snapshot() == s.view && World() == s.world
    {
      FinishRule(rule, verdict, state);
      tick := tick + TICKS;
    }

    /** A rule without a backend. */
    method EvaluateUnbacked(rule: Rule, state: PipelineState) returns (verdict: Verdict)
      requires Valid()
      modifies this`tick, state
      ensures Valid()
      ensures var judged := Judge(env, rule, old(state.Snapshot()), env.clock(old(tick) + 2));
        var s := Early(rule, old(World()), judged.view, judged.verdict);
        state.Snapshot() == s.view && World() == s.world && verdict == judged.verdict
    {
      verdict := JudgeRule(rule, state, env.clock(tick + 2));
      EvaluateEarly(rule, verdict, state);
    }

    method EvaluatePreparedRule(rule: Rule, p: Prepared, state: PipelineState) returns (verdict: Verdict)
      requires Valid() && p.view == state.Snapshot()
      modifies this`tick, this`calls, cache, state
      ensures Valid()
      ensures var s := EvaluatePrepared(env, rule, old(World()), p);
        state.Snapshot() == s.view && World() == s.world && verdict == s.record.verdict
    {
      match p
      case Ready(_, r) =>
        verdict := EvaluateReadyRule(rule, r, state);
      case Ended(_, v) =>
        verdict := v;
        EvaluateEarly(rule, verdict, state);
      case NoBackend(_) =>
        verdict := EvaluateUnbacked(rule, state);
    }

    /** evaluateRule */
    method EvaluateRule(rule: Rule, state: PipelineState) returns (verdict: Verdict)
      requires Valid()
      modifies this`tick, this`calls, cache, state
      ensures Valid()
      ensures var s := Evaluate(env, rule, old(World()), old(state.Snapshot()));
        state.Snapshot() == s.view && World() == s.world && verdict == s.record.verdict
    {
      var p := PrepareRule(rule, state);
      verdict := EvaluatePreparedRule(rule, p, state);
    }
  }

  lemma {:induction false} ExportsFail(bindings: seq<Binding>, n: nat, v: View)
    requires n <= |bindings| && EvalExports(bindings[..n], v).None?
    ensures EvalExports(bindings, v).None?
    decreases |bindings| - n
  {
    if n == |bindings| {
      assert bindings[..n] == bindings;
    } else {
      assert bindings[..n + 1][..n] == bindings[..n];
      ExportsFail(bindings, n + 1, v);
    }
  }

  /** A fresh evaluation depends on the clock and the network, not on what the cache holds. */
  lemma FreshIgnoresContents(env: Env, rule: Rule, r: Rendered, v: View, w: World, u: World)
    requires w.tick == u.tick && w.calls == u.calls
    ensures Fresh(env, rule, r, v, w) == Fresh(env, rule, r, v, u)
  {
  }
}
