/** Which key an evaluation reads and which it writes, and when a repeat is answered from the cache. */
module Repeats {
  import opened Wrappers
  import opened Text
  import opened State
  import opened Pagination
  import opened MemoryCache
  import opened CacheKeys
  import opened Variables
  import opened RuleSpec
  import opened Records

  // ---- What an evaluation does to the exported variables ----

  /** The variables of one rule may have been replaced by some that are not empty and of the given kind. */
  ghost predicate Extends(kind: Vars -> bool, name: string, before: map<string, Vars>, after: map<string, Vars>) {
    after == before || exists vars :: vars != map[] && kind(vars) && after == before[name := vars]
  }

  lemma ExtendsTwice(kind: Vars -> bool, name: string, a: map<string, Vars>, b: map<string, Vars>, c: map<string, Vars>)
    requires Extends(kind, name, a, b) && Extends(kind, name, b, c)
    ensures Extends(kind, name, a, c)
  {
    if b != c && a != b {
      var vars :| vars != map[] && kind(vars) && c == b[name := vars];
      assert c == a[name := vars];
    }
  }

  /** Whatever the rule exports, in any state, is of the given kind. */
  ghost predicate Yields(rule: Rule, kind: Vars -> bool) {
    forall outcome, v :: match EvalExports(ExportsFor(rule, outcome), v) case None => true case Some(vars) => kind(vars)
  }

  ghost function AnyKind(): Vars -> bool { _ => true }

  lemma ExportsNotEmpty(bindings: seq<Binding>, v: View)
    requires bindings != [] && EvalExports(bindings, v).Some?
    ensures EvalExports(bindings, v).value != map[]
  {
    assert bindings[|bindings| - 1].name in EvalExports(bindings, v).value;
  }

  /** Nothing, or variables of the kind. */
  ghost predicate Holds(kind: Vars -> bool, vars: Vars) { vars == map[] || kind(vars) }

  lemma FinishExtends(kind: Vars -> bool, rule: Rule, verdict: Verdict, v: View)
    requires Yields(rule, kind) && Holds(kind, v.rule.exported)
    ensures var done := Finish(rule, verdict, v);
      Extends(kind, rule.name, v.rules, done.rules) && Holds(kind, done.rule.exported)
  {
    var marked := v.(rule := v.rule.(outcome := Some(verdict.outcome), reason := verdict.reason));
    var bindings := ExportsFor(rule, verdict.outcome);
    if bindings != [] && EvalExports(bindings, marked).Some? {
      ExportsNotEmpty(bindings, marked);
    }
  }

  lemma RestoreExtends(kind: Vars -> bool, rule: Rule, e: RuleEntry, v: View)
    requires Holds(kind, e.exported) && Holds(kind, v.rule.exported)
    ensures var hit := Restore(rule, e, v);
      Extends(kind, rule.name, v.rules, hit.rules) && Holds(kind, hit.rule.exported)
  {
  }

  /** A step replaces at most its own rule's variables, and records them as they were when the keys were computed. */
  ghost predicate KeepsKind(kind: Vars -> bool, rule: Rule, rules: map<string, Vars>, s: Step) {
    && s.record.vars == rules && s.view.rules == s.record.storeVars
    && Extends(kind, rule.name, rules, s.record.storeVars)
    && (s.record.entry.Some? ==> Holds(kind, s.record.entry.value.exported))
  }

  lemma EarlyKeeps(kind: Vars -> bool, rule: Rule, w: World, v: View, verdict: Verdict)
    requires Yields(rule, kind) && v.rule.exported == map[]
    ensures KeepsKind(kind, rule, v.rules, Early(rule, w, v, verdict))
  {
    FinishExtends(kind, rule, verdict, v);
  }

  lemma HitKeeps(kind: Vars -> bool, rule: Rule, w: World, contents: Contents, v: View, r: Rendered, key: string,
                 e: RuleEntry, lookedAt: int)
    requires Yields(rule, kind) && v.rule.exported == map[] && Holds(kind, e.exported)
    ensures KeepsKind(kind, rule, v.rules, EvaluateHit(rule, w, contents, v, r, key, e, lookedAt))
  {
    var hit, verdict := Restore(rule, e, v), Verdict(e.outcome, e.reason);
    RestoreExtends(kind, rule, e, v);
    FinishExtends(kind, rule, verdict, hit);
    ExtendsTwice(kind, rule.name, v.rules, hit.rules, Finish(rule, verdict, hit).rules);
  }

  lemma KeptExports(env: Env, rule: Rule, c: Contents, key: string, v: View, verdict: Verdict, now: int)
    ensures var kept := Keep(env, rule, c, key, v, verdict, now);
      kept.entry.Some? ==> kept.entry.value.exported == v.rule.exported
  {
  }

  lemma MissKeeps(env: Env, kind: Vars -> bool, rule: Rule, w: World, contents: Contents, v: View, r: Rendered,
                  key: string)
    requires Yields(rule, kind) && v.rule.exported == map[]
    ensures KeepsKind(kind, rule, v.rules, EvaluateMiss(env, rule, w, contents, v, r, key))
  {
    var judged := Fresh(env, rule, r, v, w);
    FreshKeeps(env, rule, r, v, w);
    FinishExtends(kind, rule, judged.verdict, judged.view);
    var done := Finish(rule, judged.verdict, judged.view);
    var storeKey := CacheKey(env, rule, r, v.cacheKey, done.rules);
    var kept := Keep(env, rule, contents, storeKey, done, judged.verdict, env.clock(w.tick + 3));
    KeptExports(env, rule, contents, storeKey, done, judged.verdict, env.clock(w.tick + 3));
    RecordIs(env, rule, w, contents, v, r, key, done, judged.verdict,
             FetchAll(env.web, r, rule.backend, w.calls).sent, storeKey, kept);
  }

  /** The entry that a lookup for this prepared request finds, if any, holds variables of the kind. */
  ghost predicate FindsKind(env: Env, kind: Vars -> bool, rule: Rule, w: World, v: View, r: Rendered) {
    match FindEntry(env, w.contents, CacheKey(env, rule, r, v.cacheKey, v.rules), w.tick)
    case None => true
    case Some(e) => Holds(kind, e.exported)
  }

  lemma ReadyKeeps(env: Env, kind: Vars -> bool, rule: Rule, w: World, v: View, r: Rendered)
    requires Yields(rule, kind) && v.rule.exported == map[] && FindsKind(env, kind, rule, w, v, r)
    ensures KeepsKind(kind, rule, v.rules, EvaluateReady(env, rule, w, v, r))
  {
    var key := CacheKey(env, rule, r, v.cacheKey, v.rules);
    var contents := if key == "" then w.contents else AfterLookup(w.contents, key, env.clock(w.tick));
    match FindEntry(env, w.contents, key, w.tick)
    case Some(e) => HitKeeps(kind, rule, w, contents, v, r, key, e, env.clock(w.tick));
    case None => MissKeeps(env, kind, rule, w, contents, v, r, key);
  }

  lemma PreparedKeeps(env: Env, kind: Vars -> bool, rule: Rule, w: World, p: Prepared)
    requires Yields(rule, kind) && p.view.rule.exported == map[]
    requires p.Ready? ==> FindsKind(env, kind, rule, w, p.view, p.request)
    ensures KeepsKind(kind, rule, p.view.rules, EvaluatePrepared(env, rule, w, p))
  {
    match p
    case Ended(v, verdict) => EarlyKeeps(kind, rule, w, v, verdict);
    case NoBackend(v) =>
      LocalsKeepView(rule.locals, v, v);
      var judged := Judge(env, rule, v, env.clock(w.tick + 2));
      EarlyKeeps(kind, rule, w, judged.view, judged.verdict);
    case Ready(v, r) => ReadyKeeps(env, kind, rule, w, v, r);
  }

  /** What a hit restores is what the entry held under the looked-up key decodes to. */
  ghost predicate RestoresKind(env: Env, kind: Vars -> bool, c: Contents, r: Evaluation) {
    r.hit && r.lookupKey in c && env.fromJson(c[r.lookupKey].decision).Some? ==>
      Holds(kind, env.fromJson(c[r.lookupKey].decision).value.exported)
  }

  /**
    An evaluation replaces at most the variables of its own rule, by some that are not empty, and of a kind to which
    everything belongs that the rule exports or that a hit restores.
   */
  lemma EvaluationKeepsKind(env: Env, kind: Vars -> bool, rule: Rule, w: World, start: View)
    requires Yields(rule, kind) && RestoresKind(env, kind, w.contents, Evaluate(env, rule, w, start).record)
    ensures KeepsKind(kind, rule, start.rules, Evaluate(env, rule, w, start))
  {
    PrepareKeeps(env, rule, start);
    var p := Prepare(env, rule, start);
    if p.Ready? {
      FoundIsRestored(env, kind, rule, w, start);
    }
    PreparedKeeps(env, kind, rule, w, p);
  }

  lemma FoundIsRestored(env: Env, kind: Vars -> bool, rule: Rule, w: World, start: View)
    requires Prepare(env, rule, start).Ready?
    requires RestoresKind(env, kind, w.contents, Evaluate(env, rule, w, start).record)
    ensures var p := Prepare(env, rule, start); FindsKind(env, kind, rule, w, p.view, p.request)
  {
  }

  // ---- Which key is read and which is written ----

  /** The same variables, or two sets that are not empty and share a text. */
  ghost predicate SameText(m: map<string, Vars>, n: map<string, Vars>) {
    m == n || (m != map[] && n != map[] && VarsText(m) == VarsText(n))
  }

  /** Two hashes of variables agree for a rule iff it is not strict or their texts do. */
  lemma UpstreamIff(env: Env, rule: Rule, m: map<string, Vars>, n: map<string, Vars>)
    requires Hashes(env) && Collisionless(env)
    ensures UpstreamHash(env, rule, m) == UpstreamHash(env, rule, n) <==>
      rule.cache.strict == Some(false) || SameText(m, n)
  {
  }

  lemma SameKeyIff(base: string, rule: string, b: string, u: string, u': string)
    ensures RuleKey(base, rule, b, u) == RuleKey(base, rule, b, u') <==> u == u'
  {
    var head := base + "|" + (rule + "|" + b);
    KeyTail(base, rule, b, u);
    KeyTail(base, rule, b, u');
    if RuleKey(base, rule, b, u) == RuleKey(base, rule, b, u') {
      var t, t' := if u == "" then "" else "|" + u, if u' == "" then "" else "|" + u';
      SameTail(head, t, t');
      assert u == (if t == "" then "" else t[1..]) && u' == (if t' == "" then "" else t'[1..]);
    }
  }

  lemma KeyTail(base: string, rule: string, b: string, u: string)
    ensures RuleKey(base, rule, b, u) == base + "|" + (rule + "|" + b) + (if u == "" then "" else "|" + u)
  {
    var parts := Parts(base, rule, b, u);
    assert parts[1..][0] == rule && parts[1..][1..][0] == b;
    if u == "" {
      assert Join(parts[1..], "|") == rule + "|" + b;
    } else {
      assert parts[1..][1..] == [b, u] && [b, u][1..] == [u];
      assert Join([b, u], "|") == b + "|" + u;
      assert Join(parts[1..], "|") == rule + "|" + (b + "|" + u);
    }
  }

  /** For any variables, the key written is the key read if and only if the rule is not strict or the texts agree. */
  lemma StoresWhereItLooked(env: Env, rule: Rule, r: Rendered, base: string,
                            vars: map<string, Vars>, storeVars: map<string, Vars>)
    requires base != "" && Hashes(env) && Collisionless(env)
    ensures CacheKey(env, rule, r, base, vars) == CacheKey(env, rule, r, base, storeVars) <==>
            rule.cache.strict == Some(false) || SameText(vars, storeVars)
  {
    UpstreamIff(env, rule, vars, storeVars);
    SameKeyIff(base, rule.name, BackendHash(env, rule, r), UpstreamHash(env, rule, vars),
               UpstreamHash(env, rule, storeVars));
  }

  /**
    Repeating a request whose key is held, before the entry expires, is answered from the cache with the stored verdict.
   */
  lemma RepeatIsHit(env: Env, rule: Rule, w: World, start: View, stored: Evaluation)
    requires Sane(env) && stored.entry.Some? && StoreIsFresh(env, stored)
    requires var p := Prepare(env, rule, start);
      p.Ready? && stored.storeKey == CacheKey(env, rule, p.request, p.view.cacheKey, p.view.rules)
    requires stored.storeKey in w.contents && w.contents[stored.storeKey] == StoredAs(env, stored.entry.value)
    requires env.clock(w.tick + 1) <= stored.entry.value.expiresAt && stored.storeKey != ""
    ensures var s := Evaluate(env, rule, w, start);
      s.record.hit && s.record.verdict == stored.verdict && s.record.sent == 0 && s.world.calls == w.calls
  {
    var p := Prepare(env, rule, start);
    HeldIsFound(env, w, stored);
    FoundIsHit(env, rule, w, start, FindEntry(env, w.contents, stored.storeKey, w.tick).value);
  }

  /** A held entry that has not expired is found, with its verdict. */
  lemma HeldIsFound(env: Env, w: World, stored: Evaluation)
    requires Sane(env) && stored.entry.Some? && StoreIsFresh(env, stored) && stored.storeKey != ""
    requires stored.storeKey in w.contents && w.contents[stored.storeKey] == StoredAs(env, stored.entry.value)
    requires env.clock(w.tick + 1) <= stored.entry.value.expiresAt
    ensures var found := FindEntry(env, w.contents, stored.storeKey, w.tick);
      found.Some? && stored.verdict == Verdict(found.value.outcome, found.value.reason)
  {
    var e := stored.entry.value;
    assert env.clock(w.tick) <= env.clock(w.tick + 1);
    assert KeptBy(env, e, env.fromJson(env.toJson(e).value));
  }

  lemma FoundIsHit(env: Env, rule: Rule, w: World, start: View, e: RuleEntry)
    requires var p := Prepare(env, rule, start);
      && p.Ready?
      && FindEntry(env, w.contents, CacheKey(env, rule, p.request, p.view.cacheKey, p.view.rules), w.tick) == Some(e)
    ensures var s := Evaluate(env, rule, w, start);
      s.record.hit && s.record.verdict == Verdict(e.outcome, e.reason) && s.record.sent == 0 && s.world.calls == w.calls
  {
  }

  /** An evaluation that stored has looked, under the key of its prepared request, and found nothing. */
  lemma StoringMissed(env: Env, rule: Rule, w: World, start: View)
    requires Evaluate(env, rule, w, start).record.entry.Some?
    ensures var p, r := Prepare(env, rule, start), Evaluate(env, rule, w, start).record;
      && p.Ready? && r.request == Some(p.request) && r.base == p.view.cacheKey && r.vars == p.view.rules
      && r.lookupKey == CacheKey(env, rule, p.request, p.view.cacheKey, p.view.rules)
      && FindEntry(env, w.contents, r.lookupKey, w.tick).None?
  {
  }

  /** What a lookup did not find is not found later either, unless it is stored meanwhile. */
  lemma StillMissing(env: Env, c: Contents, later: Contents, key: string, tick: nat, laterTick: nat)
    requires Clockwork(env) && FindEntry(env, c, key, tick).None? && tick <= laterTick
    requires key in later ==> key in c && later[key] == c[key]
    ensures FindEntry(env, later, key, laterTick).None?
  {
    assert env.clock(tick) <= env.clock(laterTick) && env.clock(tick + 1) <= env.clock(laterTick + 1);
  }

  lemma MissIsNoHit(env: Env, rule: Rule, w: World, start: View)
    requires var p := Prepare(env, rule, start);
      p.Ready? ==>
        FindEntry(env, w.contents, CacheKey(env, rule, p.request, p.view.cacheKey, p.view.rules), w.tick).None?
    ensures !Evaluate(env, rule, w, start).record.hit
  {
  }

  /**
    The evaluation stored, nothing touched the cache since, and the entry has not expired when it is asked for again.
   */
  ghost predicate Repeats(env: Env, rule: Rule, w: World, start: View, later: World) {
    var s := Evaluate(env, rule, w, start);
    && s.record.entry.Some? && later.contents == s.world.contents && s.world.tick <= later.tick
    && env.clock(later.tick + 1) <= s.record.entry.value.expiresAt
  }

  /** The first half needs nothing of the hashes: an unchanged repeat is answered from the cache. */
  lemma UnchangedRepeatHits(env: Env, rule: Rule, w: World, start: View, later: World)
    requires Sane(env) && Repeats(env, rule, w, start, later)
    requires rule.cache.strict == Some(false) || Evaluate(env, rule, w, start).record.storeVars == start.rules
    ensures var first, again := Evaluate(env, rule, w, start).record, Evaluate(env, rule, later, start).record;
      again.hit && again.verdict == first.verdict && again.sent == 0
  {
    var r := Evaluate(env, rule, w, start).record;
    EvaluationPromises(env, rule, w, start);
    StoringMissed(env, rule, w, start);
    PrepareKeeps(env, rule, start);
    KeyNotEmpty(env, rule, Prepare(env, rule, start).request, r.base, r.vars);
    RepeatIsHit(env, rule, later, start, r);
  }

  /**
    Whatever the variables are called, a repeat hits iff the rule is not strict or the texts of the variables agree.
   */
  lemma RepeatHitsByText(env: Env, rule: Rule, w: World, start: View, later: World)
    requires Sane(env) && Collisionless(env) && Repeats(env, rule, w, start, later)
    ensures var first, again := Evaluate(env, rule, w, start).record, Evaluate(env, rule, later, start).record;
      && (again.hit <==> rule.cache.strict == Some(false) || SameText(start.rules, first.storeVars))
      && (again.hit ==> again.verdict == first.verdict && again.sent == 0)
  {
    var s := Evaluate(env, rule, w, start);
    EvaluationPromises(env, rule, w, start);
    StoringMissed(env, rule, w, start);
    PrepareKeeps(env, rule, start);
    var p := Prepare(env, rule, start);
    StoresWhereItLooked(env, rule, p.request, s.record.base, s.record.vars, s.record.storeVars);
    if s.record.storeKey == s.record.lookupKey {
      KeyNotEmpty(env, rule, p.request, s.record.base, s.record.vars);
      RepeatIsHit(env, rule, later, start, s.record);
    } else {
      StillMissing(env, w.contents, later.contents, s.record.lookupKey, w.tick, later.tick);
      MissIsNoHit(env, rule, later, start);
    }
  }

  /** What a stored evaluation has done to the variables. */
  lemma StoredKeepsKind(env: Env, kind: Vars -> bool, rule: Rule, w: World, start: View)
    requires Yields(rule, kind) && Evaluate(env, rule, w, start).record.entry.Some?
    ensures Extends(kind, rule.name, start.rules, Evaluate(env, rule, w, start).record.storeVars)
  {
    StoringMissed(env, rule, w, start);
    PrepareKeeps(env, rule, start);
    PreparedKeeps(env, kind, rule, w, Prepare(env, rule, start));
  }

  ghost function ReadableKind(env: Env): Vars -> bool { vars => ReadableVars(env.json, vars) }

  /** A rule that runs twice in a chain has variables of its own already; then its names and values must be readable. */
  ghost predicate OwnReadable(env: Env, rule: Rule, rules: map<string, Vars>) {
    rule.name in rules ==>
      SelfDelimiting(env.json) && ReadableVars(env.json, rules[rule.name]) && Yields(rule, ReadableKind(env))
  }

  /** Variables that a rule without any adds show in the text. */
  lemma AddedShows(name: string, m: map<string, Vars>, n: map<string, Vars>)
    requires name !in m && Extends(AnyKind(), name, m, n)
    ensures SameText(m, n) ==> m == n
  {
    if m != n {
      var vars :| vars != map[] && AnyKind()(vars) && n == m[name := vars];
      NewRuleShows(m, name, vars);
    }
  }

  /** Variables that replace others show in the text, where they can be read. */
  lemma ReplacedShows(env: Env, name: string, m: map<string, Vars>, n: map<string, Vars>)
    requires name in m && SelfDelimiting(env.json) && ReadableVars(env.json, m[name])
    requires Extends(ReadableKind(env), name, m, n)
    ensures SameText(m, n) ==> m == n
  {
    if m != n {
      var vars :| vars != map[] && ReadableKind(env)(vars) && n == m[name := vars];
      if VarsText(m) == VarsText(n) {
        ChangedRuleShows(env.json, m, name, vars);
      }
    }
  }

  /**
    Evaluate a rule, let it store, and evaluate it again from the same state before the entry expires: the repeat
    is answered from the cache, with the stored verdict and without a backend request, if and only if the rule is
    not strict or the first evaluation left the exported variables as they were.
   */
  lemma RepeatHitsIff(env: Env, rule: Rule, w: World, start: View, later: World)
    requires Sane(env) && Collisionless(env) && Repeats(env, rule, w, start, later)
    requires OwnReadable(env, rule, start.rules)
    ensures var first, again := Evaluate(env, rule, w, start).record, Evaluate(env, rule, later, start).record;
      && (again.hit <==> rule.cache.strict == Some(false) || first.storeVars == start.rules)
      && (again.hit ==> again.verdict == first.verdict && again.sent == 0)
  {
    RepeatHitsByText(env, rule, w, start, later);
    var n := Evaluate(env, rule, w, start).record.storeVars;
    if rule.name in start.rules {
      StoredKeepsKind(env, ReadableKind(env), rule, w, start);
      ReplacedShows(env, rule.name, start.rules, n);
    } else {
      StoredKeepsKind(env, AnyKind(), rule, w, start);
      AddedShows(rule.name, start.rules, n);
    }
  }

  // ---- The same, said of the configuration ----

  /** An expression list that can always be evaluated. */
  ghost predicate Total(bindings: seq<Binding>) {
    forall i, v, vars | 0 <= i < |bindings| :: bindings[i].eval(v, vars).Ok?
  }

  lemma {:induction false} TotalEvaluates(bindings: seq<Binding>, v: View)
    requires Total(bindings)
    ensures EvalExports(bindings, v).Some?
  {
    if bindings != [] {
      TotalEvaluates(bindings[..|bindings| - 1], v);
      assert bindings[|bindings| - 1].eval(v, map[]).Ok?;
    }
  }

  /** What a rule exports for an outcome decides whether finishing it touches the variables. */
  lemma FinishExports(rule: Rule, verdict: Verdict, v: View)
    ensures var exports, done := ExportsFor(rule, verdict.outcome), Finish(rule, verdict, v);
      && (exports == [] ==> done.rules == v.rules)
      && (exports != [] && Total(exports) ==> rule.name in done.rules)
  {
    var exports := ExportsFor(rule, verdict.outcome);
    if exports != [] && Total(exports) {
      TotalEvaluates(exports, v.(rule := v.rule.(outcome := Some(verdict.outcome), reason := verdict.reason)));
    }
  }

  lemma MissExports(env: Env, rule: Rule, w: World, contents: Contents, v: View, r: Rendered, key: string)
    ensures var record := EvaluateMiss(env, rule, w, contents, v, r, key).record;
      var exports := ExportsFor(rule, record.verdict.outcome);
      && (exports == [] ==> record.storeVars == v.rules)
      && (exports != [] && Total(exports) ==> rule.name in record.storeVars)
  {
    var judged := Fresh(env, rule, r, v, w);
    FreshKeeps(env, rule, r, v, w);
    FinishExports(rule, judged.verdict, judged.view);
  }

  lemma StoredExports(env: Env, rule: Rule, w: World, start: View)
    requires Evaluate(env, rule, w, start).record.entry.Some?
    ensures var record := Evaluate(env, rule, w, start).record; var exports := ExportsFor(rule, record.verdict.outcome);
      && (exports == [] ==> record.storeVars == start.rules)
      && (exports != [] && Total(exports) ==> rule.name in record.storeVars)
  {
    StoringMissed(env, rule, w, start);
    PrepareKeeps(env, rule, start);
    var p := Prepare(env, rule, start);
    var key := CacheKey(env, rule, p.request, p.view.cacheKey, p.view.rules);
    var contents := if key == "" then w.contents else AfterLookup(w.contents, key, env.clock(w.tick));
    MissExports(env, rule, w, contents, p.view, p.request, key);
  }

  /**
    For a configuration: a rule that is not strict, or exports nothing for the outcome it reached, is answered from
    the cache when it is repeated.  A strict rule that has not exported in this request yet is answered iff it did not
    export this time, and so never when its exports can always be evaluated.
   */
  lemma RepeatByConfiguration(env: Env, rule: Rule, w: World, start: View, later: World)
    requires Sane(env) && Collisionless(env) && Repeats(env, rule, w, start, later)
    ensures var first, again := Evaluate(env, rule, w, start).record, Evaluate(env, rule, later, start).record;
      var exports := ExportsFor(rule, first.verdict.outcome);
      && (exports == [] || rule.cache.strict == Some(false) ==> again.hit)
      && (rule.cache.strict != Some(false) && rule.name !in start.rules ==>
            && (again.hit <==> rule.name !in first.storeVars)
            && (exports != [] && Total(exports) ==> !again.hit))
  {
    StoredExports(env, rule, w, start);
    var n := Evaluate(env, rule, w, start).record.storeVars;
    if n == start.rules || !IsStrict(rule) {
      UnchangedRepeatHits(env, rule, w, start, later);
    }
    if rule.name !in start.rules {
      RepeatHitsIff(env, rule, w, start, later);
      StoredKeepsKind(env, AnyKind(), rule, w, start);
    }
  }

  /** A key is never empty when there is a base key. */
  lemma KeyNotEmpty(env: Env, rule: Rule, r: Rendered, base: string, vars: map<string, Vars>)
    requires base != ""
    ensures CacheKey(env, rule, r, base, vars) != ""
  {
    KeyTail(base, rule.name, BackendHash(env, rule, r), UpstreamHash(env, rule, vars));
  }
}
