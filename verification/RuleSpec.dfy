/**
  What evaluating one rule does, as functions on values: authentication, rendering, the cache, the
  backend, local variables, conditions, exports and the store.  Templates, condition programs, hashes,
  JSON, the clock and the network are arbitrary functions.
 */
module RuleSpec {
  import opened Wrappers
  import opened Text
  import opened State
  import opened RuleAuth
  import opened Pagination
  import opened Descriptor
  import opened MemoryCache
  import opened CacheKeys
  import opened Variables
  import opened Ttl

  datatype Program = Program(source: string, eval: (View, int) -> Result<bool, string>)

  /** A variable expression; it sees the state and the variables bound before it. */
  datatype Binding = Binding(name: string, eval: (View, Vars) -> Result<string, string>)

  /** Why a rule came to its outcome; the source builds a sentence from it. */
  datatype Cause =
    | AuthUnmatched | AuthForwardFailed | RenderFailed | BackendFailed
    | VariablesFailed(detail: string)
    | ErrorMatched(source: string) | FailMatched(source: string) | PassSatisfied(source: string)
    | PassMissing | NotAccepted(status: int) | NoExplicitOutcome
    | ConditionBroken(list: Outcome, source: string, error: string)

  datatype RequestParts = RequestParts(headers: map<string, string>, query: map<string, string>, body: string)

  datatype Rule = Rule(
    name: string,
    auth: seq<Directive>,
    backend: Backend,
    /** Headers, query and body of the backend request before credentials are added. */
    render: View -> Option<RequestParts>,
    onError: seq<Program>, onFail: seq<Program>, onPass: seq<Program>,
    locals: seq<Binding>,
    passExports: seq<Binding>, failExports: seq<Binding>, errorExports: seq<Binding>,
    /** The configured message for an outcome, or the text of the cause when none is configured. */
    message: (Outcome, Cause, View) -> string,
    cache: RuleCacheConfig)

  /** What is cached for a rule. */
  datatype RuleEntry = RuleEntry(
    outcome: Outcome, reason: string, exported: Vars, headers: map<string, string>, storedAt: int, expiresAt: int)

  datatype Env = Env(
    web: Web,
    /** The n-th reading of the clock. */
    clock: nat -> int,
    encode: string -> string,
    hash: string -> string,
    /** Whether a text is the JSON text of a value. */
    json: string -> bool,
    toJson: RuleEntry -> Option<string>,
    fromJson: string -> Option<RuleEntry>,
    parseDuration: DurationParser,
    serverMax: int,
    cacheTtl: int,
    /** The header names left out of the key, given the rule's choice about proxy headers. */
    exclude: Option<bool> -> seq<string>,
    /** The sentence for a cause. */
    describe: Cause -> string)

  // ---- Conditions ----

  datatype Scan = Found(source: string) | NotFound | Broken(source: string, error: string)

  /** The first program that is true or fails. */
  function AnyOf(programs: seq<Program>, v: View, now: int): Scan {
    if programs == [] then NotFound
    else
      match programs[0].eval(v, now)
      case Err(e) => Broken(programs[0].source, e)
      case Ok(true) => Found(programs[0].source)
      case Ok(false) => AnyOf(programs[1..], v, now)
  }

  function AllFrom(programs: seq<Program>, v: View, now: int, sources: seq<string>): Scan {
    if programs == [] then Found(Join(sources, " && "))
    else
      match programs[0].eval(v, now)
      case Err(e) => Broken(programs[0].source, e)
      case Ok(false) => NotFound
      case Ok(true) => AllFrom(programs[1..], v, now, sources + [programs[0].source])
  }

  /** All programs are true; an empty list does not count as satisfied. */
  function AllOf(programs: seq<Program>, v: View, now: int): Scan {
    if programs == [] then NotFound else AllFrom(programs, v, now, [])
  }

  datatype Verdict = Verdict(outcome: Outcome, reason: string)

  /** The condition lists, in the order error, fail, pass, then whether the backend accepted. */
  function Decide(env: Env, rule: Rule, v: View, now: int): Verdict {
    match AnyOf(rule.onError, v, now)
    case Broken(source, e) => Verdict(Error, env.describe(ConditionBroken(Error, source, e)))
    case Found(source) => Verdict(Error, rule.message(Error, ErrorMatched(source), v))
    case NotFound =>
      match AnyOf(rule.onFail, v, now)
      case Broken(source, e) => Verdict(Error, env.describe(ConditionBroken(Fail, source, e)))
      case Found(source) => Verdict(Fail, rule.message(Fail, FailMatched(source), v))
      case NotFound =>
        match AllOf(rule.onPass, v, now)
        case Broken(source, e) => Verdict(Error, env.describe(ConditionBroken(Pass, source, e)))
        case Found(source) => Verdict(Pass, rule.message(Pass, PassSatisfied(source), v))
        case NotFound =>
          if rule.onPass != [] then Verdict(Fail, rule.message(Fail, PassMissing, v))
          else if rule.backend.Configured() && !v.backend.accepted
          then Verdict(Fail, rule.message(Fail, NotAccepted(v.backend.status), v))
          else Verdict(Pass, rule.message(Pass, NoExplicitOutcome, v))
  }

  ghost predicate Each(programs: seq<Program>, v: View, now: int, value: bool) {
    forall i | 0 <= i < |programs| :: programs[i].eval(v, now) == Ok(value)
  }

  lemma {:induction false} NoneOf(programs: seq<Program>, v: View, now: int)
    ensures AnyOf(programs, v, now) == NotFound <==> Each(programs, v, now, false)
  {
    if programs != [] {
      NoneOf(programs[1..], v, now);
      assert forall i | 1 <= i < |programs| :: programs[i] == programs[1..][i - 1];
    }
  }

  lemma {:induction false} AllTrue(programs: seq<Program>, v: View, now: int, sources: seq<string>)
    ensures AllFrom(programs, v, now, sources).Found? <==> Each(programs, v, now, true)
    decreases programs
  {
    if programs != [] {
      AllTrue(programs[1..], v, now, sources + [programs[0].source]);
      assert forall i | 1 <= i < |programs| :: programs[i] == programs[1..][i - 1];
    }
  }

  /** What it takes to pass, said without the order of evaluation. */
  ghost predicate Passes(rule: Rule, v: View, now: int) {
    && Each(rule.onError, v, now, false)
    && Each(rule.onFail, v, now, false)
    && (if rule.onPass != [] then Each(rule.onPass, v, now, true)
        else !rule.backend.Configured() || v.backend.accepted)
  }

  lemma DecidePasses(env: Env, rule: Rule, v: View, now: int)
    ensures Decide(env, rule, v, now).outcome == Pass <==> Passes(rule, v, now)
  {
    NoneOf(rule.onError, v, now);
    NoneOf(rule.onFail, v, now);
    if rule.onPass != [] {
      AllTrue(rule.onPass, v, now, []);
    }
  }

  /** Program `i` is the first of the list that is not plainly `value`: it is the other value, or fails. */
  ghost predicate FirstNot(programs: seq<Program>, v: View, now: int, value: bool, i: int) {
    && 0 <= i < |programs| && programs[i].eval(v, now) != Ok(value)
    && forall j | 0 <= j < i :: programs[j].eval(v, now) == Ok(value)
  }

  /** The first of a list is the first of its tail, one place on, where the head is `value`; else it is the head. */
  lemma FirstNotCons(programs: seq<Program>, v: View, now: int, value: bool)
    requires programs != []
    ensures programs[0].eval(v, now) == Ok(value) ==>
      && (Each(programs, v, now, value) <==> Each(programs[1..], v, now, value))
      && forall i :: FirstNot(programs, v, now, value, i) <==> FirstNot(programs[1..], v, now, value, i - 1)
    ensures programs[0].eval(v, now) != Ok(value) ==>
      !Each(programs, v, now, value) && forall i :: FirstNot(programs, v, now, value, i) <==> i == 0
  {
    var rest := programs[1..];
    assert forall j | 0 <= j < |rest| :: rest[j] == programs[j + 1];
    assert forall j | 1 <= j < |programs| :: programs[j] == rest[j - 1];
  }

  lemma {:induction false} SomeIsFirst(programs: seq<Program>, v: View, now: int, value: bool)
    requires !Each(programs, v, now, value)
    ensures exists i :: FirstNot(programs, v, now, value, i)
  {
    FirstNotCons(programs, v, now, value);
    if programs[0].eval(v, now) == Ok(value) {
      SomeIsFirst(programs[1..], v, now, value);
      var k :| FirstNot(programs[1..], v, now, value, k);
      assert FirstNot(programs, v, now, value, k + 1);
    } else {
      assert FirstNot(programs, v, now, value, 0);
    }
  }

  lemma {:induction false} AnyOfStops(programs: seq<Program>, v: View, now: int)
    ensures forall i | FirstNot(programs, v, now, false, i) ::
      AnyOf(programs, v, now) == match programs[i].eval(v, now)
        case Ok(_) => Found(programs[i].source)
        case Err(e) => Broken(programs[i].source, e)
  {
    if programs != [] {
      FirstNotCons(programs, v, now, false);
      AnyOfStops(programs[1..], v, now);
    }
  }

  function SourcesOf(programs: seq<Program>): (r: seq<string>)
    ensures |r| == |programs| && forall i | 0 <= i < |programs| :: r[i] == programs[i].source
  {
    seq(|programs|, i requires 0 <= i < |programs| => programs[i].source)
  }

  lemma {:induction false} AllFromStops(programs: seq<Program>, v: View, now: int, sources: seq<string>)
    ensures forall i | FirstNot(programs, v, now, true, i) ::
      AllFrom(programs, v, now, sources) == match programs[i].eval(v, now)
        case Ok(_) => NotFound
        case Err(e) => Broken(programs[i].source, e)
    decreases programs
  {
    if programs != [] {
      FirstNotCons(programs, v, now, true);
      AllFromStops(programs[1..], v, now, sources + [programs[0].source]);
    }
  }

  lemma {:induction false} AllFromJoins(programs: seq<Program>, v: View, now: int, sources: seq<string>)
    requires Each(programs, v, now, true)
    ensures AllFrom(programs, v, now, sources) == Found(Join(sources + SourcesOf(programs), " && "))
    decreases programs
  {
    if programs == [] {
      assert sources + SourcesOf(programs) == sources;
    } else {
      FirstNotCons(programs, v, now, true);
      AllFromJoins(programs[1..], v, now, sources + [programs[0].source]);
      assert sources + [programs[0].source] + SourcesOf(programs[1..]) == sources + SourcesOf(programs);
    }
  }

  /** What it takes for an error, said without the order of evaluation. */
  ghost predicate Errs(rule: Rule, v: View, now: int) {
    || !Each(rule.onError, v, now, false)
    || (Each(rule.onError, v, now, false)
        && exists i :: FirstNot(rule.onFail, v, now, false, i) && rule.onFail[i].eval(v, now).Err?)
    || (Each(rule.onError, v, now, false) && Each(rule.onFail, v, now, false)
        && exists i :: FirstNot(rule.onPass, v, now, true, i) && rule.onPass[i].eval(v, now).Err?)
  }

  /** What it takes to fail. */
  ghost predicate Fails(rule: Rule, v: View, now: int) {
    && Each(rule.onError, v, now, false)
    && (|| (exists i :: FirstNot(rule.onFail, v, now, false, i) && rule.onFail[i].eval(v, now).Ok?)
        || (Each(rule.onFail, v, now, false)
            && exists i :: FirstNot(rule.onPass, v, now, true, i) && rule.onPass[i].eval(v, now).Ok?)
        || (Each(rule.onFail, v, now, false) && rule.onPass == [] && rule.backend.Configured() && !v.backend.accepted))
  }

  /** The verdict of the first error condition that is not plainly false, and so on down the lists. */
  ghost predicate DecidedBy(env: Env, rule: Rule, v: View, now: int, verdict: Verdict) {
    && (forall i | FirstNot(rule.onError, v, now, false, i) ::
          verdict == match rule.onError[i].eval(v, now)
            case Err(e) => Verdict(Error, env.describe(ConditionBroken(Error, rule.onError[i].source, e)))
            case Ok(_) => Verdict(Error, rule.message(Error, ErrorMatched(rule.onError[i].source), v)))
    && (Each(rule.onError, v, now, false) ==>
          forall i | FirstNot(rule.onFail, v, now, false, i) ::
            verdict == match rule.onFail[i].eval(v, now)
              case Err(e) => Verdict(Error, env.describe(ConditionBroken(Fail, rule.onFail[i].source, e)))
              case Ok(_) => Verdict(Fail, rule.message(Fail, FailMatched(rule.onFail[i].source), v)))
    && (Each(rule.onError, v, now, false) && Each(rule.onFail, v, now, false) ==>
          && (forall i | FirstNot(rule.onPass, v, now, true, i) ::
                verdict == match rule.onPass[i].eval(v, now)
                  case Err(e) => Verdict(Error, env.describe(ConditionBroken(Pass, rule.onPass[i].source, e)))
                  case Ok(_) => Verdict(Fail, rule.message(Fail, PassMissing, v)))
          && (rule.onPass != [] && Each(rule.onPass, v, now, true) ==>
                verdict == Verdict(Pass, rule.message(Pass, PassSatisfied(Join(SourcesOf(rule.onPass), " && ")), v)))
          && (rule.onPass == [] ==>
                verdict == if rule.backend.Configured() && !v.backend.accepted
                           then Verdict(Fail, rule.message(Fail, NotAccepted(v.backend.status), v))
                           else Verdict(Pass, rule.message(Pass, NoExplicitOutcome, v))))
  }

  /** Outcome and reason, condition by condition. */
  lemma DecideIsDecidedBy(env: Env, rule: Rule, v: View, now: int)
    ensures DecidedBy(env, rule, v, now, Decide(env, rule, v, now))
  {
    NoneOf(rule.onError, v, now);
    NoneOf(rule.onFail, v, now);
    AnyOfStops(rule.onError, v, now);
    AnyOfStops(rule.onFail, v, now);
    AllFromStops(rule.onPass, v, now, []);
    if Each(rule.onPass, v, now, true) {
      AllFromJoins(rule.onPass, v, now, []);
      assert [] + SourcesOf(rule.onPass) == SourcesOf(rule.onPass);
    }
  }

  lemma SomeDecides(rule: Rule, v: View, now: int)
    ensures Each(rule.onError, v, now, false) || exists i :: FirstNot(rule.onError, v, now, false, i)
    ensures Each(rule.onFail, v, now, false) || exists i :: FirstNot(rule.onFail, v, now, false, i)
    ensures Each(rule.onPass, v, now, true) || exists i :: FirstNot(rule.onPass, v, now, true, i)
  {
    if !Each(rule.onError, v, now, false) {
      SomeIsFirst(rule.onError, v, now, false);
    }
    if !Each(rule.onFail, v, now, false) {
      SomeIsFirst(rule.onFail, v, now, false);
    }
    if !Each(rule.onPass, v, now, true) {
      SomeIsFirst(rule.onPass, v, now, true);
    }
  }

  /** Each of the three outcomes, said without the order of evaluation. */
  lemma DecideIff(env: Env, rule: Rule, v: View, now: int)
    ensures var outcome := Decide(env, rule, v, now).outcome;
      && (outcome == Pass <==> Passes(rule, v, now))
      && (outcome == Fail <==> Fails(rule, v, now))
      && (outcome == Error <==> Errs(rule, v, now))
  {
    DecidePasses(env, rule, v, now);
    DecideIsDecidedBy(env, rule, v, now);
    SomeDecides(rule, v, now);
  }

  // ---- Variables ----

  /** Local variables in order; on an error those bound so far stay. */
  function BindLocals(bindings: seq<Binding>, start: View, v: View): (View, Option<string>)
    decreases bindings
  {
    if bindings == [] then (v, None)
    else
      match bindings[0].eval(start, v.rule.locals)
      case Err(e) => (v, Some(bindings[0].name + ": " + e))
      case Ok(x) =>
        BindLocals(bindings[1..], start, v.(rule := v.rule.(locals := v.rule.locals[bindings[0].name := x])))
  }

  /** Exports are evaluated together; one error drops them all. */
  function EvalExports(bindings: seq<Binding>, v: View): Option<Vars> {
    if bindings == [] then Some(map[])
    else
      var last := bindings[|bindings| - 1];
      match (EvalExports(bindings[..|bindings| - 1], v), last.eval(v, map[]))
      case (Some(vars), Ok(x)) => Some(vars[last.name := x])
      case _ => None
  }

  function ExportsFor(rule: Rule, outcome: Outcome): seq<Binding> {
    match outcome case Pass => rule.passExports case Fail => rule.failExports case Error => rule.errorExports
  }

  /** finishRule: record the outcome, then export. */
  function Finish(rule: Rule, verdict: Verdict, v: View): View {
    var done := v.(rule := v.rule.(outcome := Some(verdict.outcome), reason := verdict.reason));
    var bindings := ExportsFor(rule, verdict.outcome);
    if bindings == [] then done
    else
      match EvalExports(bindings, done)
      case None => done
      case Some(vars) =>
        done.(rule := done.rule.(exported := vars), rules := done.rules[rule.name := vars],
              responseVars := done.responseVars + vars)
  }

  // ---- Authentication and rendering ----

  function Reset(v: View): View {
    v.(backend := NO_BACKEND, rule := v.rule.(auth := NO_AUTH, locals := map[], exported := map[]))
  }

  datatype Auth = Open | Granted(forwards: seq<Forward>) | Refused | Unforwardable

  function SetAuth(v: View, auth: AuthState): View { v.(rule := v.rule.(auth := auth)) }

  function Authenticate(rule: Rule, v: View): (View, Auth) {
    if rule.auth == [] then (SetAuth(v, NO_AUTH), Open)
    else
      var e := Extract(v.credentials);
      var i := Select(rule.auth, e);
      if i == |rule.auth| then (SetAuth(v, NO_AUTH.(input := Unmatched)), Refused)
      else
        var d := rule.auth[i];
        var seen := SetAuth(v, NO_AUTH.(input := Matched(e)));
        var forwards := if d.forwards == [] then Some(PassThrough(d.matchers, e)) else RenderForwards(d.forwards, seen);
        match forwards
        case None => (seen, Unforwardable)
        case Some(fs) =>
          (SetAuth(v, AuthState(if d.matchers == [] then "" else d.matchers[0].Kind(), Matched(e),
                                if fs == [] then None else Some(fs[0]))), Granted(fs))
  }

  /** The backend request with the granted credentials written into it. */
  function RenderRequest(env: Env, rule: Rule, auth: Auth, v: View): Option<Rendered> {
    match rule.render(v)
    case None => None
    case Some(parts) =>
      var verb := if Trim(rule.backend.verb) == "" then "GET" else rule.backend.verb;
      match (if auth.Granted? then RuleAuth.Apply(env.encode, auth.forwards, Target(parts.headers, parts.query))
             else Some(Target(parts.headers, parts.query)))
      case None => None
      case Some(t) => Some(Rendered(verb, rule.backend.url, t.headers, t.query, parts.body))
  }

  // ---- The cache ----

  function IsStrict(rule: Rule): bool { rule.cache.strict != Some(false) }

  /** The text whose hash stands for a request in the key. */
  ghost function RequestText(env: Env, rule: Rule, r: Rendered): string {
    Canonical(r.verb, r.url, Kept(r.headers, env.exclude(rule.cache.includeProxyHeaders)), r.body)
  }

  ghost function BackendHash(env: Env, rule: Rule, r: Rendered): string {
    if r.url == "" then "" else env.hash(RequestText(env, rule, r))
  }

  ghost function UpstreamHash(env: Env, rule: Rule, rules: map<string, Vars>): string {
    if !IsStrict(rule) || rules == map[] then "" else env.hash(VarsText(rules))
  }

  /** The key under which this rule is looked up or stored, given the exported variables at that moment. */
  ghost function CacheKey(env: Env, rule: Rule, r: Rendered, base: string, rules: map<string, Vars>): string {
    if base == "" then "" else RuleKey(base, rule.name, BackendHash(env, rule, r), UpstreamHash(env, rule, rules))
  }

  /** A lookup reads the clock twice: once in the cache and once when the entry has been decoded. */
  function FindEntry(env: Env, c: Contents, key: string, tick: nat): Option<RuleEntry> {
    if key == "" then None
    else
      match Peek(c, key, env.clock(tick))
      case None => None
      case Some(s) =>
        match env.fromJson(s.decision)
        case None => None
        case Some(e) => if env.clock(tick + 1) > e.expiresAt then None else Some(e)
  }

  function Restore(rule: Rule, e: RuleEntry, v: View): View {
    var hit := v.(cache := CacheState(true, Some(e.outcome), e.storedAt, e.expiresAt, v.cache.stored),
                  responseHeaders := v.responseHeaders + e.headers);
    if e.exported == map[] then hit
    else hit.(rules := hit.rules[rule.name := e.exported], rule := hit.rule.(exported := e.exported))
  }

  /** The lifetime of a result; endpoint ceilings are not wired in. */
  function LifeTime(env: Env, rule: Rule, outcome: Outcome, headers: map<string, string>): int {
    EffectiveTTL(env.parseDuration, outcome, env.serverMax, TtlConfig("", ""), rule.cache, headers)
  }

  /** What a finished evaluation would put in the cache, None when it is not to be cached. */
  ghost function NewEntry(env: Env, rule: Rule, v: View, verdict: Verdict, now: int): Option<RuleEntry> {
    var ttl := LifeTime(env, rule, verdict.outcome, v.backend.headers);
    if ttl <= 0 || verdict.outcome == Error then None
    else Some(RuleEntry(verdict.outcome, verdict.reason, v.rule.exported, v.responseHeaders, now, now + ttl))
  }

  /** The cache after a store, the entry if one was written, and whether the state is marked as stored. */
  datatype Keeping = Keeping(contents: Contents, entry: Option<RuleEntry>, marked: bool)

  ghost function Keep(env: Env, rule: Rule, c: Contents, key: string, v: View, verdict: Verdict, now: int): Keeping {
    if key == "" then Keeping(c, None, false)
    else
      match NewEntry(env, rule, v, verdict, now)
      case None => Keeping(c, None, true)
      case Some(e) =>
        match env.toJson(e)
        case None => Keeping(c, None, false)
        case Some(text) =>
          Keeping(AfterStore(env.cacheTtl, c, key, Stored(text, 0, "", map[], e.storedAt, e.expiresAt), now), Some(e),
                  true)
  }

  /** The state is marked as stored although nothing was, exactly for an error or a lifetime that is not positive. */
  lemma MarkedWithoutEntry(env: Env, rule: Rule, c: Contents, key: string, v: View, verdict: Verdict, now: int)
    ensures var kept := Keep(env, rule, c, key, v, verdict, now);
      kept.marked && kept.entry.None? <==>
        key != "" && (LifeTime(env, rule, verdict.outcome, v.backend.headers) <= 0 || verdict.outcome == Error)
  {
  }

  /**
    An endpoint's own ceiling would change a lifetime exactly when it is positive and below it; it is not consulted.
   */
  lemma EndpointCeilingIsLost(env: Env, rule: Rule, outcome: Outcome, headers: map<string, string>, endpoint: TtlConfig)
    ensures var ceiling := ConfigTTL(env.parseDuration, endpoint, outcome);
      EffectiveTTL(env.parseDuration, outcome, env.serverMax, endpoint, rule.cache, headers)
        != LifeTime(env, rule, outcome, headers)
      <==> 0 < ceiling < LifeTime(env, rule, outcome, headers)
  {
    assert ConfigTTL(env.parseDuration, TtlConfig("", ""), outcome) == 0;
  }

  // ---- One evaluation ----

  /** Requests share the cache, the clock and the network. */
  datatype World = World(contents: Contents, tick: nat, calls: nat)

  const TICKS := 4

  /**
    A record of one evaluation.  `request` is absent when none was rendered; `entry` is what was stored, if
    anything, under `storeKey`; `vars` and `storeVars` are the exported variables when the two keys were computed.
   */
  datatype Evaluation = Evaluation(
    base: string, rule: Rule, request: Option<Rendered>,
    lookupKey: string, vars: map<string, Vars>,
    verdict: Verdict, hit: bool, sent: nat, lookedAt: int,
    storeKey: string, storeVars: map<string, Vars>, entry: Option<RuleEntry>)

  datatype Step = Step(view: View, world: World, record: Evaluation)

  /** An evaluation that ends before the cache is reached. */
  ghost function Early(rule: Rule, w: World, v: View, verdict: Verdict): Step {
    var done := Finish(rule, verdict, v);
    Step(done, w.(tick := w.tick + TICKS),
         Evaluation(v.cacheKey, rule, None, "", v.rules, verdict, false, 0, 0, "", done.rules, None))
  }

  datatype Judged = Judged(view: View, verdict: Verdict)

  /** Local variables and conditions, once the backend has answered. */
  function Judge(env: Env, rule: Rule, v: View, now: int): Judged {
    var (bound, error) := BindLocals(rule.locals, v, v);
    if error.Some? then Judged(bound, Verdict(Error, rule.message(Error, VariablesFailed(error.value), bound)))
    else Judged(bound, Decide(env, rule, bound, now))
  }

  /** A fresh evaluation against the backend, up to but not including the store. */
  function Fresh(env: Env, rule: Rule, r: Rendered, v: View, w: World): Judged {
    var f := FetchAll(env.web, r, rule.backend, w.calls);
    FreshFrom(env, rule, v.(backend := Conclude(rule.backend, v.backend, f)), f.failed, env.clock(w.tick + 2))
  }

  /** What the backend's answer, or its failure, leads to. */
  function FreshFrom(env: Env, rule: Rule, answered: View, failed: bool, now: int): Judged {
    if failed
    then
      var v := answered.(backend := answered.backend.(error := env.describe(BackendFailed)));
      Judged(v, Verdict(Error, rule.message(Error, BackendFailed, v)))
    else Judge(env, rule, answered, now)
  }

  ghost function EvaluateHit(rule: Rule, w: World, contents: Contents, v: View, r: Rendered, key: string, e: RuleEntry,
                             lookedAt: int): Step {
    var verdict := Verdict(e.outcome, e.reason);
    var done := Finish(rule, verdict, Restore(rule, e, v));
    Step(done, World(contents, w.tick + TICKS, w.calls),
         Evaluation(v.cacheKey, rule, Some(r), key, v.rules, verdict, true, 0, lookedAt, "", done.rules, None))
  }

  /** finishRuleWithCache, once the rule has finished in state `done`: store what may be stored and record it. */
  ghost function Record(env: Env, rule: Rule, w: World, contents: Contents, start: View, r: Rendered, key: string,
                        done: View, verdict: Verdict, sent: nat): Step {
    var storeKey := CacheKey(env, rule, r, start.cacheKey, done.rules);
    var kept := Keep(env, rule, contents, storeKey, done, verdict, env.clock(w.tick + 3));
    Recorded(rule, w, start, r, key, done, verdict, sent, env.clock(w.tick), storeKey, kept)
  }

  ghost function Recorded(rule: Rule, w: World, start: View, r: Rendered, key: string, done: View, verdict: Verdict,
                          sent: nat, lookedAt: int, storeKey: string, kept: Keeping): Step {
    Step(if kept.marked then done.(cache := done.cache.(stored := true)) else done,
         World(kept.contents, w.tick + TICKS, w.calls + sent),
         Evaluation(start.cacheKey, rule, Some(r), key, start.rules, verdict, false, sent, lookedAt,
                    storeKey, done.rules, kept.entry))
  }

  lemma RecordIs(env: Env, rule: Rule, w: World, contents: Contents, start: View, r: Rendered, key: string,
                 done: View, verdict: Verdict, sent: nat, storeKey: string, kept: Keeping)
    requires storeKey == CacheKey(env, rule, r, start.cacheKey, done.rules)
    requires kept == Keep(env, rule, contents, storeKey, done, verdict, env.clock(w.tick + 3))
    ensures Record(env, rule, w, contents, start, r, key, done, verdict, sent)
            == Recorded(rule, w, start, r, key, done, verdict, sent, env.clock(w.tick), storeKey, kept)
  {
  }

  ghost function EvaluateMiss(env: Env, rule: Rule, w: World, contents: Contents, v: View, r: Rendered,
                              key: string): Step {
    var judged := Fresh(env, rule, r, v, w);
    Record(env, rule, w, contents, v, r, key, Finish(rule, judged.verdict, judged.view), judged.verdict,
           FetchAll(env.web, r, rule.backend, w.calls).sent)
  }

  /** How far an evaluation gets before the cache and the backend: ended, without a backend, or with a request. */
  datatype Prepared =
    | Ended(view: View, verdict: Verdict)
    | NoBackend(view: View)
    | Ready(view: View, request: Rendered)

  function Prepare(env: Env, rule: Rule, start: View): Prepared {
    var (v, auth) := Authenticate(rule, Reset(start));
    if auth.Refused? then Ended(v, Verdict(Fail, rule.message(Fail, AuthUnmatched, v)))
    else if auth.Unforwardable? then Ended(v, Verdict(Error, rule.message(Error, AuthForwardFailed, v)))
    else if !rule.backend.Configured() then NoBackend(v.(backend := v.backend.(accepted := true)))
    else
      match RenderRequest(env, rule, auth, v)
      case Some(r) => Ready(v, r)
      case None =>
        var failed := v.(backend := v.backend.(error := env.describe(RenderFailed)));
        Ended(failed, Verdict(Error, rule.message(Error, RenderFailed, failed)))
  }

  ghost function EvaluateReady(env: Env, rule: Rule, w: World, v: View, r: Rendered): Step {
    var key := CacheKey(env, rule, r, v.cacheKey, v.rules);
    var contents := if key == "" then w.contents else AfterLookup(w.contents, key, env.clock(w.tick));
    match FindEntry(env, w.contents, key, w.tick)
    case Some(e) => EvaluateHit(rule, w, contents, v, r, key, e, env.clock(w.tick))
    case None => EvaluateMiss(env, rule, w, contents, v, r, key)
  }

  ghost function EvaluatePrepared(env: Env, rule: Rule, w: World, p: Prepared): Step {
    match p
    case Ended(v, verdict) => Early(rule, w, v, verdict)
    case NoBackend(v) =>
      var judged := Judge(env, rule, v, env.clock(w.tick + 2));
      Early(rule, w, judged.view, judged.verdict)
    case Ready(v, r) => EvaluateReady(env, rule, w, v, r)
  }

  /** evaluateRule */
  ghost function Evaluate(env: Env, rule: Rule, w: World, start: View): Step {
    EvaluatePrepared(env, rule, w, Prepare(env, rule, start))
  }

  // ---- What an outcome means ----

  lemma JudgeOutcome(env: Env, rule: Rule, v: View, now: int)
    ensures var (bound, error) := BindLocals(rule.locals, v, v);
      Judge(env, rule, v, now).verdict.outcome == Pass <==> error.None? && Passes(rule, bound, now)
  {
    var (bound, error) := BindLocals(rule.locals, v, v);
    DecidePasses(env, rule, bound, now);
  }

  /** No match group holds. */
  ghost predicate NoMatch(rule: Rule, v: View) {
    rule.auth != [] && forall i | 0 <= i < |rule.auth| :: !MatchesAll(rule.auth[i].matchers, Extract(v.credentials))
  }

  /** Group `i` is the first whose matchers all hold. */
  ghost predicate FirstMatch(rule: Rule, v: View, i: int) {
    && 0 <= i < |rule.auth| && MatchesAll(rule.auth[i].matchers, Extract(v.credentials))
    && forall j | 0 <= j < i :: !MatchesAll(rule.auth[j].matchers, Extract(v.credentials))
  }

  /** The state that the explicit forwards of a group are rendered in. */
  function MatchedView(v: View): View { SetAuth(v, NO_AUTH.(input := Matched(Extract(v.credentials)))) }

  /** The first matching group has an explicit forward that does not render. */
  ghost predicate Unforwarded(rule: Rule, v: View) {
    exists i :: FirstMatch(rule, v, i) && RenderForwards(rule.auth[i].forwards, MatchedView(v)).None?
  }

  /**
    Authentication refuses iff no group matches.  Otherwise the first matching group decides: without explicit
    forwards it passes the matched credentials through, with them it grants what they render to, or fails.
   */
  lemma FirstGroupWins(rule: Rule, v: View)
    requires rule.auth != []
    ensures var auth := Authenticate(rule, v).1;
      && (auth.Refused? <==> NoMatch(rule, v))
      && (auth.Unforwardable? <==> Unforwarded(rule, v))
      && forall i | FirstMatch(rule, v, i) ::
           && (rule.auth[i].forwards == [] ==>
                 auth == Granted(PassThrough(rule.auth[i].matchers, Extract(v.credentials))))
           && (rule.auth[i].forwards != [] ==>
                 match RenderForwards(rule.auth[i].forwards, MatchedView(v))
                 case None => auth == Unforwardable
                 case Some(fs) => auth == Granted(fs))
  {
    var e := Extract(v.credentials);
    var i := Select(rule.auth, e);
    if i < |rule.auth| {
      assert FirstMatch(rule, v, i);
      forall j | FirstMatch(rule, v, j) ensures j == i {
      }
    }
  }

  lemma OpenAuth(rule: Rule, v: View)
    requires rule.auth == []
    ensures Authenticate(rule, v).1 == Open && !NoMatch(rule, v) && !Unforwarded(rule, v)
  {
  }

  /** The rule never reaches its backend: no group matches, a forward or the request does not render. */
  ghost predicate Blocked(env: Env, rule: Rule, start: View) {
    var (v, auth) := Authenticate(rule, Reset(start));
    || NoMatch(rule, Reset(start)) || Unforwarded(rule, Reset(start))
    || (rule.backend.Configured() && RenderRequest(env, rule, auth, v).None?)
  }

  lemma PrepareEndsIff(env: Env, rule: Rule, start: View)
    ensures Prepare(env, rule, start).Ended? <==> Blocked(env, rule, start)
    ensures Prepare(env, rule, start).Ended? ==> Prepare(env, rule, start).verdict.outcome != Pass
  {
    if rule.auth == [] {
      OpenAuth(rule, Reset(start));
    } else {
      FirstGroupWins(rule, Reset(start));
    }
  }

  /** The conversation with the backend; without a backend, or when the rule never reaches it, there is none. */
  ghost function Conversation(env: Env, rule: Rule, w: World, start: View): Fetched {
    var (v, auth) := Authenticate(rule, Reset(start));
    if !rule.backend.Configured() || Blocked(env, rule, start) then Fetched([], 0, false)
    else FetchAll(env.web, RenderRequest(env, rule, auth, v).value, rule.backend, w.calls)
  }

  /** The state that a rule's variables and conditions are evaluated in, once the backend has answered. */
  ghost function AnsweredView(env: Env, rule: Rule, w: World, start: View): View {
    var v := Authenticate(rule, Reset(start)).0;
    if rule.backend.Configured()
    then v.(backend := Conclude(rule.backend, v.backend, Conversation(env, rule, w, start)))
    else v.(backend := v.backend.(accepted := true))
  }

  lemma ReadyVerdict(env: Env, rule: Rule, w: World, v: View, r: Rendered)
    requires !EvaluateReady(env, rule, w, v, r).record.hit
    ensures EvaluateReady(env, rule, w, v, r).record.verdict == Fresh(env, rule, r, v, w).verdict
  {
    assert FindEntry(env, w.contents, CacheKey(env, rule, r, v.cacheKey, v.rules), w.tick).None?;
  }

  lemma FreshIsJudged(env: Env, rule: Rule, w: World, v: View, r: Rendered)
    ensures var f := FetchAll(env.web, r, rule.backend, w.calls);
      var answered := v.(backend := Conclude(rule.backend, v.backend, f));
      && (f.failed ==> Fresh(env, rule, r, v, w).verdict.outcome == Error)
      && (!f.failed ==> Fresh(env, rule, r, v, w).verdict == Judge(env, rule, answered, env.clock(w.tick + 2)).verdict)
  {
  }

  /** What is prepared leads to that conversation and that state. */
  lemma PreparedAnswer(env: Env, rule: Rule, w: World, start: View)
    requires !Blocked(env, rule, start)
    ensures var p, f := Prepare(env, rule, start), Conversation(env, rule, w, start);
      var answered := AnsweredView(env, rule, w, start);
      && !p.Ended?
      && (p.NoBackend? ==> p.view == answered && !f.failed)
      && (p.Ready? ==>
            && f == FetchAll(env.web, p.request, rule.backend, w.calls)
            && answered == p.view.(backend := Conclude(rule.backend, p.view.backend, f)))
  {
    PrepareEndsIff(env, rule, start);
  }

  /** A fresh verdict that is not blocked and whose backend answers is the judgement of the answered state. */
  lemma FreshVerdict(env: Env, rule: Rule, w: World, start: View)
    requires !Evaluate(env, rule, w, start).record.hit && !Blocked(env, rule, start)
    ensures var verdict := Evaluate(env, rule, w, start).record.verdict;
      && (Conversation(env, rule, w, start).failed ==> verdict.outcome != Pass)
      && (!Conversation(env, rule, w, start).failed ==>
            verdict == Judge(env, rule, AnsweredView(env, rule, w, start), env.clock(w.tick + 2)).verdict)
  {
    PreparedAnswer(env, rule, w, start);
    var p := Prepare(env, rule, start);
    EvaluateLeads(env, rule, w, start);
    if p.Ready? {
      ReadyVerdict(env, rule, w, p.view, p.request);
      FreshIsJudged(env, rule, w, p.view, p.request);
    }
  }

  lemma EvaluateLeads(env: Env, rule: Rule, w: World, start: View)
    ensures var p, record := Prepare(env, rule, start), Evaluate(env, rule, w, start).record;
      && (p.Ready? ==> record == EvaluateReady(env, rule, w, p.view, p.request).record)
      && (p.NoBackend? ==> record.verdict == Judge(env, rule, p.view, env.clock(w.tick + 2)).verdict)
  {
  }

  /**
    A fresh evaluation passes if and only if a match group holds (or none is required), its forwards and the backend
    request render, the backend answers, the local variables can be computed, every error and fail condition is false
    without error, and the pass conditions are all true or, without any, the backend is absent or accepted.
   */
  lemma PassIff(env: Env, rule: Rule, w: World, start: View)
    requires !Evaluate(env, rule, w, start).record.hit
    ensures Evaluate(env, rule, w, start).record.verdict.outcome == Pass <==>
      var (_, auth) := Authenticate(rule, Reset(start)); var answered := AnsweredView(env, rule, w, start);
      var (bound, error) := BindLocals(rule.locals, answered, answered);
      && !NoMatch(rule, Reset(start)) && !Unforwarded(rule, Reset(start))
      && (rule.backend.Configured() ==>
            && RenderRequest(env, rule, auth, Authenticate(rule, Reset(start)).0).Some?
            && !Conversation(env, rule, w, start).failed)
      && error.None? && Passes(rule, bound, env.clock(w.tick + 2))
  {
    PrepareEndsIff(env, rule, start);
    if !Blocked(env, rule, start) {
      FreshVerdict(env, rule, w, start);
      JudgeOutcome(env, rule, AnsweredView(env, rule, w, start), env.clock(w.tick + 2));
    }
  }

  /** What an evaluation that never reaches its backend comes to. */
  lemma BlockedVerdict(env: Env, rule: Rule, w: World, start: View)
    requires Blocked(env, rule, start)
    ensures var verdict := Evaluate(env, rule, w, start).record.verdict; var v := Authenticate(rule, Reset(start)).0;
      && (NoMatch(rule, Reset(start)) ==> verdict == Verdict(Fail, rule.message(Fail, AuthUnmatched, v)))
      && (Unforwarded(rule, Reset(start)) ==> verdict == Verdict(Error, rule.message(Error, AuthForwardFailed, v)))
      && (!NoMatch(rule, Reset(start)) && !Unforwarded(rule, Reset(start)) ==>
            var failed := v.(backend := v.backend.(error := env.describe(RenderFailed)));
            verdict == Verdict(Error, rule.message(Error, RenderFailed, failed)))
  {
    PrepareEndsIff(env, rule, start);
    if rule.auth == [] {
      OpenAuth(rule, Reset(start));
    } else {
      FirstGroupWins(rule, Reset(start));
    }
  }

  /** What a backend that does not answer comes to. */
  lemma UnansweredVerdict(env: Env, rule: Rule, w: World, start: View)
    requires !Evaluate(env, rule, w, start).record.hit && !Blocked(env, rule, start)
    requires Conversation(env, rule, w, start).failed
    ensures var answered := AnsweredView(env, rule, w, start);
      var failed := answered.(backend := answered.backend.(error := env.describe(BackendFailed)));
      Evaluate(env, rule, w, start).record.verdict == Verdict(Error, rule.message(Error, BackendFailed, failed))
  {
    PreparedAnswer(env, rule, w, start);
    var p := Prepare(env, rule, start);
    ReadyVerdict(env, rule, w, p.view, p.request);
  }

  /** The backend answered, or there is none, and the local variables could be computed. */
  ghost predicate Answered(env: Env, rule: Rule, w: World, start: View) {
    !Blocked(env, rule, start) && !Conversation(env, rule, w, start).failed
  }

  /** Once answered, the variables and then the conditions decide, outcome and reason. */
  lemma AnsweredVerdict(env: Env, rule: Rule, w: World, start: View)
    requires !Evaluate(env, rule, w, start).record.hit && Answered(env, rule, w, start)
    ensures var verdict := Evaluate(env, rule, w, start).record.verdict; var v := AnsweredView(env, rule, w, start);
      var (bound, error) := BindLocals(rule.locals, v, v);
      && (error.Some? ==> verdict == Verdict(Error, rule.message(Error, VariablesFailed(error.value), bound)))
      && (error.None? ==> DecidedBy(env, rule, bound, env.clock(w.tick + 2), verdict))
  {
    FreshVerdict(env, rule, w, start);
    var v := AnsweredView(env, rule, w, start);
    DecideIsDecidedBy(env, rule, BindLocals(rule.locals, v, v).0, env.clock(w.tick + 2));
  }

  lemma AnsweredOutcome(env: Env, rule: Rule, w: World, start: View)
    requires !Evaluate(env, rule, w, start).record.hit && Answered(env, rule, w, start)
    ensures var outcome := Evaluate(env, rule, w, start).record.verdict.outcome;
      var v, now := AnsweredView(env, rule, w, start), env.clock(w.tick + 2);
      var (bound, error) := BindLocals(rule.locals, v, v);
      && (outcome == Fail <==> error.None? && Fails(rule, bound, now))
      && (outcome == Error <==> error.Some? || Errs(rule, bound, now))
  {
    FreshVerdict(env, rule, w, start);
    var v := AnsweredView(env, rule, w, start);
    DecideIff(env, rule, BindLocals(rule.locals, v, v).0, env.clock(w.tick + 2));
  }

  /**
    A fresh evaluation fails if and only if no match group holds, or everything before the conditions succeeds and
    the conditions fail.
   */
  lemma FailIff(env: Env, rule: Rule, w: World, start: View)
    requires !Evaluate(env, rule, w, start).record.hit
    ensures Evaluate(env, rule, w, start).record.verdict.outcome == Fail <==>
      var v := AnsweredView(env, rule, w, start); var (bound, error) := BindLocals(rule.locals, v, v);
      NoMatch(rule, Reset(start))
      || (Answered(env, rule, w, start) && error.None? && Fails(rule, bound, env.clock(w.tick + 2)))
  {
    if Blocked(env, rule, start) {
      BlockedVerdict(env, rule, w, start);
    } else if Conversation(env, rule, w, start).failed {
      UnansweredVerdict(env, rule, w, start);
    } else {
      AnsweredOutcome(env, rule, w, start);
    }
  }

  /**
    It is an error if and only if a group matches, or none is required, and a forward or the request does not render,
    the backend does not answer, a variable cannot be computed, or the conditions come to an error.
   */
  lemma ErrorIff(env: Env, rule: Rule, w: World, start: View)
    requires !Evaluate(env, rule, w, start).record.hit
    ensures Evaluate(env, rule, w, start).record.verdict.outcome == Error <==>
      var (v, auth) := Authenticate(rule, Reset(start)); var answered := AnsweredView(env, rule, w, start);
      var (bound, error) := BindLocals(rule.locals, answered, answered);
      !NoMatch(rule, Reset(start))
      && (Unforwarded(rule, Reset(start))
          || (rule.backend.Configured() && RenderRequest(env, rule, auth, v).None?)
          || Conversation(env, rule, w, start).failed
          || error.Some? || Errs(rule, bound, env.clock(w.tick + 2)))
  {
    if Blocked(env, rule, start) {
      BlockedVerdict(env, rule, w, start);
    } else if Conversation(env, rule, w, start).failed {
      UnansweredVerdict(env, rule, w, start);
    } else {
      AnsweredOutcome(env, rule, w, start);
    }
  }

  // ---- What finishing exports and what a hit restores ----

  /** Each export by its name, the last of a name counting, or nothing at all when one of them fails. */
  lemma {:induction false} ExportsSucceed(bindings: seq<Binding>, v: View)
    ensures EvalExports(bindings, v).Some? <==> forall i | 0 <= i < |bindings| :: bindings[i].eval(v, map[]).Ok?
  {
    if bindings != [] {
      var init := bindings[..|bindings| - 1];
      ExportsSucceed(init, v);
      assert forall i | 0 <= i < |init| :: init[i] == bindings[i];
    }
  }

  /** Binding `i` is the last of its name. */
  predicate LastOfName(bindings: seq<Binding>, i: int) {
    0 <= i < |bindings| && forall j | i < j < |bindings| :: bindings[j].name != bindings[i].name
  }

  /** A variable is the value of the last binding of its name. */
  ghost predicate BoundAs(bindings: seq<Binding>, v: View, name: string, value: string) {
    exists i :: LastOfName(bindings, i) && bindings[i].name == name && bindings[i].eval(v, map[]) == Ok(value)
  }

  /** Each export by its name, the last of a name counting, or nothing at all when one of them fails. */
  lemma {:induction false} ExportsByName(bindings: seq<Binding>, v: View)
    requires EvalExports(bindings, v).Some?
    ensures var vars := EvalExports(bindings, v).value;
      && (forall n | n in vars :: BoundAs(bindings, v, n, vars[n]))
      && (forall i | 0 <= i < |bindings| :: bindings[i].name in vars)
  {
    if bindings != [] {
      var init, last := bindings[..|bindings| - 1], bindings[|bindings| - 1];
      ExportsByName(init, v);
      var vars := EvalExports(bindings, v).value;
      forall n | n in vars ensures BoundAs(bindings, v, n, vars[n]) {
        LaterBinding(init, last, v, n, vars[n]);
        assert init + [last] == bindings;
      }
      assert forall i | 0 <= i < |init| :: init[i] == bindings[i];
    }
  }

  lemma LaterBinding(init: seq<Binding>, last: Binding, v: View, n: string, value: string)
    requires if n == last.name then last.eval(v, map[]) == Ok(value) else BoundAs(init, v, n, value)
    ensures BoundAs(init + [last], v, n, value)
  {
    var all := init + [last];
    if n == last.name {
      assert LastOfName(all, |init|);
    } else {
      var i :| LastOfName(init, i) && init[i].name == n && init[i].eval(v, map[]) == Ok(value);
      assert LastOfName(all, i) && all[i] == init[i];
    }
  }

  /** The exports of an outcome in the state that already carries the outcome and the reason. */
  ghost predicate Exports(rule: Rule, verdict: Verdict, v: View, vars: Vars) {
    var marked := v.(rule := v.rule.(outcome := Some(verdict.outcome), reason := verdict.reason));
    var list := match verdict.outcome
      case Pass => rule.passExports
      case Fail => rule.failExports
      case Error => rule.errorExports;
    list != [] && EvalExports(list, marked) == Some(vars)
  }

  /** Every name but one stands for what it did before. */
  ghost predicate SameBeside(before: map<string, Vars>, after: map<string, Vars>, name: string) {
    && (forall n | n != name :: n in after <==> n in before)
    && (forall n | n != name && n in before :: after[n] == before[n])
  }

  /** What `over` says counts, and below it what `under` says. */
  ghost predicate Overlaid(under: map<string, string>, over: map<string, string>, result: map<string, string>) {
    && (forall k :: k in result <==> k in over || k in under)
    && (forall k | k in over :: result[k] == over[k])
    && (forall k | k in under && k !in over :: result[k] == under[k])
  }

  /**
    Finishing evaluates the exports of the outcome: the rule's variables become theirs, and so do the response's,
    where the latest rule wins; everything else stays, and without exports everything does.
   */
  lemma FinishWrites(rule: Rule, verdict: Verdict, v: View)
    ensures var done := Finish(rule, verdict, v);
      && done.rule.outcome == Some(verdict.outcome) && done.rule.reason == verdict.reason
      && done.responseHeaders == v.responseHeaders && done.cache == v.cache && done.backend == v.backend
      && SameBeside(v.rules, done.rules, rule.name)
      && ((forall vars :: !Exports(rule, verdict, v, vars)) ==>
            done.rules == v.rules && done.responseVars == v.responseVars && done.rule.exported == v.rule.exported)
      && forall vars | Exports(rule, verdict, v, vars) ::
           && rule.name in done.rules && done.rules[rule.name] == vars == done.rule.exported
           && Overlaid(v.responseVars, vars, done.responseVars)
  {
    var marked := v.(rule := v.rule.(outcome := Some(verdict.outcome), reason := verdict.reason));
    var list := ExportsFor(rule, verdict.outcome);
    if list != [] && EvalExports(list, marked).Some? {
      assert Exports(rule, verdict, v, EvalExports(list, marked).value);
    }
  }

  /** A hit restores the entry's outcome and times, its exports unless it has none, and its headers over the others. */
  lemma RestoreWrites(rule: Rule, e: RuleEntry, v: View)
    ensures var hit := Restore(rule, e, v);
      && hit.cache == CacheState(true, Some(e.outcome), e.storedAt, e.expiresAt, v.cache.stored)
      && SameBeside(v.rules, hit.rules, rule.name)
      && (e.exported == map[] ==> hit.rules == v.rules && hit.rule.exported == v.rule.exported)
      && (e.exported != map[] ==>
            rule.name in hit.rules && hit.rules[rule.name] == e.exported == hit.rule.exported)
      && Overlaid(v.responseHeaders, e.headers, hit.responseHeaders)
  {
  }

  /**
    A new entry holds the verdict, the exports and the response headers of the finished evaluation, for its lifetime.
   */
  lemma NewEntryHolds(env: Env, rule: Rule, v: View, verdict: Verdict, now: int)
    ensures NewEntry(env, rule, v, verdict, now).Some? <==>
            verdict.outcome != Error && LifeTime(env, rule, verdict.outcome, v.backend.headers) > 0
    ensures NewEntry(env, rule, v, verdict, now).Some? ==> var e := NewEntry(env, rule, v, verdict, now).value;
      && e.outcome == verdict.outcome && e.reason == verdict.reason && e.exported == v.rule.exported
      && e.headers == v.responseHeaders && e.storedAt == now
      && e.expiresAt == now + LifeTime(env, rule, verdict.outcome, v.backend.headers)
  {
  }

  /** The lifetime of a cached outcome, told by the backend's header and the configured texts. */
  lemma EntryLifetime(env: Env, rule: Rule, outcome: Outcome, headers: map<string, string>)
    ensures LifetimeIs(env.parseDuration, outcome, {env.serverMax}, rule.cache, headers,
                       LifeTime(env, rule, outcome, headers))
  {
    WithoutEndpoint(env.parseDuration, outcome, env.serverMax, rule.cache, headers);
  }

  /** Nothing is stored where the rule follows the backend's header and some part of it forbids caching. */
  lemma ForbiddenIsNotStored(env: Env, rule: Rule, v: View, verdict: Verdict, now: int)
    requires Followed(rule.cache, v.backend.headers) && Forbids(Split(v.backend.headers["cache-control"], ','))
    ensures NewEntry(env, rule, v, verdict, now).None?
  {
    EntryLifetime(env, rule, verdict.outcome, v.backend.headers);
  }

  // ---- What local variables are bound to, and what request is rendered ----

  /** `scopes` are the local variables before each of the first bindings and after the last of them. */
  ghost predicate Bound(bindings: seq<Binding>, start: View, scopes: seq<Vars>) {
    && 0 < |scopes| <= |bindings| + 1
    && forall i | 0 <= i < |scopes| - 1 :: BindsAs(bindings[i], start, scopes[i], scopes[i + 1])
  }

  ghost predicate BindsAs(b: Binding, start: View, before: Vars, after: Vars) {
    b.eval(start, before).Ok? && after == before[b.name := b.eval(start, before).value]
  }

  /** Binding went as far as these scopes: to the end without an error, or to the binding that fails. */
  ghost predicate BoundTo(bindings: seq<Binding>, start: View, v: View, scopes: seq<Vars>, r: (View, Option<string>)) {
    && Bound(bindings, start, scopes) && scopes[0] == v.rule.locals
    && r.0 == v.(rule := v.rule.(locals := scopes[|scopes| - 1]))
    && match r.1
       case None => |scopes| == |bindings| + 1
       case Some(text) =>
         && |scopes| <= |bindings|
         && var b := bindings[|scopes| - 1];
            b.eval(start, scopes[|scopes| - 1]).Err?
              && text == b.name + ": " + b.eval(start, scopes[|scopes| - 1]).error
  }

  /** Local variables are bound in order, each seeing those before it, up to the first that fails; those stay. */
  lemma {:induction false} LocalsAreBound(bindings: seq<Binding>, start: View, v: View) returns (scopes: seq<Vars>)
    ensures BoundTo(bindings, start, v, scopes, BindLocals(bindings, start, v))
    decreases bindings
  {
    scopes := [v.rule.locals];
    if bindings != [] && bindings[0].eval(start, v.rule.locals).Ok? {
      var x := bindings[0].eval(start, v.rule.locals).value;
      var next := v.(rule := v.rule.(locals := v.rule.locals[bindings[0].name := x]));
      var rest := LocalsAreBound(bindings[1..], start, next);
      scopes := scopes + rest;
      assert forall i | 1 <= i < |scopes| - 1 :: BindsAs(bindings[1..][i - 1], start, rest[i - 1], rest[i]);
    }
  }

  /** The rendered request: its method, URL and body, and in each header and parameter the last value granted to it. */
  ghost predicate IsRendered(env: Env, rule: Rule, parts: RequestParts, forwards: seq<Forward>, r: Rendered) {
    && (r.verb == if Trim(rule.backend.verb) == "" then "GET" else rule.backend.verb)
    && r.url == rule.backend.url && r.body == parts.body
    && forall k ::
         && ValueAt(r.headers, k) == Or(LastWrite(HeaderWriter(env.encode), forwards, k), ValueAt(parts.headers, k))
         && ValueAt(r.query, k) == Or(LastWrite(QueryWriter(), forwards, k), ValueAt(parts.query, k))
  }

  lemma RenderedIs(env: Env, rule: Rule, auth: Auth, v: View)
    ensures var forwards := if auth.Granted? then auth.forwards else []; var r := RenderRequest(env, rule, auth, v);
      && (r.Some? <==> rule.render(v).Some? && forall f | f in forwards :: Applicable(f))
      && (r.Some? ==> IsRendered(env, rule, rule.render(v).value, forwards, r.value))
  {
    if rule.render(v).Some? {
      var parts := rule.render(v).value;
      ApplyWritesLast(env.encode, if auth.Granted? then auth.forwards else [], Target(parts.headers, parts.query));
    }
  }

  /**
    What conditions and templates see of authentication: the kind of the group's first matcher and the first forward.
   */
  lemma AuthenticationIsSeen(rule: Rule, v: View, i: nat)
    requires FirstMatch(rule, v, i)
    ensures var (seen, auth) := Authenticate(rule, v); var matchers := rule.auth[i].matchers;
      && seen == SetAuth(v, seen.rule.auth) && seen.rule.auth.input == Matched(Extract(v.credentials))
      && (auth.Granted? ==>
            && (seen.rule.auth.selected == if matchers == [] then "" else matchers[0].Kind())
            && seen.rule.auth.forward == if auth.forwards == [] then None else Some(auth.forwards[0]))
  {
    SelectIsFirst(rule, v, i);
  }

  lemma SelectIsFirst(rule: Rule, v: View, i: int)
    requires FirstMatch(rule, v, i)
    ensures Select(rule.auth, Extract(v.credentials)) == i
  {
  }

  /** Before anything has been exported, a rule has the same key whether it is strict or not. */
  lemma StrictnessNeedsVariables(env: Env, rule: Rule, r: Rendered, base: string, strict: Option<bool>)
    ensures CacheKey(env, rule.(cache := rule.cache.(strict := strict)), r, base, map[])
            == CacheKey(env, rule, r, base, map[])
  {
  }
}
