/** The request state that the agents share: a value, for specifications and engines, and the object they update. */
module State {
  import opened Wrappers
  import opened Credentials
  import opened Pagination
  import opened Ttl

  /** Variable values, as the JSON text of the value. */
  type Vars = map<string, string>

  /** The credentials of a request, by kind; header names are matched in lower case. */
  datatype Extracted = Extracted(
    bearer: Option<string>, basic: Option<(string, string)>,
    headers: map<string, (string, string)>, query: map<string, string>)

  datatype Forward =
    | NoForward
    | BasicForward(user: string, password: string)
    | BearerForward(token: string)
    | HeaderForward(name: string, value: string)
    | QueryForward(name: string, value: string)

  datatype AuthInput = NoInput | Unmatched | Matched(credentials: Extracted)

  datatype AuthState = AuthState(selected: string, input: AuthInput, forward: Option<Forward>)

  datatype RuleState = RuleState(outcome: Option<Outcome>, reason: string, auth: AuthState, locals: Vars,
                                 exported: Vars)

  datatype CacheState = CacheState(hit: bool, decision: Option<Outcome>, storedAt: int, expiresAt: int, stored: bool)

  /**
    What is fixed for a request.  `context` stands for all that is not listed: client address, proxy trust, the
    forwarded request, endpoint variables, environment and secrets.
   */
  datatype RequestFacts = RequestFacts(
    verb: string, path: string, host: string, headers: map<string, string>, query: map<string, string>, context: string)

  /** Everything a template or a condition program can see. */
  datatype View = View(
    cacheKey: string,
    request: RequestFacts,
    credentials: seq<Credential>,
    rule: RuleState,
    backend: BackendState,
    cache: CacheState,
    rules: map<string, Vars>,
    responseHeaders: map<string, string>,
    responseVars: Vars)

  const NO_AUTH := AuthState("", NoInput, None)
  const NO_BACKEND := BackendState(false, 0, map[], "", "", false, [])
  const NO_CACHE := CacheState(false, None, 0, 0, false)

  class PipelineState {
    const cacheKey: string
    const request: RequestFacts
    const credentials: seq<Credential>
    var rule: RuleState
    var backend: BackendState
    var cache: CacheState
    var rules: map<string, Vars>
    var responseHeaders: map<string, string>
    var responseVars: Vars

    /** The state as a value, for an engine to read. */
    function Snapshot(): View
      reads this
    {
      View(cacheKey, request, credentials, rule, backend, cache, rules, responseHeaders, responseVars)
    }

    constructor (cacheKey: string, request: RequestFacts, credentials: seq<Credential>)
      ensures Snapshot() == FreshView(cacheKey, request, credentials)
    {
      this.cacheKey, this.request, this.credentials := cacheKey, request, credentials;
      rule := RuleState(None, "", NO_AUTH, map[], map[]);
      backend, cache := NO_BACKEND, NO_CACHE;
      rules, responseHeaders, responseVars := map[], map[], map[];
    }
  }

  function FreshView(cacheKey: string, request: RequestFacts, credentials: seq<Credential>): View {
    View(cacheKey, request, credentials, RuleState(None, "", NO_AUTH, map[], map[]), NO_BACKEND, NO_CACHE, map[],
         map[], map[])
  }
}
