# PassCtrl: a verified model of the decision engine

PassCtrl answers forward-auth requests: admission decides whether the proxy headers of a request may be believed and
whether it carries a credential, and a chain of rules then decides, with the help of backends and of a decision cache.
This project models five connected parts of it in Dafny and proves what they promise over all inputs and all runs.

| modules | part |
|---|---|
| `RuleSpec`, `RuleAgent`, `Records`, `Repeats`, `Runs`, `Origins`, `Upstream`, `Chains`, `Server` | rule evaluation, the per-rule decision cache, whole runs of requests and reloads |
| `MemoryCache`, `CacheKeys`, `Requests`, `Descriptor`, `Variables`, `CacheControl`, `Ttl` | the cache object, its keys, the texts behind their hashes, lifetimes |
| `Admission`, `Forwarded`, `ProxyChain`, `Credentials` | proxy trust, the `Forwarded` header of RFC 7239, credentials |
| `Aggregator` | merging rule documents into one bundle |
| `Pagination`, `Links` | following `rel="next"` links of a backend |
| `RuleAuth`, `Delivery`, `ForwardOrder` | choosing credentials and forwarding them to a backend |
| `Text`, `Order`, `Wrappers`, `State` | strings, sorting, results, the state a rule works on |

Code of the original that updates state is a class or a method with loops here, proved to compute a function or a
declarative predicate on values; the properties are lemmas about those. The main results:

- **Cache soundness over every run** (`Origins.CacheIsSound`, `Runs.HitAsksTheSame`, `Runs.HitAgreesOnHeaders`,
  `Upstream.HitSharesVariables`): whatever requests and reloads came before, an answer from the cache is the pass or
  fail of an earlier fresh evaluation of the same rule definition under the same configuration and base key, with the
  same canonical backend request and, where they are hashed, the same text of the exported variables; it was stored
  since the last reload, has not expired, and no backend was asked. Where these texts tell requests, backend requests
  and variables apart, those are the same as well. `Server.Pipeline` refines the runs: each of its methods takes one
  step of a run, so everything proved of runs holds of the object, and the cache object is the replay of its history.
- **Admission and the reply** (`Admission.TrustIffBelievable`, `Admission.AuthenticatedIff`,
  `Runs.RejectedTouchesNothing`, `Server.AllowedIffAllPassed`, `Server.StatusByCase`): the pipeline runs the admission
  agent, and a request gets a success status exactly when its forwarding headers do not stop it, it carries an allowed
  credential or needs none, and every rule passed.
- **Which key is read and which is written** (`Repeats.RepeatHitsIff`): after an evaluation that stored, the same
  evaluation is answered from the cache if and only if the rule is not strict or left the exported variables alone,
  whatever rules and variables are called. (Only a rule that runs twice in one chain needs variable names without `=`.)
  The other half is a finding: a strict rule that adds its exports writes a key that it will not look up
  (`Repeats.RepeatByConfiguration`, `Upstream.StrictAnswerIsSilent`, `Upstream.StrictExporterNeverHits`).
- **Proxy chains are read as they are written** (`ProxyChain.ForwardedNames`, `ProxyChain.WrittenReads`,
  `ProxyChain.HeadersAgree`, `Forwarded.NormalisingIsIdempotent`), for any address parser: a `Forwarded` header is
  accepted iff every element has a `for` and every `for` names an address, whatever the case, blanks, quotes and other
  pairs; its hops are those addresses in order; and its rewritten text is idempotent and keeps every pair.
- **Verdicts without the order of evaluation** (`RuleSpec.PassIff`, `RuleSpec.FailIff`, `RuleSpec.ErrorIff`,
  `RuleSpec.AnsweredVerdict`): exactly when a fresh evaluation passes, fails or is an error, and for which reason.
- **When a result is stored and when it answers** (`Records.EvaluationStoresIff`, `Records.EvaluationHitsIff`), with the
  lifetime read off the parts of the backend's header and the configured texts (`Ttl.EffectiveByText`).
- **Credentials arrive as they were sent** (`Delivery.CredentialsReachBackend`, `Chains.ServedCredentialsArrive`): every
  bearer, Basic, header and query credential that a match group takes from the client's request is read back from the
  first request the backend gets, and explicit forwards arrive as the last one to write a name wrote it.
- **The bundle is determined by the collection of documents** (`Aggregator.BuildRuleBundle`, `Aggregator.BundleIsUnique`),
  in whatever order documents and maps are traversed.
- **Pagination is safe against any network** (`Pagination.PaginationIsSafe`, `Pagination.PaginationEnds`,
  `Pagination.ConclusionHolds`, `Pagination.Converse`): what is sent for every page, when it ends and fails, what stays.

Foreign code is an arbitrary function: CEL programs, templates, regular expressions, URL parsing and resolution, the
network (the n-th request may get any answer), base64, JSON, hashes, duration parsing, address parsing, the clock.
What is assumed of it is named in predicates: `Records.Clockwork` (the clock never runs backwards), `Records.Lossless`
(JSON keeps outcome, reason, times and the names of exported variables), `Records.Hashes` and `Records.Collisionless`
(hash text is not empty and has no `|`, no two texts share a hash), `Variables.SelfDelimiting` (no JSON text followed by
`|` starts another), `Forwarded.Codec` (a printed address reads back), `Credentials.Base64` (decoding inverts encoding).
Each lemma requires only the ones it needs.

Findings, each a lemma about the code as it is. Where the code misses a property, a condition under which it holds is
named too; it is exact where the lemma's name ends in Iff:

- A strict rule that is listed once and adds its exports is not answered when it is repeated, see above; over runs it is
  answered only by an evaluation that exported nothing.
- The text of the exported variables joins names with dots: rule `a` exporting `b.c` and rule `a.b` exporting `c` share
  it (`Variables.DotsCollide`). For exports whose names hold no `=`, the text tells all variables apart exactly when no
  two exports have the same dotted name (`Variables.TextTellsIff`).
- The raw text of a base key joins credential, endpoint and path with pipes, so two credentials can share it at
  different paths (`Requests.PipesCollide`); exactly the triples of credential, endpoint and path without pipes have a
  raw text of their own (`Requests.RawUniqueIff`).
- A `|` in the method, the URL, the body or a header value, or a `:` in a header name, lets two backend requests share a
  cache entry (`Descriptor.PipeInMethodCollides`, `Descriptor.PipeInUrlCollides`, `Descriptor.PipeInBodyCollides`,
  `Descriptor.PipeInValueCollides`, `Descriptor.ColonInNameCollides`); without these, requests share a text iff they
  differ at most in excluded headers (`Descriptor.ShareTextIff`).
- When several pipelines share one cache (`PipelineOptions.Cache`), the purge of one also covers a namespace that
  starts with its own namespace and epoch (`CacheKeys.NestedNamespaceIsPurged`); `CacheKeys.PurgeCoversIff` says which
  keys a purge covers. A single pipeline holds only keys of its own prefix (`Runs.HeldLifetimes`).
- Admission reads, rewrites and strips by the first value of a forwarding header only: in an authenticated run without
  a trusted proxy a later value stays in the request iff both first values were blank (`Admission.LaterValuesEscape`,
  `Admission.TrustIffBelievable`).
- Validation accepts a header forward named Authorization next to a bearer or basic forward, and their order then
  decides what is sent (`ForwardOrder.HeaderCanShadowBearer`); `ForwardOrder.ValidatedOrderMattersIff` says exactly when
  the order of a validated list matters, `ForwardOrder.OrderMattersIff` of any list.
- Cache-Control ages above 9223372036 seconds overflow 64-bit nanoseconds (`CacheControl.ExactSeconds`); the lifetime
  still never exceeds the server's ceiling (`Runs.HeldLifetimes`).
- Conflicting repeated age directives can make the order of a Cache-Control header matter
  (`CacheControl.ConflictShowsInOrder`); `CacheControl.ReorderingMattersIff` says exactly when it changes the lifetime.
- The state is marked as stored although nothing was, exactly for an error or a lifetime that is not positive
  (`RuleSpec.MarkedWithoutEntry`).
- Documentation speaks of an endpoint ceiling on lifetimes; the code passes an empty one
  (internal/runtime/rule_execution_agent.go:407). The ceiling is lost exactly when it is positive and below the lifetime
  (`RuleSpec.EndpointCeilingIsLost`).

## Model

| member | source | states |
|---|---|---|
| `Origins.CacheIsSound` | internal/runtime/rule_execution_agent.go:211-261 | in every run of requests and reloads, a hit repeats the pass or fail and the reason of an earlier fresh evaluation with the same base key, rule, canonical request text and, where they are hashed by either, text of the exported variables, under the same configuration, within its lifetime, since the last reload, without a backend request; requests without separators presented the same credential (the whole Authorization header, header, parameter or address) to the same endpoint at the same path |
| `Runs.HitRepeatsFresh` | internal/runtime/rule_execution_agent.go:211-261 | the part of this that needs only the records: same base key, rule name, texts, verdict, lifetime and no purge in between |
| `Origins.RunIsTraced` | internal/runtime/runtime.go:687-715 | in every run each record is of a rule its request's plan lists, under its request's base key, and the configuration changes only at a purge |
| `Upstream.HitSharesVariables` | internal/runtime/rule_cache.go:137-148 | where the dotted names of the configuration in force tell its exports apart, that earlier evaluation had exactly the same exported variables when it was stored |
| `Upstream.RunKeepsWhole` | internal/runtime/rule_execution_agent.go:1197-1245 | in every run no rule has exported an empty set of variables, and the variables of every record are among the exports of its configuration |
| `Runs.HitAsksTheSame` | internal/runtime/rule_cache.go:36-133 | where neither of the two requests holds a separator, that earlier evaluation had the same method, URL, body and kept headers |
| `Runs.HitAgreesOnHeaders` | internal/runtime/rule_cache.go:61-133 | with the names the code leaves out, it agrees on every header that is no tracing, correlation or switched-off proxy header |
| `Runs.BaseKeyTellsWho` | internal/runtime/runtime.go:532-543 | requests without separators share a base key only for the same credential, endpoint and path; the credential is said of the request: its trimmed Authorization header, else its first allowed header that is not blank, else its first allowed query parameter that is not empty, else its address |
| `Requests.TextIsPresented` | internal/runtime/helpers.go:31-56 | the credential part of the raw text is that of the one thing the request presents, in the order Authorization, headers, parameters, address |
| `Requests.TextOfInjective` | internal/runtime/helpers.go:31-56 | where header and parameter names hold no colon, that text tells kind, name and whole value |
| `Requests.SameCredential` | internal/runtime/helpers.go:31-56 | so two requests with equal credential texts present the same credential |
| `Origins.AnonymousIsNeverAnswered` | internal/runtime/runtime.go:532-543 | in every run a request to an endpoint that allows anonymous requests is never answered from the cache |
| `Requests.RawInjective` | internal/runtime/helpers.go:20-27 | the raw text without pipes tells credential, endpoint and path |
| `Requests.RawUniqueIff` | internal/runtime/helpers.go:20-27 | no other triple of credential, endpoint and path shares the raw text iff none of the three holds a pipe |
| `Requests.PipesCollide` | internal/runtime/helpers.go:20-27 | with pipes two credentials share a raw text at two paths of one endpoint |
| `Runs.RunKeepsInv` | internal/runtime/rule_execution_agent.go:199-261 | the invariant of every reachable system: each entry held is the latest word on its key, each hit is answered, each key belongs to the site |
| `Runs.EvaluationKeepsInv` | internal/runtime/rule_execution_agent.go:310-454 | one evaluation from any system satisfying the invariant leads to one that does |
| `Runs.SharedKey` | internal/runtime/rule_cache.go:36-54 | a record that looks up what another stored shares base key, rule name and both hashes with it |
| `Runs.HeldLifetimes` | internal/runtime/rule_cache.go:184-229 | every entry held in any run lives for more than nothing and at most the server's ceiling, under a key of this namespace and epoch |
| `Runs.ReloadForgets` | internal/runtime/runtime.go:687-715 | a reload at any point of any run leaves the cache empty |
| `Upstream.StrictAnswerIsSilent` | internal/runtime/rule_execution_agent.go:380-404 | in every run a strict rule that its plan lists once is answered only by an evaluation of the same rule that exported nothing, where dotted names tell the exports of the configuration in force apart |
| `Upstream.StrictExporterNeverHits` | internal/runtime/rule_execution_agent.go:380-404 | so it is never answered when its exports can always be evaluated |
| `Chains.ChainThreads` | internal/runtime/rule_execution_agent.go:119-152 | the variables each rule of a chain starts from are exactly those that the rule before it left |
| `Chains.ServedVariablesThread` | internal/runtime/rule_execution_agent.go:119-152 | in a served request the first rule starts without any |
| `Chains.ChainSteps` | internal/runtime/rule_execution_agent.go:119-152 | every record of a chain is the evaluation of its rule where the chain stands, for the request and credentials as they came |
| `Chains.LeftoversDoNotShow` | internal/runtime/rule_execution_agent.go:211-222 | what the rule before left of its own, its backend, authentication, local and exported variables of the rule state, changes nothing in an evaluation |
| `Chains.SentIsConversation` | internal/runtime/rule_execution_agent.go:245-258 | a fresh evaluation sends exactly the requests of its conversation |
| `Runs.RejectedTouchesNothing` | internal/runtime/rulechain/agent.go:179-196 | a request that its forwarding headers stop, or without an allowed credential where one is required, evaluates no rule and leaves cache, clock, backend and log as they were |
| `Runs.ChainIsPrefix` | internal/runtime/rule_execution_agent.go:119-152 | the history of a chain names a prefix of the plan, in order |
| `Runs.ChainStopsAtFirst` | internal/runtime/rule_execution_agent.go:119-152 | all evaluated rules but the last passed, and the chain passes iff the whole plan was evaluated and passed |
| `Runs.ChainAccounts` | internal/runtime/rule_execution_agent.go:119-152 | every clock reading, backend request and change of the cache belongs to an evaluated rule, so rules after the first non-pass touch nothing |
| `Server.AllowedIffAllPassed` | internal/runtime/responsepolicy/agent.go:99-176 | where only a pass has a success status, a reply has one iff the endpoint exists, the request is not stopped by its forwarding headers, it has an allowed credential or needs none, and every rule was evaluated and passed |
| `Server.StatusByCase` | internal/runtime/responsepolicy/agent.go:99-131 | 404 for an unknown endpoint, 500 where forwarding headers stop the request, 401 or the configured status where a required credential is missing, otherwise 200, 403, 502 or the configured status of the last outcome |
| `Server.StatusFor` | internal/runtime/runtime.go:370-389 | a known endpoint always answers with a positive status |
| `Server.ReplyStatus` | internal/runtime/runtime.go:370-389 | every reply, also to a request rejected by admission, has a positive status |
| `Server.HitFlag` | internal/runtime/rule_execution_agent.go:119-139 | the cache flag reported in the history is set exactly for a hit |
| `Server.ExecuteRule` | internal/runtime/rule_execution_agent.go:119-144 | one turn of the loop performs one evaluation and reports its outcome, reason and hit |
| `Server.ExecuteNext` | internal/runtime/rule_execution_agent.go:119-152 | one turn keeps: what was evaluated followed by the chain of the remaining rules is the whole chain |
| `Server.ExecuteChain` | internal/runtime/rule_execution_agent.go:93-177 | the loop computes the chain of the plan and its history |
| `Server.Pipeline.constructor` | internal/runtime/runtime.go:85-126 | a new pipeline is the empty run |
| `Server.Pipeline.ServeAuth` | internal/runtime/runtime.go:348-389 | serving runs admission and the rules as one Serve step of the run and returns its history and status |
| `Server.Pipeline.Receive` | internal/runtime/runtime.go:348-386 | the base key is derived before admission, and the plan and state follow from what admission leaves |
| `Server.Pipeline.Reload` | internal/runtime/runtime.go:687-715 | reloading takes one Reload step of the run: new configuration, own epoch purged |
| `Records.EvaluationPromises` | internal/runtime/rule_execution_agent.go:211-306 | from any cache, an evaluation hits only what is held and unexpired, stores only a fresh pass or fail within the ceiling, changes nothing else in the cache, and accounts for clock and backend |
| `Records.EvaluationHitsIff` | internal/runtime/rule_execution_agent.go:310-378 | an evaluation is answered from the cache iff it gets as far as a backend request, has a base key, and the cache holds an entry under its key that is alive at both clock readings and readable |
| `Records.EvaluationStoresIff` | internal/runtime/rule_execution_agent.go:380-454 | a fresh evaluation that reaches its backend stores its result, with its exports and headers, iff there is a base key, the outcome is no error, the lifetime is positive and the entry can be encoded |
| `Repeats.StoresWhereItLooked` | internal/runtime/rule_cache.go:137-148 | for any variables, the key written is the key read iff the rule is not strict or the texts of the exported variables agree |
| `Repeats.UnchangedRepeatHits` | internal/runtime/rule_execution_agent.go:310-340 | an unchanged repeat before expiry hits, with the stored verdict and no backend request, whatever the hash |
| `Repeats.RepeatHitsByText` | internal/runtime/rule_execution_agent.go:310-404 | whatever names and values, a repeat before expiry hits iff the rule is not strict or the texts of the exported variables agree |
| `Repeats.RepeatHitsIff` | internal/runtime/rule_execution_agent.go:310-404 | a repeat before expiry hits, with the stored verdict and no backend request, iff the rule is not strict or the first evaluation left the exported variables unchanged; only a rule that has exported in this request before needs readable variables |
| `Repeats.RepeatByConfiguration` | internal/runtime/rule_execution_agent.go:1197-1233 | said of the configuration: a rule that exports nothing for its outcome, or is not strict, hits; a strict rule that has not exported yet hits iff it does not export now |
| `Repeats.EvaluationKeepsKind` | internal/runtime/rule_execution_agent.go:1197-1245 | an evaluation replaces at most the variables of its own rule, by some that are not empty and of any kind that its exports and restored entries belong to |
| `Repeats.RepeatIsHit` | internal/runtime/rule_cache.go:155-181 | a held, unexpired entry under the looked-up key answers the rule |
| `Repeats.StillMissing` | internal/runtime/rule_cache.go:155-181 | what a lookup did not find is not found later unless stored meanwhile |
| `Records.KeepFacts` | internal/runtime/rule_cache.go:184-229 | storing adds at most one entry, with the verdict just reached, never an error, for a lifetime in (0, ceiling] |
| `RuleSpec.PassIff` | internal/runtime/rule_execution_agent.go:211-306 | a fresh evaluation passes iff a match group holds (or none is required), its forwards and the request render, the backend answers, the variables compute, every error and fail condition is false without error, and the pass list is all true or, when empty, the backend is absent or accepted |
| `RuleSpec.FailIff` | internal/runtime/rule_execution_agent.go:211-306 | a fresh evaluation fails iff no match group holds, or all error conditions are false and a fail condition is true with everything before it false, or the first pass condition that is not true is false, or without pass conditions a configured backend is not accepted |
| `RuleSpec.ErrorIff` | internal/runtime/rule_execution_agent.go:211-306 | it is an error iff forwards or the request do not render, the backend or a variable fails, an error condition is not false, the first fail condition that is not false is broken, or the first pass condition that is not true is broken |
| `RuleSpec.AnsweredVerdict` | internal/runtime/rule_execution_agent.go:260-306 | once the backend has answered, outcome and reason are those of the first variable or condition that decides |
| `RuleSpec.BlockedVerdict` | internal/runtime/rule_execution_agent.go:222-247 | outcome and reason when no group matches, a forward or the request does not render |
| `RuleSpec.UnansweredVerdict` | internal/runtime/rule_execution_agent.go:247-258 | outcome and reason when the backend fails |
| `RuleSpec.LocalsAreBound` | internal/runtime/rule_execution_agent.go:1112-1146 | each local variable sees exactly those bound before it, up to the first that fails, and those stay |
| `RuleSpec.RenderedIs` | internal/runtime/rule_execution_agent.go:458-541 | the rendered request has the configured method or GET, the URL and body, and under each name the last value granted to it or the rendered one |
| `RuleSpec.AuthenticationIsSeen` | internal/runtime/rule_execution_agent.go:611-658 | what conditions and templates see of the authentication of the first matching group |
| `RuleSpec.ExportsSucceed` | internal/runtime/rule_execution_agent.go:1197-1245 | exports evaluate iff each of them does |
| `RuleSpec.ExportsByName` | internal/runtime/rule_execution_agent.go:1197-1245 | each exported variable is the value of the last export of its name |
| `RuleSpec.FinishWrites` | internal/runtime/rule_execution_agent.go:180-196 | finishing evaluates the exports of the outcome in the state that carries it; they become the rule's variables and override those of the response; without them nothing changes |
| `RuleSpec.RestoreWrites` | internal/runtime/rule_cache.go:232-253 | a hit restores times and outcome, the exports unless there are none, and the headers over those already there, entry by entry |
| `RuleSpec.NewEntryHolds` | internal/runtime/rule_cache.go:184-229 | there is an entry iff the outcome is no error and the lifetime is positive; it holds the verdict, exports and response headers for that lifetime |
| `RuleSpec.EntryLifetime` | internal/runtime/rule_execution_agent.go:406-417 | the lifetime of an outcome, told by the parts of the backend's header and the configured texts, under the server's ceiling |
| `RuleSpec.ForbiddenIsNotStored` | internal/runtime/cache/ttl.go:92-107 | where the header is followed and some part forbids caching, nothing is stored |
| `RuleSpec.StrictnessNeedsVariables` | internal/runtime/rule_cache.go:137-148 | before anything is exported a rule has the same key whether it is strict or not |
| `RuleSpec.PrepareEndsIff` | internal/runtime/rule_execution_agent.go:222-247 | an evaluation ends before its backend iff no group matches, the first matching group has a forward that does not render, or the request of a configured backend does not render, and then it does not pass |
| `RuleSpec.MarkedWithoutEntry` | internal/runtime/rule_execution_agent.go:419-453 | the state is marked as stored without an entry iff there is a key and the lifetime is not positive or the outcome is an error |
| `RuleSpec.EndpointCeilingIsLost` | internal/runtime/rule_execution_agent.go:406-417 | the empty endpoint ceiling changes a lifetime iff the configured one is positive and below it |
| `RuleSpec.DecidePasses` | internal/runtime/rule_execution_agent.go:267-305 | the ordered condition lists pass iff the order-free condition holds |
| `RuleSpec.DecideIff` | internal/runtime/rule_execution_agent.go:267-305 | pass, fail and error of the ordered lists, each iff its order-free condition |
| `RuleSpec.DecideIsDecidedBy` | internal/runtime/rule_execution_agent.go:267-305 | outcome and reason by the first condition of each list that is not plainly false, or for pass conditions true |
| `RuleSpec.AnyOfStops` | internal/runtime/rule_execution_agent.go:966-997 | an any-list stops at its first program that is true or fails, and says which |
| `RuleSpec.AllFromStops` | internal/runtime/rule_execution_agent.go:966-997 | an all-list stops at its first program that is false or fails |
| `RuleSpec.NoneOf` | internal/runtime/rule_execution_agent.go:966-997 | an any-list finds nothing iff every program is false without error |
| `RuleSpec.AllTrue` | internal/runtime/rule_execution_agent.go:966-997 | an all-list is satisfied iff every program is true |
| `RuleSpec.FirstGroupWins` | internal/runtime/rule_execution_agent.go:611-658 | auth refuses iff no group matches; otherwise the first matching group passes its credentials through or, with explicit forwards, grants what they render to or fails |
| `RuleAgent.Agent.PrepareRuleAuth` | internal/runtime/rule_execution_agent.go:611-658 | the selection loop computes the authentication and its effect on the state |
| `RuleAgent.Agent.RenderBackendRequest` | internal/runtime/rule_execution_agent.go:458-541 | the rendered request carries the granted credentials, or rendering fails |
| `RuleAgent.Agent.EvaluateLocalVariables` | internal/runtime/rule_execution_agent.go:1112-1146 | the loop binds variables in order and keeps those bound before an error |
| `RuleAgent.Agent.EvaluateExports` | internal/runtime/rule_execution_agent.go:1197-1245 | all exports or, on one error, none |
| `RuleAgent.Agent.FinishRule` | internal/runtime/rule_execution_agent.go:180-196 | the outcome is recorded before exports are evaluated and written |
| `RuleAgent.Agent.RuleCacheKey` | internal/runtime/rule_execution_agent.go:315-340 | the key from base key, name, canonical request hash and, if strict, the variables hash |
| `RuleAgent.Agent.LookupRuleCache` | internal/runtime/rule_cache.go:155-181 | a hit needs the entry in the cache, readable, and unexpired at a second clock reading |
| `RuleAgent.Agent.StoreRuleEntry` | internal/runtime/rule_cache.go:184-229 | what is written, and whether the state is marked as stored |
| `RuleAgent.Agent.StoreRuleCache` | internal/runtime/rule_execution_agent.go:380-454 | the key is computed anew after the exports, and the entry stored under it |
| `RuleAgent.Agent.RestoreFromCache` | internal/runtime/rule_cache.go:232-253 | what a hit restores into the state |
| `RuleAgent.Agent.ExecuteBackend` | internal/runtime/backend_interaction_agent.go:40-176 | the conversation and what it leaves in the backend state |
| `RuleAgent.Agent.JudgeRule` | internal/runtime/rule_execution_agent.go:260-305 | local variables and conditions give the judged verdict |
| `RuleAgent.Agent.EvaluateRule` | internal/runtime/rule_execution_agent.go:211-306 | the object computes exactly the specified evaluation: state, cache, clock, backend requests, verdict |
| `MemoryCache.MemoryCache.Lookup` | internal/runtime/cache/memory.go:24-36 | returns a private copy of the unexpired entry and deletes an expired one; under a clock that has not run backwards it is the latest store that is neither purged nor expired |
| `MemoryCache.MemoryCache.Store` | internal/runtime/cache/memory.go:38-49 | keeps a private copy, with missing or inverted times filled in |
| `MemoryCache.MemoryCache.DeletePrefix` | internal/runtime/cache/memory.go:51-63 | removes exactly the keys with the prefix; an empty prefix removes nothing |
| `MemoryCache.CloneEntry` | internal/runtime/cache/memory.go:82-96 | an equal entry whose header map is fresh |
| `MemoryCache.HeldIsLatest` | internal/runtime/cache/memory.go:24-63 | what is held is the latest unpurged store, and a latest store that is not held has expired |
| `MemoryCache.LookupReturnsLatest` | internal/runtime/cache/memory.go:24-63 | for any history under a clock that does not run backwards, Lookup returns the latest store that is neither purged nor expired |
| `MemoryCache.EagerDeletionIsUnobservable` | internal/runtime/cache/memory.go:24-36 | deleting on lookup never shows in a later lookup |
| `CacheKeys.KeyInjective` | internal/runtime/rule_cache.go:36-54 | under one prefix, equal keys have equal digest, rule name and hashes |
| `CacheKeys.KeyHasPrefix` | internal/runtime/runtime.go:532-543 | every key starts with namespace:epoch: |
| `CacheKeys.PurgeKeepsOtherEpochs` | internal/runtime/runtime.go:703-704 | purging one epoch never covers a key of another |
| `CacheKeys.PurgeCoversIff` | internal/runtime/runtime.go:703-704 | a purge covers a key iff namespace and epoch are the same or the key's namespace starts with the purged prefix |
| `CacheKeys.PurgeIsExact` | internal/runtime/runtime.go:703-704 | a key whose namespace holds no colon is covered iff namespace and epoch are the same |
| `CacheKeys.PrefixInjective` | internal/runtime/runtime.go:703 | a prefix determines its namespace and epoch |
| `CacheKeys.NestedNamespaceIsPurged` | internal/runtime/runtime.go:703-704 | every namespace nested under the purged namespace and epoch is covered |
| `Descriptor.CanonicalText` | internal/runtime/cache/descriptor.go:30-71 | the loops write the canonical text of method, URL, kept headers in sorted order and body, in any map order |
| `Descriptor.LowerAll` | internal/runtime/cache/descriptor.go:33-37 | a name is excluded iff some excluded name equals it ignoring case |
| `Descriptor.CollectKeys` | internal/runtime/cache/descriptor.go:48-57 | exactly the keys that are not excluded, each once |
| `Descriptor.CanonicalInjective` | internal/runtime/cache/descriptor.go:30-71 | texts of requests without separators are equal only for equal method, URL, kept headers and body |
| `Descriptor.ShareTextIff` | internal/runtime/cache/descriptor.go:30-71 | requests without separators share a text iff they have the same method, URL and body and differ at most in excluded headers |
| `Descriptor.LeftOutIff` | internal/runtime/rule_cache.go:61-130 | exactly the tracing names, the correlation header and, when switched off, the proxy names are excluded, ignoring case |
| `Descriptor.PipeInMethodCollides` | internal/runtime/cache/descriptor.go:39-41 | for any names and values, a pipe in the method shares the text of a clean request |
| `Descriptor.PipeInUrlCollides` | internal/runtime/cache/descriptor.go:43-45 | so does a pipe in the URL |
| `Descriptor.PipeInBodyCollides` | internal/runtime/cache/descriptor.go:65-68 | and one in the body |
| `Descriptor.PipeInValueCollides` | internal/runtime/cache/descriptor.go:58-64 | and one in a header value, which can spell another field |
| `Descriptor.ColonInNameCollides` | internal/runtime/cache/descriptor.go:58-64 | and a colon in a header name |
| `Variables.WriteVariables` | internal/runtime/cache/descriptor.go:96-142 | the loops write the text of the variables: rules and variables in sorted order, whatever the map order |
| `Variables.WriteRule` | internal/runtime/cache/descriptor.go:112-139 | the inner loop writes the assignments of one rule |
| `Variables.Members` | internal/runtime/cache/descriptor.go:96-142 | the assignments written are exactly the variables |
| `Variables.TextTellsIff` | internal/runtime/cache/descriptor.go:96-142 | for exports whose names hold no equals sign, the text tells all non-empty variables over them apart iff no two exports have the same dotted name |
| `Variables.TextInjective` | internal/runtime/cache/descriptor.go:96-142 | then equal texts come from equal variables |
| `Variables.BlockSplit` | internal/runtime/cache/descriptor.go:105-140 | the text is the block of one rule between texts that do not depend on its variables |
| `Variables.NewRuleShows` | internal/runtime/cache/descriptor.go:105-140 | whatever the names, variables of a rule that had none change the text |
| `Variables.ChangedRuleShows` | internal/runtime/cache/descriptor.go:112-139 | readable variables that replace others of the same rule change the text |
| `Variables.DotsCollide` | internal/runtime/cache/descriptor.go:121-124 | for any names, a dot moved from the variable to the rule keeps the text |
| `CacheControl.ParseCacheControl` | internal/runtime/cache/cache_control.go:32-86 | the loop computes the declarative reading: a flag iff some trimmed part is its name ignoring case, the last valid age |
| `CacheControl.ForbiddenAnywhere` | internal/runtime/cache/cache_control.go:90-95 | no-store, no-cache or private added anywhere forces lifetime 0 |
| `CacheControl.ReorderingIsHarmless` | internal/runtime/cache/cache_control.go:32-86 | reordering changes nothing when the valid values of each age directive agree |
| `CacheControl.ConflictShowsInOrder` | internal/runtime/cache/cache_control.go:32-86 | otherwise some reordering changes the reading |
| `CacheControl.ReorderingMattersIff` | internal/runtime/cache/cache_control.go:32-111 | some reordering changes the lifetime iff nothing forbids caching and the deciding age directive has values for different lifetimes |
| `CacheControl.ExactSeconds` | internal/runtime/cache/cache_control.go:90-111 | seconds times nanoseconds is exact iff at most 9223372036 |
| `CacheControl.AtoiNeedsDigits` | internal/runtime/cache/cache_control.go:53-62 | a value with any character but digits after a sign is no number |
| `CacheControl.AtoiReadsDecimal` | internal/runtime/cache/cache_control.go:53-62 | a printed 64-bit number reads back, with or without a sign |
| `Ttl.EffectiveIsMinimum` | internal/runtime/cache/ttl.go:77-140 | positive iff the source is and the outcome is no error, and then the minimum of the source and all positive ceilings |
| `Ttl.EffectiveByText` | internal/runtime/cache/ttl.go:77-140 | a followed header with a part that forbids caching gives 0; else its last valid s-maxage or max-age, cut down by the positive ceilings; where it is not followed, absent or silent, the text configured for the outcome, cut down likewise |
| `Ttl.SourceByText` | internal/runtime/cache/ttl.go:92-115 | the same for the lifetime before ceilings |
| `Ttl.ChosenIsAge` | internal/runtime/cache/cache_control.go:32-111 | the age that counts is the last part that spells s-maxage with a valid value, or without one max-age |
| `Ttl.FollowedAgeIsExact` | internal/runtime/cache/ttl.go:77-122 | a followed age up to 9223372036 seconds is the source lifetime, unwrapped |
| `Forwarded.NormalisingIsIdempotent` | internal/runtime/admission/agent.go:532-601 | an accepted header's normal form is accepted, has the same hops and is its own normal form |
| `ProxyChain.ForwardedNames` | internal/runtime/admission/agent.go:532-577 | a header is accepted iff it has an element, every element has a `for` pair and every `for` value names an address; its hops are those addresses, all of them, in order |
| `ProxyChain.WrittenReads` | internal/runtime/admission/agent.go:532-577 | what a header says is what was written: names in any case, blanks anywhere around names and values, any other pairs, any number of pairs and elements |
| `ProxyChain.HeadersAgree` | internal/runtime/admission/agent.go:532-618 | `for=v1, for=v2` and the list `v1, v2` name the same chain, or neither names one |
| `ProxyChain.ForwardedForNames` | internal/runtime/admission/agent.go:603-618 | a list is accepted iff every entry that is not blank is an address; its hops are those, in order |
| `ProxyChain.ForwardedFault` | internal/runtime/admission/agent.go:532-601 | the error of a header that is not accepted: it has no element, or the first fault of its first faulty element (an empty, obfuscated or unreadable `for` value, or no `for`) |
| `ProxyChain.RewritingKeepsPairs` | internal/runtime/admission/agent.go:545-577 | the rewritten text has the same elements and pairs in order; only quotes of `for` values may be new |
| `Forwarded.FragmentStable` | internal/runtime/admission/agent.go:545-570 | a reprinted name=value pair reads back as itself |
| `Forwarded.ForValueStable` | internal/runtime/admission/agent.go:579-601 | a reprinted `for` value reads back to the same address and text |
| `Forwarded.ParseElement` | internal/runtime/admission/agent.go:541-571 | the inner loop computes the reading of one element |
| `Forwarded.ParseForwarded` | internal/runtime/admission/agent.go:532-577 | the loops compute the reading of the header that `ProxyChain.ForwardedNames` pins, with the same errors |
| `Forwarded.ParseForwardedChain` | internal/runtime/admission/agent.go:603-618 | the loop computes the list of hops |
| `Forwarded.ForwardedForRoundTrip` | internal/runtime/admission/agent.go:603-644 | an accepted list, reprinted, names the same hops |
| `Admission.Agent.StripForwardedHeaders` | internal/runtime/admission/agent.go:281-288 | exactly the forwarding headers are removed, in any map order |
| `Admission.TrustIffBelievable` | internal/runtime/admission/agent.go:92-150 | the proxy is trusted iff the request is believable (trusted peer, trusted later hops, one chain, as the pairs of both headers spell it), then the client is the first hop and the headers are rewritten to text that reads back and keeps the other pairs; a refusal has its grounds, and any other authenticated run shows no chain, with the exact condition for later header values |
| `Admission.RefusedOnGrounds` | internal/runtime/admission/agent.go:106-132 | a refusal names what is the case: no peer address, no one chain (a mismatch iff both headers name different ones), an untrusted hop or an untrusted peer |
| `Admission.StateTellsHeaders` | internal/runtime/admission/agent.go:193-255 | unless the request is refused, what the rest of the pipeline is told of the two headers is what they now say |
| `Admission.AuthenticatedIff` | internal/runtime/admission/agent.go:104-149 | a request is authenticated iff its forwarding headers do not stop it and it carries a credential of an allowed kind or needs none; it is challenged iff only the credential is missing; exactly the credentials carried are handed on |
| `Admission.HeadersAreRead` | internal/runtime/admission/agent.go:210-255 | reading succeeds iff the headers name one chain, and then both are rewritten to it |
| `Admission.Agent.PrepareForwardedMetadata` | internal/runtime/admission/agent.go:210-255 | the method leaves the headers and state that reading them specifies, with the same errors |
| `Admission.Agent.HandleUntrustedProxy` | internal/runtime/admission/agent.go:193-208 | development strips and goes on, otherwise the request is refused |
| `Admission.Agent.CheckProxy` | internal/runtime/admission/agent.go:106-132 | the method computes the specified trust decision |
| `Admission.HeadersAreChecked` | internal/runtime/admission/agent.go:106-132 | the decision on non-blank headers: trusted and rewritten iff believable, otherwise stripped in development and refused elsewhere |
| `Admission.Agent.CollectCredentials` | internal/runtime/admission/agent.go:134-149 | authenticated iff a credential was found or none is required |
| `Admission.Agent.Execute` | internal/runtime/admission/agent.go:92-150 | the method computes the specified admission: headers, trust, client, refusal and credentials |
| `Admission.TrustDecides` | internal/runtime/admission/agent.go:257-279 | a request that names a chain is believable iff the peer and every hop after the first are trusted |
| `Admission.OneChain` | internal/runtime/admission/agent.go:241-246 | the headers name at most one chain |
| `Admission.LaterValuesEscape` | internal/runtime/admission/agent.go:97-98 | an authenticated run hands on a chain that is hidden in a later header value |
| `Credentials.BasicRoundTrip` | internal/runtime/admission/agent.go:406-434 | an encoded pair decodes to itself iff the user has no ':' |
| `Credentials.CollectedOnce` | internal/runtime/admission/agent.go:341-404 | a collected Basic user has no colon, excludes a bearer token, and is what the Authorization header reads as |
| `Credentials.CollectedIff` | internal/runtime/admission/agent.go:341-404 | a credential is collected iff its kind is allowed and the request carries it |
| `Credentials.AuthorizationSplits` | internal/runtime/admission/agent.go:406-418 | the scheme is the text before the first blank of the Authorization header, the parameter what follows |
| `RuleAuth.ExtractCredentials` | internal/runtime/rule_execution_agent.go:661-682 | the loop computes the last credential of each kind |
| `RuleAuth.Select` | internal/runtime/rule_execution_agent.go:611-658 | the first directive all of whose matchers hold |
| `RuleAuth.BuildPassThroughForwards` | internal/runtime/rule_execution_agent.go:817-859 | the loop forwards what the matchers matched |
| `RuleAuth.ApplyAuthForwards` | internal/runtime/rule_execution_agent.go:543-580 | the loop writes all forwards or fails |
| `RuleAuth.ApplyWritesLast` | internal/runtime/rule_execution_agent.go:543-580 | each header and query entry is the last one written to it, or as before; applying succeeds iff every forward is applicable |
| `RuleAuth.BasicPassesThrough` | internal/runtime/rule_execution_agent.go:817-859 | a Basic credential passed through reads back from the backend's Authorization header as the same pair, whatever else the group forwards; it succeeds exactly when neither part is empty and the other forwards have names |
| `Delivery.MatchesIff` | internal/runtime/rule_execution_agent.go:685-753 | a matcher holds iff the last credential of its kind and name passes its tests |
| `Delivery.ExtractHolds` | internal/runtime/rule_execution_agent.go:661-682 | of the credentials of one kind and name the last one counts |
| `Delivery.CredentialsPassThrough` | internal/runtime/rule_execution_agent.go:817-859 | pass-through succeeds iff every credential the group takes can be written, and then each bearer, Basic, header and query credential reads back as it was sent |
| `Delivery.CredentialsReachBackend` | internal/runtime/backend_interaction_agent.go:90-112 | the first request the backend gets delivers each of them |
| `Delivery.ExplicitForwardsArrive` | internal/runtime/rule_execution_agent.go:862-941 | explicit forwards render iff each is effective; then every header and parameter stands for what the last forward to write it wrote, and all others stay |
| `Delivery.ExplicitForwardsReachBackend` | internal/runtime/backend_interaction_agent.go:90-112 | and the first request the backend gets is built from that |
| `Chains.ServedCredentialsArrive` | internal/runtime/rule_execution_agent.go:93-177 | for every rule of a served request: the first request its backend gets delivers each credential its group takes of those admission read from the client's request |
| `ForwardOrder.ValidateForwardAsArray` | internal/config/types.go:487-523 | accepts iff every forward is of a known type and their targets differ |
| `ForwardOrder.KnownAndDistinct` | internal/config/types.go:490-504 | the loop with its seen set decides that |
| `ForwardOrder.OrderMattersIff` | internal/runtime/rule_execution_agent.go:543-580 | some reordering of any list changes what it does iff all of it renders and two forwards write one header or parameter with different values |
| `ForwardOrder.ValidatedOrderMattersIff` | internal/config/types.go:487-523 | for a validated list with literal names: iff all of it renders and a bearer or basic forward and a header forward named Authorization write different values |
| `ForwardOrder.OrderDoesNotMatter` | internal/runtime/rule_execution_agent.go:543-580 | a validated list with literal names and no header forward to authorization gives the same result in any order |
| `ForwardOrder.HeaderCanShadowBearer` | internal/config/types.go:509-523 | a pair that validation accepts and whose order matters |
| `Aggregator.Table.Add` | internal/config/rules_loader.go:85-113 | the first definition is live, a second quarantines both, later ones add their source |
| `Aggregator.Table.RecordSkip` | internal/config/rules_loader.go:115-161 | a skip keeps its first reason and collects each named source once |
| `Aggregator.Table.Reject` | internal/config/rules_loader.go:73-83 | a rejected definition is no longer live and is skipped with its source |
| `Aggregator.Table.RejectWhere` | internal/config/rules_loader.go:163-189 | exactly the objectionable live definitions are quarantined, in any map order |
| `Aggregator.Table.AddAll` | internal/config/rules_loader.go:61-71 | every definition of a document is added, in any map order |
| `Aggregator.FoldedReads` | internal/config/rules_loader.go:61-135 | after any list of documents a name is live iff exactly one document defines it, and otherwise skipped with the set of its sources |
| `Aggregator.RuleErrorIff` | internal/config/rules_loader.go:268-296 | validation objects iff some condition does not compile |
| `Aggregator.RuleErrorIs` | internal/config/rules_loader.go:268-296 | and then names the least index that does not compile and its error, in the pass list, or else the fail list, or else the error list |
| `Aggregator.MissingIff` | internal/config/rules_loader.go:163-189 | the missing references are exactly the non-empty ones that are not live, sorted |
| `Aggregator.RuleAggregator.AddDocument` | internal/config/rules_loader.go:61-71 | the tables hold the fold over one more document |
| `Aggregator.RuleAggregator.ValidateRuleExpressions` | internal/config/rules_loader.go:73-83 | every rule slot is final |
| `Aggregator.RuleAggregator.PruneInvalidEndpoints` | internal/config/rules_loader.go:163-189 | every endpoint slot is final |
| `Aggregator.RuleAggregator.MakeBundle` | internal/config/rules_loader.go:191-224 | the bundle of final tables is the declarative one |
| `Aggregator.BuildRuleBundle` | internal/config/rules_loader.go:238-266 | the bundle equals the declarative definition on the unordered collection of documents |
| `Aggregator.BundleIsUnique` | internal/config/rules_loader.go:191-224 | there is only one such bundle, so no order shows in it |
| `Links.NextLinkFromHeader` | internal/runtime/rulechain/backend.go:282-320 | the nested loops compute the first target of all parts |
| `Links.MarkerIffNext` | internal/runtime/rulechain/backend.go:290-292 | the marker occurs in a printed link iff its relation is `next` |
| `Links.TargetIff` | internal/runtime/rulechain/backend.go:286-318 | any comma part offers a page iff it holds the marker and, in its first angle brackets, a reference that is not blank and resolves to it |
| `Links.LinkRoundTrip` | internal/runtime/rulechain/backend.go:282-320 | of any number of header values, each a printed list of links with or without a blank after its commas, the next page is the first link over all of them whose relation is `next` and that resolves, or none |
| `Pagination.FetchCounts` | internal/runtime/backend_interaction_agent.go:45-176 | at most the page limit of requests, one per exchange unless the last failed |
| `Pagination.FetchChained` | internal/runtime/backend_interaction_agent.go:53-70 | each page is the next link of the page before, and no link is followed twice |
| `Pagination.FetchComplete` | internal/runtime/backend_interaction_agent.go:53-70 | a conversation that does not fail stops only at the limit, without a link, or at a link already followed |
| `Pagination.PaginationIsSafe` | internal/runtime/backend_interaction_agent.go:45-176 | at most the page limit of requests; each is the rendered method and URL with the query, the non-blank headers and the body with the first page and neither with any other; each later page is the next link of the page before, and none is followed twice |
| `Pagination.PaginationEnds` | internal/runtime/backend_interaction_agent.go:45-176 | it ends at the limit, without a link or at one already followed, and fails iff a link cannot be parsed or a request is not answered |
| `Pagination.ConclusionHolds` | internal/runtime/backend_interaction_agent.go:112-176 | the final state holds every page in order and is that of the last; after a failure it is the prior one, in which only Accepted may have changed |
| `Pagination.FetchSends` | internal/runtime/backend_interaction_agent.go:60-112 | every request of a conversation is the one its link comes to |
| `Pagination.Follow` | internal/runtime/backend_interaction_agent.go:60-150 | one page: what parsing, sending and reading the link comes to |
| `Pagination.Turn` | internal/runtime/backend_interaction_agent.go:53-155 | one turn keeps: what was answered followed by the rest is the whole conversation |
| `Pagination.Converse` | internal/runtime/backend_interaction_agent.go:45-160 | the loop computes the conversation |
| `Text.SplitJoinSpells` | internal/runtime/admission/agent.go:532-577 | a list printed with a separator and a blank reads back as its items |
| `Text.SplitJoinExact` | internal/runtime/rule_cache.go:36-54 | with a bare separator splitting inverts joining |
| `Order.SortedIsUnique` | internal/config/rules_loader.go:191-224 | two sorted lists with the same contents are equal, so sorting hides map order |

## Left out

- Redis cache: a client wrapper whose prefix deletion does nothing; reload freshness is for the memory cache only.
- The resultcaching agent: not part of the endpoint pipelines.
- Requests that overlap a reload or one another: a run is a sequence of whole steps, so a request in flight that stores
  after the purge, and interleaved chains, are not modelled.
- Locks of the memory cache and of the pipeline: a step is atomic.
- CEL, templates, regular expressions, HTTP, URL parsing, JSON, base64, hashing, address and duration parsing: arbitrary
  functions, with the assumptions named above.
- A variable whose value cannot be encoded as JSON is written to the variables text as nothing; the model takes
  variable values to be JSON text already.
- Variables.TextTellsIff: says nothing of exports whose names hold an equals sign.
- Delivery.CredentialsPassThrough: a header credential that is itself named Authorization is claimed to arrive unchanged
  only where no Basic or bearer credential is passed beside it; otherwise that one is read back from the header.
- Ttl.EffectiveByText: the grammar of duration texts is the duration parser's.
- Exported variables of a hit: exports are evaluated again against a reset backend state, as the code does, so only the
  outcome and reason of a hit are claimed to be those of the fresh evaluation.
- The rendered query is part of the request sent but, as in the code, not of the cached request text.
- The wording of reasons: causes are structured values and a function turns them into text.
- Non-ASCII white space and case folding: `Text.Trim` and `Text.ToLower` are the ASCII cases.
- Header names are compared in the canonical form the HTTP library gives them; the model writes that form in lower case
  for request headers.
- Rendered header names that differ only in case are separate entries of the rendered map, as in the code; which of them
  the HTTP library then sends is not modelled.
- The base key reads allowed header and parameter names as configured; the model takes them to be trimmed, as admission
  does.
- collectCredentials, extractCredential, checkAllMatchers and evaluateProgramList are functions on values rather than loops.
- Aggregator.RuleAggregator.MakeBundle: skipped endpoints and skipped rules are each sorted by name and concatenated,
  which is the order the original's single comparison by kind and then name gives.
- What programs see of the client address, proxy trust, forwarded request and endpoint variables is one opaque part of
  the request.
- Choosing the endpoint of a request, response bodies and headers, endpoint variables, the forward policy, the
  challenge header, metrics, logging, health and explain output: no hard property.
- File watching, loading and parsing of configuration, environment and secrets: input and output.
