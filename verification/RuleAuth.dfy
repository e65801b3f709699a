/** Matching a request's credentials against a rule's match groups, and forwarding them to the backend. */
module RuleAuth {
  import opened Wrappers
  import opened Text
  import opened Credentials
  import opened State

  /** A rendered template, or an error; a literal is a constant template. */
  type Template = View -> Option<string>

  type ValueMatcher = string -> bool

  datatype Matcher =
    | OnBearer(values: seq<ValueMatcher>)
    | OnBasic(users: seq<ValueMatcher>, passwords: seq<ValueMatcher>)
    | OnHeader(matchName: string, values: seq<ValueMatcher>)
    | OnQuery(name: string, values: seq<ValueMatcher>)
    | Always
  {
    function Kind(): string {
      match this
      case OnBearer(_) => "bearer"
      case OnBasic(_, _) => "basic"
      case OnHeader(_, _) => "header"
      case OnQuery(_, _) => "query"
      case Always => "none"
    }
  }

  datatype ForwardConfig = ForwardConfig(
    kind: string, name: string, nameTemplate: Option<Template>,
    value: Template, token: Template, user: Template, password: Template)

  /** One match group: all matchers must hold; without forwards the matched credentials pass through. */
  datatype Directive = Directive(matchers: seq<Matcher>, forwards: seq<ForwardConfig>)

  // ---- Sorting credentials by kind ----

  function ExtractOne(e: Extracted, c: Credential): Extracted {
    match c
    case Bearer(token) => e.(bearer := Some(token))
    case Basic(user, password) => e.(basic := Some((user, password)))
    case Header(name, value) => e.(headers := e.headers[ToLower(name) := (name, value)])
    case Query(name, value) => e.(query := e.query[name := value])
    case Anonymous => e
  }

  const NOTHING := Extracted(None, None, map[], map[])

  function Extract(creds: seq<Credential>): Extracted {
    if creds == [] then NOTHING else ExtractOne(Extract(creds[..|creds| - 1]), creds[|creds| - 1])
  }

  method ExtractCredentials(creds: seq<Credential>) returns (e: Extracted)
    ensures e == Extract(creds)
  {
    e := NOTHING;
    for i := 0 to |creds|
      invariant e == Extract(creds[..i])
    {
      assert creds[..i + 1][..i] == creds[..i];
      e := ExtractOne(e, creds[i]);
    }
    assert creds[..|creds|] == creds;
  }

  // ---- Matching ----

  predicate MatchesAny(input: string, matchers: seq<ValueMatcher>) {
    |matchers| == 0 || exists i | 0 <= i < |matchers| :: matchers[i](input)
  }

  predicate Matches(m: Matcher, e: Extracted) {
    match m
    case OnBearer(values) => e.bearer.Some? && MatchesAny(e.bearer.value, values)
    case OnBasic(users, passwords) =>
      e.basic.Some? && MatchesAny(e.basic.value.0, users) && MatchesAny(e.basic.value.1, passwords)
    case OnHeader(name, values) => name in e.headers && MatchesAny(e.headers[name].1, values)
    case OnQuery(name, values) => name in e.query && MatchesAny(e.query[name], values)
    case Always => true
  }

  predicate MatchesAll(matchers: seq<Matcher>, e: Extracted) {
    forall i | 0 <= i < |matchers| :: Matches(matchers[i], e)
  }

  /** The first group all of whose matchers hold. */
  function Select(directives: seq<Directive>, e: Extracted): (i: nat)
    ensures i <= |directives|
    ensures i < |directives| ==> MatchesAll(directives[i].matchers, e)
    ensures forall j | 0 <= j < i :: !MatchesAll(directives[j].matchers, e)
  {
    if directives == [] || MatchesAll(directives[0].matchers, e) then 0
    else
      var i := 1 + Select(directives[1..], e);
      assert forall j | 1 <= j < i :: directives[j] == directives[1..][j - 1];
      i
  }

  // ---- Building forwards ----

  function PassThroughOne(m: Matcher, e: Extracted): seq<Forward> {
    match m
    case OnBearer(_) => if e.bearer.Some? then [BearerForward(e.bearer.value)] else []
    case OnBasic(_, _) => if e.basic.Some? then [BasicForward(e.basic.value.0, e.basic.value.1)] else []
    case OnHeader(name, _) => if name in e.headers then [HeaderForward(e.headers[name].0, e.headers[name].1)] else []
    case OnQuery(name, _) => if name in e.query then [QueryForward(name, e.query[name])] else []
    case Always => []
  }

  function PassThrough(matchers: seq<Matcher>, e: Extracted): seq<Forward> {
    if matchers == [] then []
    else PassThrough(matchers[..|matchers| - 1], e) + PassThroughOne(matchers[|matchers| - 1], e)
  }

  method BuildPassThroughForwards(matchers: seq<Matcher>, e: Extracted) returns (forwards: seq<Forward>)
    ensures forwards == PassThrough(matchers, e)
  {
    forwards := [];
    for i := 0 to |matchers|
      invariant forwards == PassThrough(matchers[..i], e)
    {
      assert matchers[..i + 1][..i] == matchers[..i];
      forwards := forwards + PassThroughOne(matchers[i], e);
    }
    assert matchers[..|matchers|] == matchers;
  }

  function TrimResult(t: Option<string>): Option<string> {
    match t case None => None case Some(s) => Some(Trim(s))
  }

  function KindOf(c: ForwardConfig): string { ToLower(Trim(c.kind)) }

  function RenderedName(c: ForwardConfig, v: View): Option<string> {
    match c.nameTemplate
    case None => Some(Trim(c.name))
    case Some(t) => TrimResult(t(v))
  }

  /** One explicit forward, rendered; None is any of the source's errors. */
  function RenderForward(c: ForwardConfig, v: View): Option<Forward> {
    var kind := KindOf(c);
    if kind == "" || kind == "none" then Some(NoForward)
    else if kind == "basic" then
      var user, password := TrimResult(c.user(v)), TrimResult(c.password(v));
      if user.None? || password.None? || user.value == "" || password.value == "" then None
      else Some(BasicForward(user.value, password.value))
    else if kind == "bearer" then
      var token := TrimResult(c.token(v));
      if token.None? || token.value == "" then None else Some(BearerForward(token.value))
    else if kind == "header" then
      var name, value := RenderedName(c, v), TrimResult(c.value(v));
      if name.None? || value.None? || name.value == "" || value.value == "" then None
      else Some(HeaderForward(name.value, value.value))
    else if kind == "query" then
      var name, value := RenderedName(c, v), TrimResult(c.value(v));
      if name.None? || value.None? || name.value == "" then None else Some(QueryForward(name.value, value.value))
    else None
  }

  function RenderForwards(configs: seq<ForwardConfig>, v: View): Option<seq<Forward>> {
    if configs == [] then Some([])
    else
      match (RenderForward(configs[0], v), RenderForwards(configs[1..], v))
      case (Some(f), Some(fs)) => Some([f] + fs)
      case _ => None
  }

  // ---- Applying forwards to the backend request ----

  datatype Target = Target(headers: map<string, string>, query: map<string, string>)

  predicate Applicable(f: Forward) {
    match f
    case NoForward => true
    case BasicForward(user, password) => user != "" && password != ""
    case BearerForward(token) => token != ""
    case HeaderForward(name, _) => name != ""
    case QueryForward(name, _) => name != ""
  }

  /** The header a forward sets, if any. */
  function HeaderSet(encode: string -> string, f: Forward): Option<(string, string)> {
    match f
    case BasicForward(user, password) => Some(("Authorization", EncodeBasic(encode, user, password)))
    case BearerForward(token) => Some(("Authorization", "Bearer " + token))
    case HeaderForward(name, value) => Some((name, value))
    case _ => None
  }

  function QuerySet(f: Forward): Option<(string, string)> {
    match f case QueryForward(name, value) => Some((name, value)) case _ => None
  }

  function Put(m: map<string, string>, kv: Option<(string, string)>): map<string, string> {
    match kv case None => m case Some((k, v)) => m[k := v]
  }

  function ApplyOne(encode: string -> string, t: Target, f: Forward): Target {
    Target(Put(t.headers, HeaderSet(encode, f)), Put(t.query, QuerySet(f)))
  }

  function Apply(encode: string -> string, fs: seq<Forward>, t: Target): Option<Target> {
    if fs == [] then Some(t)
    else if !Applicable(fs[0]) then None
    else Apply(encode, fs[1..], ApplyOne(encode, t, fs[0]))
  }

  method ApplyAuthForwards(encode: string -> string, fs: seq<Forward>, start: Target) returns (r: Option<Target>)
    ensures r == Apply(encode, fs, start)
  {
    var t := start;
    assert fs[0..] == fs;
    for i := 0 to |fs|
      invariant Apply(encode, fs, start) == Apply(encode, fs[i..], t)
    {
      assert fs[i..][1..] == fs[i + 1..];
      if !Applicable(fs[i]) {
        return None;
      }
      t := ApplyOne(encode, t, fs[i]);
    }
    return Some(t);
  }

  /** What a forward writes to one of the two maps: a name and a value. */
  type Writer = Forward -> Option<(string, string)>

  function HeaderWriter(encode: string -> string): Writer { f => HeaderSet(encode, f) }

  function QueryWriter(): Writer { f => QuerySet(f) }

  /** The last value written to a name, if any forward writes it. */
  function LastWrite(write: Writer, fs: seq<Forward>, k: string): Option<string> {
    if fs == [] then None
    else
      var later := LastWrite(write, fs[1..], k);
      if later.Some? then later
      else match write(fs[0]) case None => None case Some((n, v)) => if n == k then Some(v) else None
  }

  function ValueAt(m: map<string, string>, k: string): Option<string> { if k in m then Some(m[k]) else None }

  function Or(a: Option<string>, b: Option<string>): Option<string> { if a.Some? then a else b }

  /** Applying succeeds iff every forward is applicable, and then each name holds the last value written to it. */
  lemma {:induction false} ApplyWritesLast(encode: string -> string, fs: seq<Forward>, t: Target)
    ensures Apply(encode, fs, t).Some? <==> forall f | f in fs :: Applicable(f)
    ensures Apply(encode, fs, t).Some? ==> var r := Apply(encode, fs, t).value;
      forall k :: ValueAt(r.headers, k) == Or(LastWrite(HeaderWriter(encode), fs, k), ValueAt(t.headers, k))
                  && ValueAt(r.query, k) == Or(LastWrite(QueryWriter(), fs, k), ValueAt(t.query, k))
    decreases fs
  {
    if fs != [] {
      ApplyWritesLast(encode, fs[1..], ApplyOne(encode, t, fs[0]));
      assert fs == [fs[0]] + fs[1..];
    }
  }

  /** The Authorization header of a backend request is this Basic credential. */
  predicate ReadsBackAs(decode: string -> Option<string>, headers: map<string, string>, user: string,
                        password: string) {
    "Authorization" in headers && Reads(decode, headers["Authorization"], user, password)
  }

  /** What is written last was written by one of the forwards. */
  lemma {:induction false} LastIsWritten(write: Writer, fs: seq<Forward>, k: string)
    ensures LastWrite(write, fs, k).Some? ==>
      exists f :: f in fs && write(f) == Some((k, LastWrite(write, fs, k).value))
    ensures LastWrite(write, fs, k).None? ==> forall f, v | f in fs :: write(f) != Some((k, v))
  {
    if fs != [] {
      LastIsWritten(write, fs[1..], k);
      assert fs == [fs[0]] + fs[1..];
    }
  }

  /** A write at the end is the last one. */
  lemma {:induction false} EndIsLast(write: Writer, fs: seq<Forward>, f: Forward, k: string, v: string)
    requires write(f) == Some((k, v))
    ensures LastWrite(write, fs + [f], k) == Some(v)
  {
    if fs == [] {
      assert fs + [f] == [f];
    } else {
      EndIsLast(write, fs[1..], f, k, v);
      assert (fs + [f])[1..] == fs[1..] + [f];
    }
  }

  lemma {:induction false} ExtractedWasSent(creds: seq<Credential>)
    ensures Extract(creds).basic.Some? ==> Basic(Extract(creds).basic.value.0, Extract(creds).basic.value.1) in creds
    ensures Extract(creds).bearer.Some? ==> Bearer(Extract(creds).bearer.value) in creds
  {
    if creds != [] {
      ExtractedWasSent(creds[..|creds| - 1]);
      assert creds == creds[..|creds| - 1] + [creds[|creds| - 1]];
    }
  }

  lemma {:induction false} HeadersWereSent(creds: seq<Credential>, k: string)
    ensures k in Extract(creds).headers ==> var (name, value) := Extract(creds).headers[k]; Header(name, value) in creds
  {
    if creds != [] {
      HeadersWereSent(creds[..|creds| - 1], k);
      assert creds == creds[..|creds| - 1] + [creds[|creds| - 1]];
    }
  }

  lemma {:induction false} PassThroughMembers(matchers: seq<Matcher>, e: Extracted, f: Forward)
    ensures f in PassThrough(matchers, e) <==> exists i | 0 <= i < |matchers| :: f in PassThroughOne(matchers[i], e)
  {
    if matchers != [] {
      var init := matchers[..|matchers| - 1];
      PassThroughMembers(init, e, f);
      if f in PassThrough(matchers, e) && f in PassThroughOne(matchers[|matchers| - 1], e) {
        assert f in PassThroughOne(matchers[|matchers| - 1], e);
      }
      assert forall i | 0 <= i < |init| :: init[i] == matchers[i];
    }
  }

  /** Every pass-through forward carries a credential that was extracted. */
  lemma PassThroughKinds(matchers: seq<Matcher>, e: Extracted, f: Forward)
    requires f in PassThrough(matchers, e)
    ensures f.BasicForward? ==> e.basic == Some((f.user, f.password))
    ensures f.BearerForward? ==> e.bearer == Some(f.token)
    ensures f.HeaderForward? ==> exists k :: k in e.headers && e.headers[k] == (f.name, f.value)
  {
    PassThroughMembers(matchers, e, f);
  }

  /** No header or query forward has an empty name. */
  predicate AllNamed(fs: seq<Forward>) {
    forall f | f in fs && (f.HeaderForward? || f.QueryForward?) :: f.name != ""
  }

  /** Whatever a forward writes to Authorization reads back as this credential. */
  ghost predicate AllReadBack(encode: string -> string, decode: string -> Option<string>, fs: seq<Forward>,
                              user: string, password: string) {
    forall f, v | f in fs && HeaderSet(encode, f) == Some(("Authorization", v)) :: Reads(decode, v, user, password)
  }

  lemma CredentialsReadBack(allow: Allow, encode: string -> string, decode: string -> Option<string>,
                            headers: Headers, query: map<string, string>, f: Forward, user: string, password: string)
    requires Base64(encode, decode) && Basic(user, password) in Collect(allow, decode, headers, query)
    requires f.HeaderForward? ==> Header(f.name, f.value) in Collect(allow, decode, headers, query)
    requires f.BasicForward? ==> f == BasicForward(user, password)
    requires !f.BearerForward? && HeaderSet(encode, f).Some? && HeaderSet(encode, f).value.0 == "Authorization"
    ensures Reads(decode, HeaderSet(encode, f).value.1, user, password)
  {
    if f.HeaderForward? {
      HeaderReads(allow, decode, headers, query, f.name, f.value, user, password);
    } else {
      CollectedOnce(allow, decode, headers, query, user, password);
      EncodedReads(encode, decode, user, password);
    }
  }

  /**
    Pass-through of a Basic credential, from the request admission read to the request the backend gets.
    It succeeds exactly for a non-empty user and password, next to named headers and parameters, and then
    the pair read back from the backend request is the pair that was sent.  Nothing can interfere: a bearer
    token, or an Authorization header forwarded by name, would come from the same Authorization header.
   */
  lemma BasicPassesThrough(allow: Allow, encode: string -> string, decode: string -> Option<string>,
                           headers: Headers, query: map<string, string>, matchers: seq<Matcher>, t: Target)
    requires Base64(encode, decode)
    requires Extract(Collect(allow, decode, headers, query)).basic.Some?
    requires exists i | 0 <= i < |matchers| :: matchers[i].OnBasic?
    ensures var e := Extract(Collect(allow, decode, headers, query)); var (user, password) := e.basic.value;
      var r := Apply(encode, PassThrough(matchers, e), t);
      && (r.Some? <==> user != "" && password != "" && AllNamed(PassThrough(matchers, e)))
      && (r.Some? ==> ReadsBackAs(decode, r.value.headers, user, password))
  {
    var creds := Collect(allow, decode, headers, query);
    var e := Extract(creds);
    ExtractedWasSent(creds);
    var (user, password) := e.basic.value;
    CollectedOnce(allow, decode, headers, query, user, password);
    var fs := PassThrough(matchers, e);
    forall f, v | f in fs && HeaderSet(encode, f) == Some(("Authorization", v))
      ensures Reads(decode, v, user, password) {
      PassThroughKinds(matchers, e, f);
      if f.HeaderForward? {
        var k :| k in e.headers && e.headers[k] == (f.name, f.value);
        HeadersWereSent(creds, k);
      }
      CredentialsReadBack(allow, encode, decode, headers, query, f, user, password);
    }
    ForwardedBasic(encode, decode, e, matchers, t);
  }

  lemma ForwardedBasic(encode: string -> string, decode: string -> Option<string>, e: Extracted, matchers: seq<Matcher>,
                       t: Target)
    requires e.basic.Some? && e.bearer.None?
    requires exists i | 0 <= i < |matchers| :: matchers[i].OnBasic?
    requires AllReadBack(encode, decode, PassThrough(matchers, e), e.basic.value.0, e.basic.value.1)
    ensures var (user, password) := e.basic.value; var r := Apply(encode, PassThrough(matchers, e), t);
      && (r.Some? <==> user != "" && password != "" && AllNamed(PassThrough(matchers, e)))
      && (r.Some? ==> ReadsBackAs(decode, r.value.headers, user, password))
  {
    var fs, basic := PassThrough(matchers, e), BasicForward(e.basic.value.0, e.basic.value.1);
    assert basic in fs by {
      PassThroughMembers(matchers, e, basic);
      var i :| 0 <= i < |matchers| && matchers[i].OnBasic?;
      assert basic in PassThroughOne(matchers[i], e);
    }
    ApplyWritesLast(encode, fs, t);
    forall f | f in fs ensures f.BasicForward? ==> f == basic
                       ensures !f.BearerForward? {
      PassThroughKinds(matchers, e, f);
    }
    if Apply(encode, fs, t).Some? {
      LastIsWritten(HeaderWriter(encode), fs, "Authorization");
      var sent := EncodeBasic(encode, basic.user, basic.password);
      assert HeaderWriter(encode)(basic) == Some(("Authorization", sent));
      var v := LastWrite(HeaderWriter(encode), fs, "Authorization").value;
      assert ValueAt(Apply(encode, fs, t).value.headers, "Authorization") == Some(v);
      assert Reads(decode, v, basic.user, basic.password);
    }
  }
}
