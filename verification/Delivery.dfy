/**
  Credentials on their way: from the request that admission read, through the match group of a rule, to the request
  that its backend gets.
 */
module Delivery {
  import opened Wrappers
  import opened Text
  import opened Credentials
  import opened State
  import opened RuleAuth
  import opened Pagination
  import opened RuleSpec

  // ---- Which credential a matcher looks at ----

  /** Of the credentials of a request that share a slot, the last one counts. */
  datatype Slot = BearerSlot | BasicSlot | HeaderSlot(lower: string) | QuerySlot(name: string) | NoSlot

  function SlotOf(c: Credential): Slot {
    match c
    case Bearer(_) => BearerSlot
    case Basic(_, _) => BasicSlot
    case Header(name, _) => HeaderSlot(ToLower(name))
    case Query(name, _) => QuerySlot(name)
    case Anonymous => NoSlot
  }

  function SlotFor(m: Matcher): Slot {
    match m
    case OnBearer(_) => BearerSlot
    case OnBasic(_, _) => BasicSlot
    case OnHeader(name, _) => HeaderSlot(name)
    case OnQuery(name, _) => QuerySlot(name)
    case Always => NoSlot
  }

  ghost predicate LastIn(creds: seq<Credential>, slot: Slot, i: int) {
    0 <= i < |creds| && SlotOf(creds[i]) == slot && forall j | i < j < |creds| :: SlotOf(creds[j]) != slot
  }

  /** The credential that the extracted ones hold in a slot. */
  function Held(e: Extracted, slot: Slot): Option<Credential> {
    match slot
    case BearerSlot => if e.bearer.Some? then Some(Bearer(e.bearer.value)) else None
    case BasicSlot => if e.basic.Some? then Some(Basic(e.basic.value.0, e.basic.value.1)) else None
    case HeaderSlot(k) => if k in e.headers then Some(Header(e.headers[k].0, e.headers[k].1)) else None
    case QuerySlot(n) => if n in e.query then Some(Query(n, e.query[n])) else None
    case NoSlot => None
  }

  lemma HeldStep(e: Extracted, c: Credential, slot: Slot)
    requires slot != NoSlot
    ensures Held(ExtractOne(e, c), slot) == if SlotOf(c) == slot then Some(c) else Held(e, slot)
  {
  }

  lemma {:induction false} ExtractHolds(creds: seq<Credential>, slot: Slot)
    requires slot != NoSlot
    ensures match Held(Extract(creds), slot)
      case None => forall i | 0 <= i < |creds| :: SlotOf(creds[i]) != slot
      case Some(c) => exists i :: LastIn(creds, slot, i) && c == creds[i]
  {
    if creds != [] {
      var init, last := creds[..|creds| - 1], creds[|creds| - 1];
      ExtractHolds(init, slot);
      HeldStep(Extract(init), last, slot);
      if SlotOf(last) == slot {
        assert LastIn(creds, slot, |creds| - 1);
      } else if Held(Extract(init), slot).Some? {
        var i :| LastIn(init, slot, i) && Held(Extract(init), slot).value == init[i];
        assert LastIn(creds, slot, i) && creds[i] == init[i];
      }
    }
  }

  ghost predicate AnyHolds(input: string, tests: seq<ValueMatcher>) { tests == [] || exists f | f in tests :: f(input) }

  /** A credential of the matcher's kind whose parts pass the matcher's tests. */
  ghost predicate Fits(m: Matcher, c: Credential) {
    match m
    case OnBearer(values) => c.Bearer? && AnyHolds(c.token, values)
    case OnBasic(users, passwords) => c.Basic? && AnyHolds(c.user, users) && AnyHolds(c.password, passwords)
    case OnHeader(name, values) => c.Header? && ToLower(c.name) == name && AnyHolds(c.value, values)
    case OnQuery(name, values) => c.Query? && c.name == name && AnyHolds(c.value, values)
    case Always => true
  }

  lemma AnyHoldsIff(input: string, tests: seq<ValueMatcher>)
    ensures MatchesAny(input, tests) <==> AnyHolds(input, tests)
  {
    if MatchesAny(input, tests) && tests != [] {
      var i :| 0 <= i < |tests| && tests[i](input);
      assert tests[i] in tests;
    }
  }

  lemma HeldFits(m: Matcher, e: Extracted, c: Credential)
    requires Held(e, SlotFor(m)) == Some(c) && SlotOf(c) == SlotFor(m)
    ensures Matches(m, e) <==> Fits(m, c)
  {
    forall input: string, tests ensures MatchesAny(input, tests) <==> AnyHolds(input, tests) {
      AnyHoldsIff(input, tests);
    }
  }

  /** A matcher holds iff the last credential of its kind, and of its name, fits it. */
  lemma MatchesIff(m: Matcher, creds: seq<Credential>)
    ensures Matches(m, Extract(creds)) <==>
      m.Always? || exists i :: LastIn(creds, SlotFor(m), i) && Fits(m, creds[i])
  {
    if !m.Always? {
      ExtractHolds(creds, SlotFor(m));
      var held := Held(Extract(creds), SlotFor(m));
      if held.Some? {
        HeldFits(m, Extract(creds), held.value);
      }
    }
  }

  // ---- Passing through ----

  /** The forward that carries a credential on. */
  function ForwardOf(c: Credential): Forward {
    match c
    case Bearer(token) => BearerForward(token)
    case Basic(user, password) => BasicForward(user, password)
    case Header(name, value) => HeaderForward(name, value)
    case Query(name, value) => QueryForward(name, value)
    case Anonymous => NoForward
  }

  /** Some matcher of the group looks at this credential. */
  ghost predicate Taken(matchers: seq<Matcher>, e: Extracted, c: Credential) {
    exists m | m in matchers :: Held(e, SlotFor(m)) == Some(c)
  }

  lemma PassesOne(m: Matcher, e: Extracted)
    ensures PassThroughOne(m, e) ==
            match Held(e, SlotFor(m)) case None => [] case Some(c) => [ForwardOf(c)]
  {
  }

  lemma ForwardedIsTaken(matchers: seq<Matcher>, e: Extracted, f: Forward) returns (c: Credential)
    requires f in PassThrough(matchers, e)
    ensures Taken(matchers, e, c) && f == ForwardOf(c)
  {
    PassThroughMembers(matchers, e, f);
    var i :| 0 <= i < |matchers| && f in PassThroughOne(matchers[i], e);
    PassesOne(matchers[i], e);
    c := Held(e, SlotFor(matchers[i])).value;
    assert matchers[i] in matchers;
  }

  lemma TakenIsForwarded(matchers: seq<Matcher>, e: Extracted, c: Credential)
    requires Taken(matchers, e, c)
    ensures ForwardOf(c) in PassThrough(matchers, e)
  {
    PassThroughMembers(matchers, e, ForwardOf(c));
    var m :| m in matchers && Held(e, SlotFor(m)) == Some(c);
    PassesOne(m, e);
  }

  /** Two extracted credentials in one slot are one. */
  lemma OnePerSlot(creds: seq<Credential>, matchers: seq<Matcher>, a: Credential, b: Credential)
    requires Taken(matchers, Extract(creds), a) && Taken(matchers, Extract(creds), b) && SlotOf(a) == SlotOf(b)
    ensures a == b
  {
    TakenWasSent(creds, matchers, a);
    TakenWasSent(creds, matchers, b);
  }

  /** What is taken was sent, and is what its slot holds. */
  lemma TakenWasSent(creds: seq<Credential>, matchers: seq<Matcher>, c: Credential)
    requires Taken(matchers, Extract(creds), c)
    ensures c in creds && Held(Extract(creds), SlotOf(c)) == Some(c)
  {
    var m :| m in matchers && Held(Extract(creds), SlotFor(m)) == Some(c);
    ExtractHolds(creds, SlotFor(m));
  }

  /** The credential can be written at all: an empty user, password or name cannot. */
  predicate Writable(c: Credential) {
    match c
    case Basic(user, password) => user != "" && password != ""
    case Header(name, _) => name != ""
    case Query(name, _) => name != ""
    case _ => true
  }

  /** Read back from these headers and parameters, the credential is the one that was sent. */
  ghost predicate Reaches(decode: string -> Option<string>, headers: map<string, string>, query: map<string, string>,
                          c: Credential) {
    match c
    case Basic(user, password) => ReadsBackAs(decode, headers, user, password)
    case Bearer(token) => "Authorization" in headers && AuthorizationIs(headers["Authorization"], "bearer", token)
    case Header(name, value) =>
      name in headers && Trim(headers[name]) != "" && (name != "Authorization" ==> headers[name] == value)
    case Query(name, value) => name in query && query[name] == value
    case Anonymous => true
  }

  lemma BearerReads(token: string)
    requires Trimmed(token)
    ensures AuthorizationIs("Bearer " + token, "bearer", token)
  {
    BearerName();
    assert "Bearer " + token == "Bearer" + " " + token;
    TrimFixpoint(token);
  }

  lemma BearerName()
    ensures ToLower(Trim("Bearer")) == "bearer" && ' ' !in "Bearer"
  {
    TrimFixpoint("Bearer");
  }

  /** What admission collected and a group takes. */
  ghost predicate Collected(allow: Allow, decode: string -> Option<string>, headers: Headers,
                            query: map<string, string>, matchers: seq<Matcher>, c: Credential) {
    Taken(matchers, Extract(Collect(allow, decode, headers, query)), c)
  }

  lemma CollectedIsCarried(allow: Allow, decode: string -> Option<string>, headers: Headers,
                           query: map<string, string>, matchers: seq<Matcher>, c: Credential)
    requires Collected(allow, decode, headers, query, matchers, c)
    ensures Carried(allow, decode, headers, query, c)
  {
    TakenWasSent(Collect(allow, decode, headers, query), matchers, c);
    CollectedIff(allow, decode, headers, query, c);
  }

  lemma NamedAuthorization(allow: Allow, decode: string -> Option<string>, headers: Headers, query: map<string, string>,
                           token: string, v: string)
    requires Carried(allow, decode, headers, query, Bearer(token))
    requires Carried(allow, decode, headers, query, Header("Authorization", v))
    ensures AuthorizationIs(v, "bearer", token)
  {
    AuthorizationName();
  }

  /** Beside a bearer token, everything that is written to Authorization is that token. */
  lemma BearerAlone(allow: Allow, encode: string -> string, decode: string -> Option<string>, headers: Headers,
                    query: map<string, string>, matchers: seq<Matcher>, token: string, f: Forward, v: string)
    requires Collected(allow, decode, headers, query, matchers, Bearer(token))
    requires f in PassThrough(matchers, Extract(Collect(allow, decode, headers, query)))
    requires HeaderSet(encode, f) == Some(("Authorization", v))
    ensures AuthorizationIs(v, "bearer", token)
  {
    var e := Extract(Collect(allow, decode, headers, query));
    var c := ForwardedIsTaken(matchers, e, f);
    CollectedIsCarried(allow, decode, headers, query, matchers, Bearer(token));
    CollectedIsCarried(allow, decode, headers, query, matchers, c);
    HeaderSetBy(encode, c, "Authorization", v);
    match c {
      case Bearer(_) =>
        OnePerSlot(Collect(allow, decode, headers, query), matchers, c, Bearer(token));
        TokenTrimmed(allow, decode, headers, query, token);
        BearerReads(token);
      case Basic(user, password) => OneScheme(allow, decode, headers, query, user, password);
      case Header(_, _) => NamedAuthorization(allow, decode, headers, query, token, v);
      case _ =>
    }
  }

  lemma TokenTrimmed(allow: Allow, decode: string -> Option<string>, headers: Headers, query: map<string, string>,
                     token: string)
    requires Carried(allow, decode, headers, query, Bearer(token))
    ensures Trimmed(token)
  {
  }

  lemma QueryAlone(creds: seq<Credential>, matchers: seq<Matcher>, name: string, value: string, f: Forward, v: string)
    requires Taken(matchers, Extract(creds), Query(name, value))
    requires f in PassThrough(matchers, Extract(creds)) && QuerySet(f) == Some((name, v))
    ensures v == value
  {
    var c := ForwardedIsTaken(matchers, Extract(creds), f);
    OnePerSlot(creds, matchers, c, Query(name, value));
  }

  /** What was written under a name, when every write under that name has a property and there is one. */
  lemma WrittenHas(write: Writer, fs: seq<Forward>, f: Forward, k: string, good: string -> bool)
    requires f in fs && write(f).Some? && write(f).value.0 == k
    requires forall g, v | g in fs && write(g) == Some((k, v)) :: good(v)
    ensures LastWrite(write, fs, k).Some? && good(LastWrite(write, fs, k).value)
  {
    LastIsWritten(write, fs, k);
    assert write(f) == Some((k, write(f).value.1));
  }

  lemma WritableIff(allow: Allow, decode: string -> Option<string>, headers: Headers, query: map<string, string>,
                    c: Credential)
    requires Carried(allow, decode, headers, query, c)
    ensures Applicable(ForwardOf(c)) <==> Writable(c)
  {
  }

  /** The forwards of a group can all be applied exactly when every credential it takes can be written. */
  lemma ApplicableIff(allow: Allow, decode: string -> Option<string>, headers: Headers, query: map<string, string>,
                      matchers: seq<Matcher>)
    ensures (forall f | f in PassThrough(matchers, Extract(Collect(allow, decode, headers, query))) :: Applicable(f))
      <==> forall c | Collected(allow, decode, headers, query, matchers, c) :: Writable(c)
  {
    var e := Extract(Collect(allow, decode, headers, query));
    forall c | Collected(allow, decode, headers, query, matchers, c)
      ensures ForwardOf(c) in PassThrough(matchers, e) && (Applicable(ForwardOf(c)) <==> Writable(c)) {
      TakenIsForwarded(matchers, e, c);
      CollectedIsCarried(allow, decode, headers, query, matchers, c);
      WritableIff(allow, decode, headers, query, c);
    }
    forall f | f in PassThrough(matchers, e)
      ensures exists c :: Collected(allow, decode, headers, query, matchers, c) && f == ForwardOf(c) {
      var c := ForwardedIsTaken(matchers, e, f);
    }
  }

  lemma BearerPasses(allow: Allow, encode: string -> string, decode: string -> Option<string>, headers: Headers,
                     query: map<string, string>, matchers: seq<Matcher>, t: Target, token: string)
    requires Collected(allow, decode, headers, query, matchers, Bearer(token))
    requires Apply(encode, PassThrough(matchers, Extract(Collect(allow, decode, headers, query))), t).Some?
    ensures var r := Apply(encode, PassThrough(matchers, Extract(Collect(allow, decode, headers, query))), t).value;
      Reaches(decode, r.headers, r.query, Bearer(token))
  {
    var e := Extract(Collect(allow, decode, headers, query));
    var fs := PassThrough(matchers, e);
    forall f, v | f in fs && HeaderSet(encode, f) == Some(("Authorization", v))
      ensures AuthorizationIs(v, "bearer", token) {
      BearerAlone(allow, encode, decode, headers, query, matchers, token, f, v);
    }
    TakenIsForwarded(matchers, e, Bearer(token));
    AppliedHas(encode, fs, t, BearerForward(token), "Authorization", v => AuthorizationIs(v, "bearer", token));
  }

  lemma BasicIsTaken(matchers: seq<Matcher>, e: Extracted, user: string, password: string)
    requires Taken(matchers, e, Basic(user, password))
    ensures e.basic == Some((user, password)) && exists i | 0 <= i < |matchers| :: matchers[i].OnBasic?
  {
    var m :| m in matchers && Held(e, SlotFor(m)) == Some(Basic(user, password));
    assert m.OnBasic?;
  }

  lemma BasicPasses(allow: Allow, encode: string -> string, decode: string -> Option<string>, headers: Headers,
                    query: map<string, string>, matchers: seq<Matcher>, t: Target, user: string, password: string)
    requires Base64(encode, decode) && Collected(allow, decode, headers, query, matchers, Basic(user, password))
    requires Apply(encode, PassThrough(matchers, Extract(Collect(allow, decode, headers, query))), t).Some?
    ensures var r := Apply(encode, PassThrough(matchers, Extract(Collect(allow, decode, headers, query))), t).value;
      Reaches(decode, r.headers, r.query, Basic(user, password))
  {
    BasicIsTaken(matchers, Extract(Collect(allow, decode, headers, query)), user, password);
    BasicPassesThrough(allow, encode, decode, headers, query, matchers, t);
  }

  /** Neither a Basic credential nor a bearer token is written to the header of this name. */
  ghost predicate Undisturbed(matchers: seq<Matcher>, e: Extracted, name: string) {
    name != "Authorization" || forall c | Taken(matchers, e, c) :: !c.Basic? && !c.Bearer?
  }

  lemma SchemeIsNotBlank(encode: string -> string, f: Forward, v: string)
    requires (f.BasicForward? || f.BearerForward?) && HeaderSet(encode, f) == Some(("Authorization", v))
    ensures Trim(v) != ""
  {
    assert v[0] == 'B';
    TrimBlank(v);
  }

  /** Under a header's name stands its value, or at Authorization a Basic credential or a bearer token. */
  lemma HeaderWrites(allow: Allow, encode: string -> string, decode: string -> Option<string>, headers: Headers,
                     query: map<string, string>, matchers: seq<Matcher>, name: string, value: string, f: Forward,
                     v: string)
    requires Collected(allow, decode, headers, query, matchers, Header(name, value))
    requires f in PassThrough(matchers, Extract(Collect(allow, decode, headers, query)))
    requires HeaderSet(encode, f) == Some((name, v))
    ensures Trim(v) != ""
    ensures Undisturbed(matchers, Extract(Collect(allow, decode, headers, query)), name) ==> v == value
  {
    var creds := Collect(allow, decode, headers, query);
    var c := ForwardedIsTaken(matchers, Extract(creds), f);
    HeaderIsNotBlank(allow, decode, headers, query, matchers, name, value);
    HeaderSetBy(encode, c, name, v);
    if c.Header? {
      OnePerSlot(creds, matchers, c, Header(name, value));
    } else {
      SchemeIsNotBlank(encode, f, v);
    }
  }

  lemma HeaderIsNotBlank(allow: Allow, decode: string -> Option<string>, headers: Headers, query: map<string, string>,
                         matchers: seq<Matcher>, name: string, value: string)
    requires Collected(allow, decode, headers, query, matchers, Header(name, value))
    ensures Trim(value) != ""
  {
    CollectedIsCarried(allow, decode, headers, query, matchers, Header(name, value));
    TrimFixpoint(value);
  }

  lemma HeaderSetBy(encode: string -> string, c: Credential, name: string, v: string)
    requires HeaderSet(encode, ForwardOf(c)) == Some((name, v))
    ensures c == Header(name, v) || ((c.Basic? || c.Bearer?) && name == "Authorization")
  {
  }

  /** What may stand under the header's name. */
  predicate Stands(undisturbed: bool, value: string, v: string) { Trim(v) != "" && (undisturbed ==> v == value) }

  /** Applied, forwards leave under a name that one of them writes what all of them write there. */
  lemma AppliedHas(encode: string -> string, fs: seq<Forward>, t: Target, f: Forward, k: string, good: string -> bool)
    requires Apply(encode, fs, t).Some? && f in fs && HeaderSet(encode, f).Some? && HeaderSet(encode, f).value.0 == k
    requires forall g, v | g in fs && HeaderSet(encode, g) == Some((k, v)) :: good(v)
    ensures k in Apply(encode, fs, t).value.headers && good(Apply(encode, fs, t).value.headers[k])
  {
    WrittenHas(HeaderWriter(encode), fs, f, k, good);
    ApplyWritesLast(encode, fs, t);
    assert ValueAt(Apply(encode, fs, t).value.headers, k).Some?;
  }

  lemma HeaderPasses(allow: Allow, encode: string -> string, decode: string -> Option<string>, headers: Headers,
                     query: map<string, string>, matchers: seq<Matcher>, t: Target, name: string, value: string)
    requires Collected(allow, decode, headers, query, matchers, Header(name, value))
    requires Apply(encode, PassThrough(matchers, Extract(Collect(allow, decode, headers, query))), t).Some?
    ensures var e := Extract(Collect(allow, decode, headers, query));
      var r := Apply(encode, PassThrough(matchers, e), t).value;
      && Reaches(decode, r.headers, r.query, Header(name, value))
      && (Undisturbed(matchers, e, name) ==> r.headers[name] == value)
  {
    var e := Extract(Collect(allow, decode, headers, query));
    var fs, undisturbed := PassThrough(matchers, e), Undisturbed(matchers, e, name);
    TakenIsForwarded(matchers, e, Header(name, value));
    forall f, v | f in fs && HeaderSet(encode, f) == Some((name, v)) ensures Stands(undisturbed, value, v) {
      HeaderWrites(allow, encode, decode, headers, query, matchers, name, value, f, v);
    }
    AppliedHas(encode, fs, t, HeaderForward(name, value), name, v => Stands(undisturbed, value, v));
  }

  lemma QueryPasses(creds: seq<Credential>, encode: string -> string, decode: string -> Option<string>,
                    matchers: seq<Matcher>, t: Target, name: string, value: string)
    requires Taken(matchers, Extract(creds), Query(name, value))
    requires Apply(encode, PassThrough(matchers, Extract(creds)), t).Some?
    ensures var r := Apply(encode, PassThrough(matchers, Extract(creds)), t).value;
      Reaches(decode, r.headers, r.query, Query(name, value))
  {
    var fs := PassThrough(matchers, Extract(creds));
    TakenIsForwarded(matchers, Extract(creds), Query(name, value));
    forall f, v | f in fs && QueryWriter()(f) == Some((name, v)) ensures v == value {
      QueryAlone(creds, matchers, name, value, f, v);
    }
    WrittenHas(QueryWriter(), fs, QueryForward(name, value), name, v => v == value);
    ApplyWritesLast(encode, fs, t);
    assert ValueAt(Apply(encode, fs, t).value.query, name).Some?;
  }

  /**
    Pass-through of every kind of credential, from the request that admission read to what is rendered for the backend.
    It succeeds exactly when each credential the group takes can be written, and then each one reads back as it was
    sent, whatever else is written beside it.
   */
  lemma CredentialsPassThrough(allow: Allow, encode: string -> string, decode: string -> Option<string>,
                               headers: Headers, query: map<string, string>, matchers: seq<Matcher>, t: Target)
    requires Base64(encode, decode)
    ensures var r := Apply(encode, PassThrough(matchers, Extract(Collect(allow, decode, headers, query))), t);
      && (r.Some? <==> forall c | Collected(allow, decode, headers, query, matchers, c) :: Writable(c))
      && (r.Some? ==> forall c | Collected(allow, decode, headers, query, matchers, c) ::
            Reaches(decode, r.value.headers, r.value.query, c)
            && (c.Header? && Undisturbed(matchers, Extract(Collect(allow, decode, headers, query)), c.name) ==>
                  r.value.headers[c.name] == c.value))
  {
    var creds := Collect(allow, decode, headers, query);
    var fs := PassThrough(matchers, Extract(creds));
    ApplyWritesLast(encode, fs, t);
    ApplicableIff(allow, decode, headers, query, matchers);
    if Apply(encode, fs, t).Some? {
      forall c | Collected(allow, decode, headers, query, matchers, c)
        ensures var r := Apply(encode, fs, t).value;
          Reaches(decode, r.headers, r.query, c)
          && (c.Header? && Undisturbed(matchers, Extract(creds), c.name) ==> r.headers[c.name] == c.value) {
        match c {
          case Bearer(token) => BearerPasses(allow, encode, decode, headers, query, matchers, t, token);
          case Basic(user, password) => BasicPasses(allow, encode, decode, headers, query, matchers, t, user, password);
          case Header(name, value) => 
            HeaderPasses(allow, encode, decode, headers, query, matchers, t, name, value);
          case Query(name, value) => QueryPasses(creds, encode, decode, matchers, t, name, value);
          case Anonymous =>
        }
      }
    }
  }

  // ---- As far as the request that is sent ----

  lemma WordIsNotBlank(word: string, rest: string)
    requires Trim(word) != ""
    ensures Trim(word + " " + rest) != ""
  {
    TrimBlank(word);
    TrimBlank(word + " " + rest);
    var i :| 0 <= i < |word| && !IsSpace(word[i]);
    assert (word + " " + rest)[i] == word[i];
  }

  lemma AuthorizationIsNotBlank(value: string, scheme: string, param: string)
    requires AuthorizationIs(value, scheme, param) && scheme != ""
    ensures Trim(value) != ""
  {
    forall word, rest | value == word + " " + rest && ToLower(Trim(word)) == scheme ensures Trim(value) != "" {
      WordIsNotBlank(word, rest);
    }
  }

  lemma ReadsIsNotBlank(decode: string -> Option<string>, value: string, user: string, password: string)
    requires Reads(decode, value, user, password)
    ensures Trim(value) != ""
  {
    AuthorizationSplits(value, "basic", ParseAuthorization(value).1);
    AuthorizationIsNotBlank(value, "basic", ParseAuthorization(value).1);
  }

  /** A credential among the rendered headers is among those that are sent: it is not blank. */
  lemma SentReaches(w: Web, decode: string -> Option<string>, r: Rendered, link: string, request: HttpRequest,
                    allow: Allow, headers: Headers, query: map<string, string>, c: Credential)
    requires IsRequest(w, r, link, true, request) && Carried(allow, decode, headers, query, c)
    requires Reaches(decode, r.headers, r.query, c)
    ensures Reaches(decode, request.headers, r.query, c)
    ensures c.Header? ==> request.headers[c.name] == r.headers[c.name]
  {
    match c {
      case Basic(user, password) => ReadsIsNotBlank(decode, r.headers["Authorization"], user, password);
      case Bearer(token) => AuthorizationIsNotBlank(r.headers["Authorization"], "bearer", token);
      case _ =>
    }
  }

  /** The request sends a credential: in its headers, or among the query parameters that its URL was given. */
  ghost predicate Delivers(env: Env, decode: string -> Option<string>, r: Rendered, request: HttpRequest,
                           c: Credential) {
    && Reaches(decode, request.headers, r.query, c)
    && (c.Query? ==>
          exists url :: env.web.parse(Trim(r.url)) == Some(url) && request.url == env.web.withQuery(url, r.query))
  }

  lemma FirstRequest(env: Env, rule: Rule, w: World, start: View, r: Rendered)
    requires RenderRequest(env, rule, Authenticate(rule, Reset(start)).1, Authenticate(rule, Reset(start)).0) == Some(r)
    requires Conversation(env, rule, w, start).exchanges != []
    ensures IsRequest(env.web, r, Trim(r.url), true, Conversation(env, rule, w, start).exchanges[0].request)
  {
    PaginationIsSafe(env.web, r, rule.backend, w.calls);
  }

  lemma PassedIsRendered(env: Env, rule: Rule, start: View, allow: Allow, decode: string -> Option<string>,
                         headers: Headers, query: map<string, string>, i: nat)
    requires Base64(env.encode, decode) && start.credentials == Collect(allow, decode, headers, query)
    requires FirstMatch(rule, Reset(start), i) && rule.auth[i].forwards == []
    requires rule.backend.Configured() && !Blocked(env, rule, start)
    ensures var (v, auth) := Authenticate(rule, Reset(start)); var r := RenderRequest(env, rule, auth, v).value;
      forall c | Collected(allow, decode, headers, query, rule.auth[i].matchers, c) ::
        Reaches(decode, r.headers, r.query, c)
  {
    FirstGroupWins(rule, Reset(start));
    var (v, auth) := Authenticate(rule, Reset(start));
    GrantIsRendered(env, rule, auth.forwards, v);
    var parts := rule.render(v).value;
    CredentialsPassThrough(allow, env.encode, decode, headers, query, rule.auth[i].matchers,
                           Target(parts.headers, parts.query));
  }

  /**
    From the request to the backend: where the first group that matches passes credentials through, the first request
    its backend gets delivers every credential the group takes.
   */
  lemma CredentialsReachBackend(env: Env, rule: Rule, w: World, start: View, allow: Allow,
                                decode: string -> Option<string>, headers: Headers, query: map<string, string>, i: nat)
    requires Base64(env.encode, decode) && start.credentials == Collect(allow, decode, headers, query)
    requires FirstMatch(rule, Reset(start), i) && rule.auth[i].forwards == []
    requires Conversation(env, rule, w, start).exchanges != []
    ensures var (v, auth) := Authenticate(rule, Reset(start)); var r := RenderRequest(env, rule, auth, v);
      r.Some? && forall c | Collected(allow, decode, headers, query, rule.auth[i].matchers, c) ::
        Delivers(env, decode, r.value, Conversation(env, rule, w, start).exchanges[0].request, c)
  {
    var (v, auth) := Authenticate(rule, Reset(start));
    var matchers := rule.auth[i].matchers;
    PassedIsRendered(env, rule, start, allow, decode, headers, query, i);
    var r, request := RenderRequest(env, rule, auth, v).value, Conversation(env, rule, w, start).exchanges[0].request;
    FirstRequest(env, rule, w, start, r);
    forall c | Collected(allow, decode, headers, query, matchers, c) ensures Delivers(env, decode, r, request, c) {
      CollectedIsCarried(allow, decode, headers, query, matchers, c);
      SentReaches(env.web, decode, r, Trim(r.url), request, allow, headers, query, c);
    }
  }

  // ---- Explicit forwards ----

  /** The template renders to this text, up to blanks around it. */
  ghost predicate Renders(t: Template, v: View, text: string) { t(v).Some? && text == Trim(t(v).value) }

  ghost predicate RendersName(c: ForwardConfig, v: View, name: string) {
    if c.nameTemplate.Some? then Renders(c.nameTemplate.value, v, name) else name == Trim(c.name)
  }

  /** The configured forward writes this header. */
  ghost predicate WritesHeader(encode: string -> string, c: ForwardConfig, v: View, name: string, value: string) {
    match ToLower(Trim(c.kind))
    case "basic" =>
      && name == "Authorization"
      && exists user, password ::
           && Renders(c.user, v, user) && Renders(c.password, v, password) && user != "" && password != ""
           && value == "Basic " + encode(user + ":" + password)
    case "bearer" => name == "Authorization" && exists t :: Renders(c.token, v, t) && t != "" && value == "Bearer " + t
    case "header" => RendersName(c, v, name) && name != "" && Renders(c.value, v, value) && value != ""
    case _ => false
  }

  /** The configured forward sets this query parameter, possibly to the empty text. */
  ghost predicate WritesQuery(c: ForwardConfig, v: View, name: string, value: string) {
    ToLower(Trim(c.kind)) == "query" && RendersName(c, v, name) && name != "" && Renders(c.value, v, value)
  }

  /** A forward without effect, or one that writes something. */
  ghost predicate Effective(encode: string -> string, c: ForwardConfig, v: View) {
    || ToLower(Trim(c.kind)) in {"", "none"}
    || exists name, value :: WritesHeader(encode, c, v, name, value) || WritesQuery(c, v, name, value)
  }

  /** What a rendered forward sets is what the configured one writes. */
  ghost predicate SetsAs(encode: string -> string, c: ForwardConfig, v: View, f: Forward) {
    && (forall name, value :: HeaderSet(encode, f) == Some((name, value)) <==> WritesHeader(encode, c, v, name, value))
    && (forall name, value :: QuerySet(f) == Some((name, value)) <==> WritesQuery(c, v, name, value))
  }

  lemma RenderedSets(encode: string -> string, c: ForwardConfig, v: View)
    requires RenderForward(c, v).Some?
    ensures var f := RenderForward(c, v).value; Applicable(f) && SetsAs(encode, c, v, f)
  {
    match RenderForward(c, v).value {
      case BasicForward(user, password) => assert Renders(c.user, v, user) && Renders(c.password, v, password);
      case BearerForward(token) => assert Renders(c.token, v, token);
      case _ =>
    }
  }

  lemma WriterRenders(encode: string -> string, c: ForwardConfig, v: View, name: string, value: string)
    requires WritesHeader(encode, c, v, name, value) || WritesQuery(c, v, name, value)
    ensures RenderForward(c, v).Some?
  {
  }

  lemma RendersIff(encode: string -> string, c: ForwardConfig, v: View)
    ensures RenderForward(c, v).Some? <==> Effective(encode, c, v)
  {
    if RenderForward(c, v).Some? {
      var f := RenderForward(c, v).value;
      RenderedSets(encode, c, v);
      if HeaderSet(encode, f).Some? {
        var (name, value) := HeaderSet(encode, f).value;
        assert WritesHeader(encode, c, v, name, value);
      } else if QuerySet(f).Some? {
        var (name, value) := QuerySet(f).value;
        assert WritesQuery(c, v, name, value);
      }
    }
    forall name, value | WritesHeader(encode, c, v, name, value) || WritesQuery(c, v, name, value)
      ensures RenderForward(c, v).Some? {
      WriterRenders(encode, c, v, name, value);
    }
  }

  /** What a configured forward writes, to the headers or to the query. */
  type Writes = (ForwardConfig, string, string) -> bool

  ghost predicate NoWriter(configs: seq<ForwardConfig>, writes: Writes, name: string) {
    forall i, x | 0 <= i < |configs| :: !writes(configs[i], name, x)
  }

  /** Forward `i` writes the value under this name, and no later one writes it. */
  ghost predicate LastWriter(configs: seq<ForwardConfig>, writes: Writes, i: int, name: string, value: string) {
    0 <= i < |configs| && writes(configs[i], name, value) && NoWriter(configs[i + 1..], writes, name)
  }

  /** Every name stands for what the last forward to write it wrote, or for what was there before. */
  ghost predicate LastWritten(configs: seq<ForwardConfig>, writes: Writes, before: map<string, string>,
                              after: map<string, string>) {
    && (forall i, name, value | LastWriter(configs, writes, i, name, value) :: ValueAt(after, name) == Some(value))
    && (forall name | NoWriter(configs, writes, name) :: ValueAt(after, name) == ValueAt(before, name))
  }

  /** One forward has been applied. */
  ghost predicate OneWritten(c: ForwardConfig, writes: Writes, before: map<string, string>, after: map<string,
                             string>) {
    && (forall name, value | writes(c, name, value) :: ValueAt(after, name) == Some(value))
    && (forall name | NoWriter([c], writes, name) :: ValueAt(after, name) == ValueAt(before, name))
  }

  lemma NoWriterCons(c: ForwardConfig, rest: seq<ForwardConfig>, writes: Writes, name: string)
    ensures NoWriter([c] + rest, writes, name) <==> NoWriter([c], writes, name) && NoWriter(rest, writes, name)
  {
    var all := [c] + rest;
    assert all[0] == c && [c][0] == c;
    if NoWriter(all, writes, name) {
      forall i, x | 0 <= i < |rest| ensures !writes(rest[i], name, x) {
        assert all[i + 1] == rest[i];
      }
    }
  }

  lemma LastWriterCons(c: ForwardConfig, rest: seq<ForwardConfig>, writes: Writes, i: int, name: string, value: string)
    requires LastWriter([c] + rest, writes, i, name, value)
    ensures i == 0 ==> writes(c, name, value) && NoWriter(rest, writes, name)
    ensures i > 0 ==> LastWriter(rest, writes, i - 1, name, value)
  {
    assert ([c] + rest)[i + 1..] == rest[i..];
  }

  lemma LastWrittenCons(c: ForwardConfig, rest: seq<ForwardConfig>, writes: Writes, before: map<string, string>,
                        between: map<string, string>, after: map<string, string>)
    requires OneWritten(c, writes, before, between) && LastWritten(rest, writes, between, after)
    ensures LastWritten([c] + rest, writes, before, after)
  {
    forall i, name, value | LastWriter([c] + rest, writes, i, name, value)
      ensures ValueAt(after, name) == Some(value) {
      LastWriterCons(c, rest, writes, i, name, value);
    }
    forall name | NoWriter([c] + rest, writes, name) ensures ValueAt(after, name) == ValueAt(before, name) {
      NoWriterCons(c, rest, writes, name);
    }
  }

  ghost function HeadersWritten(encode: string -> string, v: View): Writes {
    (c, name, value) => WritesHeader(encode, c, v, name, value)
  }

  ghost function QueryWritten(v: View): Writes { (c, name, value) => WritesQuery(c, v, name, value) }

  /** The target after a group's explicit forwards. */
  ghost predicate Arrived(encode: string -> string, configs: seq<ForwardConfig>, v: View, before: Target,
                          after: Target) {
    && LastWritten(configs, HeadersWritten(encode, v), before.headers, after.headers)
    && LastWritten(configs, QueryWritten(v), before.query, after.query)
  }

  lemma PutWrites(c: ForwardConfig, writes: Writes, before: map<string, string>, kv: Option<(string, string)>)
    requires forall name, value :: kv == Some((name, value)) <==> writes(c, name, value)
    ensures OneWritten(c, writes, before, Put(before, kv))
  {
    forall name | NoWriter([c], writes, name) ensures ValueAt(Put(before, kv), name) == ValueAt(before, name) {
      forall x ensures !writes(c, name, x) {
        assert [c][0] == c;
      }
    }
  }

  lemma ArrivedCons(encode: string -> string, c: ForwardConfig, rest: seq<ForwardConfig>, v: View, before: Target,
                    f: Forward, after: Target)
    requires SetsAs(encode, c, v, f) && Arrived(encode, rest, v, ApplyOne(encode, before, f), after)
    ensures Arrived(encode, [c] + rest, v, before, after)
  {
    var between := ApplyOne(encode, before, f);
    PutWrites(c, HeadersWritten(encode, v), before.headers, HeaderSet(encode, f));
    PutWrites(c, QueryWritten(v), before.query, QuerySet(f));
    LastWrittenCons(c, rest, HeadersWritten(encode, v), before.headers, between.headers, after.headers);
    LastWrittenCons(c, rest, QueryWritten(v), before.query, between.query, after.query);
  }

  lemma {:induction false} ForwardsRenderIff(encode: string -> string, configs: seq<ForwardConfig>, v: View)
    ensures RenderForwards(configs, v).Some? <==> forall i | 0 <= i < |configs| :: Effective(encode, configs[i], v)
    decreases configs
  {
    if configs != [] {
      RendersIff(encode, configs[0], v);
      ForwardsRenderIff(encode, configs[1..], v);
      assert forall i | 1 <= i < |configs| :: configs[i] == configs[1..][i - 1];
      assert forall i | 0 <= i < |configs[1..]| :: configs[1..][i] == configs[i + 1];
    }
  }

  lemma {:induction false} RenderedArrive(encode: string -> string, configs: seq<ForwardConfig>, v: View, t: Target)
    requires RenderForwards(configs, v).Some?
    ensures var r := Apply(encode, RenderForwards(configs, v).value, t);
      r.Some? && Arrived(encode, configs, v, t, r.value)
    decreases configs
  {
    if configs != [] {
      var f, rest := RenderForward(configs[0], v).value, RenderForwards(configs[1..], v).value;
      RenderedSets(encode, configs[0], v);
      RenderedArrive(encode, configs[1..], v, ApplyOne(encode, t, f));
      ArrivedCons(encode, configs[0], configs[1..], v, t, f, Apply(encode, rest, ApplyOne(encode, t, f)).value);
      assert [configs[0]] + configs[1..] == configs;
      assert ([f] + rest)[1..] == rest;
    }
  }

  /**
    Explicit forwards render exactly when each is effective, and then they can be applied: every header and parameter
    stands for what the last forward to write it wrote, and all others are as they were.
   */
  lemma ExplicitForwardsArrive(encode: string -> string, configs: seq<ForwardConfig>, v: View, t: Target)
    ensures var fs := RenderForwards(configs, v);
      && (fs.Some? <==> forall i | 0 <= i < |configs| :: Effective(encode, configs[i], v))
      && (fs.Some? ==> var r := Apply(encode, fs.value, t); r.Some? && Arrived(encode, configs, v, t, r.value))
  {
    ForwardsRenderIff(encode, configs, v);
    if RenderForwards(configs, v).Some? {
      RenderedArrive(encode, configs, v, t);
    }
  }

  /** Where the first group that matches has explicit forwards, the backend's first request carries what they wrote. */
  lemma ExplicitForwardsReachBackend(env: Env, rule: Rule, w: World, start: View, i: nat)
    requires FirstMatch(rule, Reset(start), i) && rule.auth[i].forwards != []
    requires Conversation(env, rule, w, start).exchanges != []
    ensures var (v, auth) := Authenticate(rule, Reset(start)); var r := RenderRequest(env, rule, auth, v);
      && rule.render(v).Some? && r.Some?
      && Arrived(env.encode, rule.auth[i].forwards, MatchedView(Reset(start)),
                 Target(rule.render(v).value.headers, rule.render(v).value.query),
                   Target(r.value.headers, r.value.query))
      && IsRequest(env.web, r.value, Trim(r.value.url), true, Conversation(env, rule, w, start).exchanges[0].request)
  {
    var (v, auth) := Authenticate(rule, Reset(start));
    FirstRequest(env, rule, w, start, RenderRequest(env, rule, auth, v).value);
    ExplicitIsRendered(env, rule, start, i);
  }

  lemma ExplicitIsRendered(env: Env, rule: Rule, start: View, i: nat)
    requires FirstMatch(rule, Reset(start), i) && rule.auth[i].forwards != []
    requires rule.backend.Configured() && !Blocked(env, rule, start)
    ensures var (v, auth) := Authenticate(rule, Reset(start));
      var parts, r := rule.render(v).value, RenderRequest(env, rule, auth, v).value;
      Arrived(env.encode, rule.auth[i].forwards, MatchedView(Reset(start)), Target(parts.headers, parts.query),
              Target(r.headers, r.query))
  {
    FirstGroupWins(rule, Reset(start));
    var (v, auth) := Authenticate(rule, Reset(start));
    GrantIsRendered(env, rule, auth.forwards, v);
    var parts := rule.render(v).value;
    ExplicitForwardsArrive(env.encode, rule.auth[i].forwards, MatchedView(Reset(start)),
                           Target(parts.headers, parts.query));
  }

  lemma GrantIsRendered(env: Env, rule: Rule, fs: seq<Forward>, v: View)
    requires RenderRequest(env, rule, Granted(fs), v).Some?
    ensures var parts, r := rule.render(v).value, RenderRequest(env, rule, Granted(fs), v).value;
      Apply(env.encode, fs, Target(parts.headers, parts.query)) == Some(Target(r.headers, r.query))
  {
  }
}
