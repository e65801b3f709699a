/** How admission reads credentials out of a request (section 2 of RFC 7617 for Basic). */
module Credentials {
  import opened Wrappers
  import opened Text

  datatype Credential =
    | Basic(user: string, password: string)
    | Bearer(token: string)
    | Header(name: string, value: string)
    | Query(name: string, value: string)
    | Anonymous

  /** The credential providers an endpoint accepts. */
  datatype Allow = Allow(basic: bool, bearer: bool, header: seq<string>, query: seq<string>, none: bool)

  /** Multi-valued request headers, keyed by canonical (here lower-case) name. */
  type Headers = map<string, seq<string>>

  /** http.Header.Get: the first value, or "". */
  function Get(headers: Headers, name: string): string {
    if name in headers && headers[name] != [] then headers[name][0] else ""
  }

  /** The scheme and parameter of an Authorization header. */
  function ParseAuthorization(header: string): (string, string) {
    match Cut(header, ' ')
    case None => (Trim(header), "")
    case Some(kv) => (Trim(kv.0), Trim(kv.1))
  }

  function DecodeBasic(decode: string -> Option<string>, payload: string): Option<(string, string)> {
    match decode(Trim(payload))
    case None => None
    case Some(text) => Cut(text, ':')
  }

  function EncodeBasic(encode: string -> string, user: string, password: string): string {
    "Basic " + encode(user + ":" + password)
  }

  function CollectAuthorization(allow: Allow, decode: string -> Option<string>, header: string): seq<Credential> {
    var (scheme, param) := ParseAuthorization(Trim(header));
    (if allow.basic && ToLower(scheme) == "basic" && DecodeBasic(decode, param).Some?
     then [Basic(DecodeBasic(decode, param).value.0, DecodeBasic(decode, param).value.1)] else []) +
    (if allow.bearer && ToLower(scheme) == "bearer" && param != "" then [Bearer(param)] else [])
  }

  function CollectHeaders(names: seq<string>, headers: Headers): seq<Credential> {
    if names == [] then []
    else
      var value := Trim(Get(headers, ToLower(names[0])));
      (if value != "" then [Header(names[0], value)] else []) + CollectHeaders(names[1..], headers)
  }

  function CollectQuery(names: seq<string>, query: map<string, string>): seq<Credential> {
    if names == [] then []
    else
      var value := if names[0] in query then Trim(query[names[0]]) else "";
      (if value != "" then [Query(names[0], value)] else []) + CollectQuery(names[1..], query)
  }

  /** Every credential of the request that the endpoint allows, in the order admission lists them. */
  function Collect(allow: Allow, decode: string -> Option<string>, headers: Headers,
                   query: map<string, string>): seq<Credential> {
    CollectAuthorization(allow, decode, Get(headers, "authorization"))
    + CollectHeaders(allow.header, headers)
    + CollectQuery(allow.query, query)
    + (if allow.none then [Anonymous] else [])
  }

  /** Base64: decoding inverts encoding, and an encoding has no white space. */
  ghost predicate Base64(encode: string -> string, decode: string -> Option<string>) {
    forall s :: decode(encode(s)) == Some(s) && Trimmed(encode(s))
  }

  /**
    A Basic credential, written as the Authorization header of the backend request, is read back
    as the same pair if and only if the user has no ':'.
   */
  lemma BasicRoundTrip(encode: string -> string, decode: string -> Option<string>, user: string, password: string)
    requires Base64(encode, decode)
    ensures var (scheme, param) := ParseAuthorization(EncodeBasic(encode, user, password));
      scheme == "Basic"
      && (DecodeBasic(decode, param) == Some((user, password)) <==> ':' !in user)
  {
    var text := user + ":" + password;
    assert EncodeBasic(encode, user, password) == "Basic" + [' '] + encode(text);
    CutAt("Basic", ' ', encode(text));
    TrimFixpoint(encode(text));
    TrimFixpoint("Basic");
    assert decode(encode(text)) == Some(text);
    if ':' !in user {
      CutAt(user, ':', password);
    }
  }

  /** An Authorization header with this value, read as admission reads it, is this Basic credential. */
  predicate Reads(decode: string -> Option<string>, value: string, user: string, password: string) {
    var (scheme, param) := ParseAuthorization(value);
    ToLower(scheme) == "basic" && DecodeBasic(decode, param) == Some((user, password))
  }

  lemma EncodedReads(encode: string -> string, decode: string -> Option<string>, user: string, password: string)
    requires Base64(encode, decode) && ':' !in user
    ensures Reads(decode, EncodeBasic(encode, user, password), user, password)
  {
    BasicRoundTrip(encode, decode, user, password);
    assert ToLower("Basic") == "basic";
  }

  // ---- What is collected, said of the request ----

  /** The Authorization value is this scheme, in any case, and then this parameter, with blanks around either. */
  ghost predicate AuthorizationIs(value: string, scheme: string, param: string) {
    || (exists word, rest :: ' ' !in word && value == word + " " + rest && ToLower(Trim(word)) == scheme
          && param == Trim(rest))
    || (' ' !in value && ToLower(Trim(value)) == scheme && param == "")
  }

  lemma AuthorizationSplits(value: string, scheme: string, param: string)
    ensures AuthorizationIs(value, scheme, param) <==>
      var (word, rest) := ParseAuthorization(value); ToLower(word) == scheme && rest == param
  {
    forall word, rest | ' ' !in word && value == word + " " + rest
      ensures ParseAuthorization(value) == (Trim(word), Trim(rest)) {
      CutAt(word, ' ', rest);
    }
    if ' ' in value {
      var (word, rest) := Cut(value, ' ').value;
      assert value == word + " " + rest;
    }
  }

  /** The payload decodes to the user, a colon and the password; the first colon ends the user. */
  ghost predicate Decodes(decode: string -> Option<string>, payload: string, user: string, password: string) {
    ':' !in user && decode(payload) == Some(user + ":" + password)
  }

  lemma DecodesIff(decode: string -> Option<string>, payload: string, user: string, password: string)
    requires Trimmed(payload)
    ensures Decodes(decode, payload, user, password) <==> DecodeBasic(decode, payload) == Some((user, password))
  {
    TrimFixpoint(payload);
    if ':' !in user {
      CutAt(user, ':', password);
    }
  }

  /** The endpoint allows this kind of credential, and the request carries exactly this one. */
  ghost predicate Carried(allow: Allow, decode: string -> Option<string>, headers: Headers, query: map<string, string>,
                          c: Credential) {
    var authorization := Trim(Get(headers, "authorization"));
    match c
    case Basic(user, password) =>
      allow.basic && exists payload :: AuthorizationIs(authorization, "basic", payload)
                                         && Decodes(decode, payload, user, password)
    case Bearer(token) => allow.bearer && token != "" && AuthorizationIs(authorization, "bearer", token)
    case Header(name, value) => name in allow.header && value != "" && value == Trim(Get(headers, ToLower(name)))
    case Query(name, value) => name in allow.query && value != "" && name in query && value == Trim(query[name])
    case Anonymous => allow.none
  }

  lemma {:induction false} HeadersIff(names: seq<string>, headers: Headers, c: Credential)
    ensures c in CollectHeaders(names, headers) <==>
      c.Header? && c.name in names && c.value != "" && c.value == Trim(Get(headers, ToLower(c.name)))
  {
    if names != [] {
      HeadersIff(names[1..], headers, c);
      assert names == [names[0]] + names[1..];
    }
  }

  lemma {:induction false} QueryIff(names: seq<string>, query: map<string, string>, c: Credential)
    ensures c in CollectQuery(names, query) <==>
      c.Query? && c.name in names && c.value != "" && c.name in query && c.value == Trim(query[c.name])
  {
    if names != [] {
      QueryIff(names[1..], query, c);
      assert names == [names[0]] + names[1..];
    }
  }

  lemma AuthorizationIff(allow: Allow, decode: string -> Option<string>, headers: Headers, query: map<string, string>,
                         c: Credential)
    ensures c in CollectAuthorization(allow, decode, Get(headers, "authorization")) <==>
      (c.Basic? || c.Bearer?) && Carried(allow, decode, headers, query, c)
  {
    var authorization := Trim(Get(headers, "authorization"));
    var (word, rest) := ParseAuthorization(authorization);
    assert Trimmed(rest);
    if c.Basic? {
      forall payload ensures AuthorizationIs(authorization, "basic", payload) <==>
          ToLower(word) == "basic" && rest == payload {
        AuthorizationSplits(authorization, "basic", payload);
      }
      DecodesIff(decode, rest, c.user, c.password);
    } else if c.Bearer? {
      AuthorizationSplits(authorization, "bearer", c.token);
    }
  }

  /** A credential is collected if and only if its kind is allowed and the request carries it. */
  lemma CollectedIff(allow: Allow, decode: string -> Option<string>, headers: Headers, query: map<string, string>,
                     c: Credential)
    ensures c in Collect(allow, decode, headers, query) <==> Carried(allow, decode, headers, query, c)
  {
    AuthorizationIff(allow, decode, headers, query, c);
    HeadersIff(allow.header, headers, c);
    QueryIff(allow.query, query, c);
  }

  /** Admission finds a credential exactly when the request carries one that is allowed. */
  lemma FoundIff(allow: Allow, decode: string -> Option<string>, headers: Headers, query: map<string, string>)
    ensures Collect(allow, decode, headers, query) != [] <==> exists c :: Carried(allow, decode, headers, query, c)
  {
    var found := Collect(allow, decode, headers, query);
    if found != [] {
      assert found[0] in found;
      CollectedIff(allow, decode, headers, query, found[0]);
    }
    forall c | Carried(allow, decode, headers, query, c) ensures c in found {
      CollectedIff(allow, decode, headers, query, c);
    }
  }

  /** A collected Basic user never holds a ':', and a request that yields one yields no bearer token. */
  lemma CollectedOnce(allow: Allow, decode: string -> Option<string>, headers: Headers, query: map<string, string>,
                      user: string, password: string)
    requires Basic(user, password) in Collect(allow, decode, headers, query)
    ensures ':' !in user
    ensures forall c | c in Collect(allow, decode, headers, query) :: !c.Bearer?
    ensures Reads(decode, Trim(Get(headers, "authorization")), user, password)
  {
    var found := Collect(allow, decode, headers, query);
    forall c | c in found ensures Carried(allow, decode, headers, query, c) {
      CollectedIff(allow, decode, headers, query, c);
    }
    AuthorizationIff(allow, decode, headers, query, Basic(user, password));
    OneScheme(allow, decode, headers, query, user, password);
  }

  /** The one Authorization header has one scheme. */
  lemma OneScheme(allow: Allow, decode: string -> Option<string>, headers: Headers, query: map<string, string>,
                  user: string, password: string)
    requires Carried(allow, decode, headers, query, Basic(user, password))
    ensures Reads(decode, Trim(Get(headers, "authorization")), user, password)
    ensures forall token :: !Carried(allow, decode, headers, query, Bearer(token))
  {
    var authorization := Trim(Get(headers, "authorization"));
    var payload :| AuthorizationIs(authorization, "basic", payload) && Decodes(decode, payload, user, password);
    AuthorizationSplits(authorization, "basic", payload);
    DecodesIff(decode, payload, user, password);
    forall token ensures !AuthorizationIs(authorization, "bearer", token) {
      AuthorizationSplits(authorization, "bearer", token);
    }
  }

  /** A collected header credential is the trimmed first value of that header. */
  lemma CollectedHeader(allow: Allow, decode: string -> Option<string>, headers: Headers, query: map<string, string>,
                        name: string, value: string)
    requires Header(name, value) in Collect(allow, decode, headers, query)
    ensures value == Trim(Get(headers, ToLower(name)))
  {
    CollectedIff(allow, decode, headers, query, Header(name, value));
  }

  /** An Authorization header that is also collected by name reads as the same Basic credential. */
  lemma HeaderReads(allow: Allow, decode: string -> Option<string>, headers: Headers, query: map<string, string>,
                    name: string, value: string, user: string, password: string)
    requires Header(name, value) in Collect(allow, decode, headers, query) && name == "Authorization"
    requires Basic(user, password) in Collect(allow, decode, headers, query)
    ensures Reads(decode, value, user, password)
  {
    CollectedOnce(allow, decode, headers, query, user, password);
    CollectedHeader(allow, decode, headers, query, name, value);
    AuthorizationName();
  }

  lemma AuthorizationName()
    ensures ToLower("Authorization") == "authorization"
  {
    assert ToLower("Authorization") == "authorization";
  }
}
