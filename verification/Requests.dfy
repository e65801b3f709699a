/** The raw text of a request's base key: its credential, the endpoint and the path. */
module Requests {
  import opened Wrappers
  import opened Text
  import opened Credentials
  import opened Admission
  import opened CacheKeys

  /** The first allowed header that is not blank. */
  function HeaderText(names: seq<string>, headers: Headers): Option<string> {
    if names == [] then None
    else
      var value := Trim(Get(headers, ToLower(names[0])));
      if value != "" then Some("header:" + names[0] + ":" + value) else HeaderText(names[1..], headers)
  }

  /** The first allowed query parameter that is not empty. */
  function QueryText(names: seq<string>, query: map<string, string>): Option<string> {
    if names == [] then None
    else if names[0] in query && query[names[0]] != "" then Some("query:" + names[0] + ":" + query[names[0]])
    else QueryText(names[1..], query)
  }

  /** extractCredential: the first credential in the order of admission, or else the remote address. */
  function CredentialText(allow: Allow, a: Arrival): string {
    var authorization := Trim(Get(a.headers, "authorization"));
    if (allow.basic || allow.bearer) && authorization != "" then "auth:" + authorization
    else
      match HeaderText(allow.header, a.headers)
      case Some(text) => text
      case None =>
        match QueryText(allow.query, a.query)
        case Some(text) => text
        case None => "ip:" + a.remoteAddr
  }

  // ---- What a request presents, said of the request ----

  /** The credential a request presents, or the address it comes from when it presents none. */
  datatype Presented =
    | ByAuthorization(value: string)
    | ByHeader(name: string, value: string)
    | ByQuery(name: string, value: string)
    | ByAddress(address: string)

  /** The trimmed first value of a header. */
  function HeaderValue(a: Arrival, name: string): string { Trim(Get(a.headers, ToLower(name))) }

  predicate UsesAuthorization(allow: Allow, a: Arrival) {
    (allow.basic || allow.bearer) && HeaderValue(a, "authorization") != ""
  }

  predicate UsesHeader(allow: Allow, a: Arrival) {
    exists i | 0 <= i < |allow.header| :: HeaderValue(a, allow.header[i]) != ""
  }

  predicate CarriesQuery(a: Arrival, name: string) { name in a.query && a.query[name] != "" }

  predicate UsesQuery(allow: Allow, a: Arrival) { exists i | 0 <= i < |allow.query| :: CarriesQuery(a, allow.query[i]) }

  /**
    The Authorization header when the endpoint takes one and it is not blank; else the first allowed header that is
    not blank; else the first allowed query parameter that is not empty; else the remote address.
   */
  ghost predicate Presents(allow: Allow, a: Arrival, x: Presented) {
    match x
    case ByAuthorization(value) => UsesAuthorization(allow, a) && value == HeaderValue(a, "authorization")
    case ByHeader(name, value) =>
      && !UsesAuthorization(allow, a) && value == HeaderValue(a, name) != ""
      && exists i | 0 <= i < |allow.header| ::
           allow.header[i] == name && forall j | 0 <= j < i :: HeaderValue(a, allow.header[j]) == ""
    case ByQuery(name, value) =>
      && !UsesAuthorization(allow, a) && !UsesHeader(allow, a) && CarriesQuery(a, name) && value == a.query[name]
      && exists i | 0 <= i < |allow.query| ::
           allow.query[i] == name && forall j | 0 <= j < i :: !CarriesQuery(a, allow.query[j])
    case ByAddress(address) =>
      !UsesAuthorization(allow, a) && !UsesHeader(allow, a) && !UsesQuery(allow, a) && address == a.remoteAddr
  }

  function TextOf(x: Presented): string {
    match x
    case ByAuthorization(value) => "auth:" + value
    case ByHeader(name, value) => "header:" + name + ":" + value
    case ByQuery(name, value) => "query:" + name + ":" + value
    case ByAddress(address) => "ip:" + address
  }

  lemma {:induction false} FirstHeader(names: seq<string>, a: Arrival) returns (i: nat)
    ensures i <= |names| && forall j | 0 <= j < i :: HeaderValue(a, names[j]) == ""
    ensures HeaderText(names, a.headers) ==
            if i == |names| then None else Some("header:" + names[i] + ":" + HeaderValue(a, names[i]))
    ensures i < |names| ==> HeaderValue(a, names[i]) != ""
  {
    if names == [] || HeaderValue(a, names[0]) != "" {
      i := 0;
    } else {
      i := FirstHeader(names[1..], a);
      i := i + 1;
      assert forall j | 1 <= j < |names| :: names[j] == names[1..][j - 1];
    }
  }

  lemma {:induction false} FirstQuery(names: seq<string>, a: Arrival) returns (i: nat)
    ensures i <= |names| && forall j | 0 <= j < i :: !CarriesQuery(a, names[j])
    ensures i < |names| ==> CarriesQuery(a, names[i])
    ensures QueryText(names, a.query) ==
            if i == |names| then None else Some("query:" + names[i] + ":" + a.query[names[i]])
  {
    if names == [] || CarriesQuery(a, names[0]) {
      i := 0;
    } else {
      i := FirstQuery(names[1..], a);
      i := i + 1;
      assert forall j | 1 <= j < |names| :: names[j] == names[1..][j - 1];
    }
  }

  lemma AuthorizationIsLower()
    ensures ToLower("authorization") == "authorization"
  {
    assert ToLower("authorization") == "authorization";
  }

  /** The credential text is the text of what the request presents. */
  lemma TextIsPresented(allow: Allow, a: Arrival) returns (x: Presented)
    ensures Presents(allow, a, x) && CredentialText(allow, a) == TextOf(x)
  {
    AuthorizationIsLower();
    var i := FirstHeader(allow.header, a);
    var j := FirstQuery(allow.query, a);
    if UsesAuthorization(allow, a) {
      x := ByAuthorization(HeaderValue(a, "authorization"));
    } else if i < |allow.header| {
      x := ByHeader(allow.header[i], HeaderValue(a, allow.header[i]));
    } else if j < |allow.query| {
      x := ByQuery(allow.query[j], a.query[allow.query[j]]);
    } else {
      x := ByAddress(a.remoteAddr);
    }
  }

  /** A request presents one thing only. */
  lemma PresentsOne(allow: Allow, a: Arrival, x: Presented, y: Presented)
    requires Presents(allow, a, x) && Presents(allow, a, y)
    ensures x == y
  {
  }

  /** No separator in the parts, and no ':' in the name. */
  predicate PlainPresented(x: Presented) {
    match x
    case ByAuthorization(value) => PipeFree(value)
    case ByHeader(name, value) => ':' !in name && PipeFree(name) && PipeFree(value)
    case ByQuery(name, value) => ':' !in name && PipeFree(name) && PipeFree(value)
    case ByAddress(address) => PipeFree(address)
  }

  /** The kind of a credential and what stands after it. */
  function KindText(x: Presented): (string, string) {
    match x
    case ByAuthorization(value) => ("auth", value)
    case ByHeader(name, value) => ("header", name + ":" + value)
    case ByQuery(name, value) => ("query", name + ":" + value)
    case ByAddress(address) => ("ip", address)
  }

  lemma TextIsKind(x: Presented)
    ensures var (kind, rest) := KindText(x); TextOf(x) == kind + [':'] + rest && ':' !in kind && PipeFree(kind)
  {
  }

  lemma SameKind(x: Presented, y: Presented)
    requires TextOf(x) == TextOf(y)
    ensures KindText(x) == KindText(y)
  {
    TextIsKind(x);
    TextIsKind(y);
    CutAt(KindText(x).0, ':', KindText(x).1);
    CutAt(KindText(y).0, ':', KindText(y).1);
  }

  /** The text tells what was presented. */
  lemma TextOfInjective(x: Presented, y: Presented)
    requires PlainPresented(x) && PlainPresented(y) && TextOf(x) == TextOf(y)
    ensures x == y
  {
    SameKind(x, y);
    assert "auth"[0] == 'a' && "header"[0] == 'h' && "query"[0] == 'q' && "ip"[0] == 'i';
    if x.ByHeader? || x.ByQuery? {
      SameNamed(x.name, x.value, y.name, y.value);
    }
  }

  lemma SameNamed(n: string, v: string, n': string, v': string)
    requires ':' !in n && ':' !in n' && n + ":" + v == n' + ":" + v'
    ensures n == n' && v == v'
  {
    CutAt(n, ':', v);
    CutAt(n', ':', v');
    assert n + ":" + v == n + [':'] + v && n' + ":" + v' == n' + [':'] + v';
  }

  lemma PlainText(x: Presented)
    requires PlainPresented(x)
    ensures PipeFree(TextOf(x))
  {
  }

  /** What the request presents has no separators. */
  ghost predicate PresentsPlainly(allow: Allow, a: Arrival) {
    exists x :: Presents(allow, a, x) && PlainPresented(x)
  }

  /** Both requests present the same. */
  ghost predicate PresentTheSame(allow: Allow, a: Arrival, allow': Allow, b: Arrival) {
    exists x :: Presents(allow, a, x) && Presents(allow', b, x)
  }

  /** Requests that share a credential text present the same. */
  lemma SameCredential(allow: Allow, a: Arrival, allow': Allow, b: Arrival)
    requires PresentsPlainly(allow, a) && PresentsPlainly(allow', b)
    requires CredentialText(allow, a) == CredentialText(allow', b)
    ensures PresentTheSame(allow, a, allow', b)
  {
    var x := TextIsPresented(allow, a);
    var y := TextIsPresented(allow', b);
    PlainPresents(allow, a, x);
    PlainPresents(allow', b, y);
    TextOfInjective(x, y);
  }

  lemma PlainPresents(allow: Allow, a: Arrival, x: Presented)
    requires PresentsPlainly(allow, a) && Presents(allow, a, x)
    ensures PlainPresented(x)
  {
    var y :| Presents(allow, a, y) && PlainPresented(y);
    PresentsOne(allow, a, x, y);
  }

  lemma PlainCredential(allow: Allow, a: Arrival)
    requires PresentsPlainly(allow, a)
    ensures PipeFree(CredentialText(allow, a))
  {
    var x := TextIsPresented(allow, a);
    PlainPresents(allow, a, x);
    PlainText(x);
  }

  // ---- The raw text ----

  function RawText(credential: string, endpoint: string, path: string): string {
    credential + "|" + endpoint + "|" + path
  }

  lemma RawIsJoin(credential: string, endpoint: string, path: string)
    ensures RawText(credential, endpoint, path) == Join([credential, endpoint, path], "|")
  {
    var parts := [credential, endpoint, path];
    assert parts[1..] == [endpoint, path] && [endpoint, path][1..] == [path];
    assert Join([endpoint, path], "|") == endpoint + "|" + path;
    assert credential + "|" + (endpoint + "|" + path) == credential + "|" + endpoint + "|" + path;
  }

  /** Without separators the raw text tells credential, endpoint and path. */
  lemma RawInjective(c: string, e: string, p: string, c': string, e': string, p': string)
    requires PipeFree(c) && PipeFree(e) && PipeFree(p) && PipeFree(c') && PipeFree(e') && PipeFree(p')
    requires RawText(c, e, p) == RawText(c', e', p')
    ensures c == c' && e == e' && p == p'
  {
    RawIsJoin(c, e, p);
    RawIsJoin(c', e', p');
    SplitJoinExact([c, e, p], '|');
    SplitJoinExact([c', e', p'], '|');
    assert [c, e, p][0] == c && [c, e, p][1] == e && [c, e, p][2] == p;
    assert [c', e', p'][0] == c' && [c', e', p'][1] == e' && [c', e', p'][2] == p';
  }

  /**
    With them, a credential at one path shares its text with another credential at another path of the same endpoint.
   */
  lemma PipesCollide(c: string, e: string, p: string, q: string)
    ensures c + "|" + e + "|" + p != c
    ensures RawText(c + "|" + e + "|" + p, e, q) == RawText(c, e, p + "|" + e + "|" + q)
  {
    assert |c + "|" + e + "|" + p| > |c|;
    var tail := "|" + e + "|" + q;
    assert RawText(c + "|" + e + "|" + p, e, q) == c + "|" + e + "|" + p + tail;
    assert RawText(c, e, p + "|" + e + "|" + q) == c + "|" + e + "|" + (p + tail);
  }

  /** Exactly the requests without separators have a raw text of their own. */
  lemma RawUniqueIff(c: string, e: string, p: string)
    ensures (forall c', e', p' | RawText(c', e', p') == RawText(c, e, p) :: c' == c && e' == e && p' == p)
            <==> PipeFree(c) && PipeFree(e) && PipeFree(p)
  {
    if PipeFree(c) && PipeFree(e) && PipeFree(p) {
      forall c', e', p' | RawText(c', e', p') == RawText(c, e, p) ensures c' == c && e' == e && p' == p {
        OnlyTwoPipes(c, e, p, c', e', p');
        RawInjective(c, e, p, c', e', p');
      }
    } else {
      var c', e', p' := AnotherReading(c, e, p);
    }
  }

  /** A text with a separator in two pieces. */
  lemma Pieces(s: string) returns (x: string, y: string)
    requires !PipeFree(s)
    ensures s == x + "|" + y && |x| < |s|
  {
    var i :| 0 <= i < |s| && s[i] == '|';
    x, y := s[..i], s[i + 1..];
  }

  /** A separator inside one part can be taken for one between the parts. */
  lemma AnotherReading(c: string, e: string, p: string) returns (c': string, e': string, p': string)
    requires !(PipeFree(c) && PipeFree(e) && PipeFree(p))
    ensures RawText(c', e', p') == RawText(c, e, p) && (c' != c || e' != e)
  {
    if !PipeFree(c) {
      var x, y := Pieces(c);
      c', e', p' := x, y, e + "|" + p;
      assert x + "|" + y + "|" + (e + "|" + p) == x + "|" + y + "|" + e + "|" + p;
    } else if !PipeFree(e) {
      var x, y := Pieces(e);
      c', e', p' := c, x, y + "|" + p;
      assert c + "|" + x + "|" + (y + "|" + p) == c + "|" + (x + "|" + y) + "|" + p;
    } else {
      var x, y := Pieces(p);
      c', e', p' := c + "|" + e, x, y;
      assert c + "|" + e + "|" + x + "|" + y == c + "|" + e + "|" + (x + "|" + y);
      assert |c'| > |c|;
    }
  }

  /** A text that can be read without further separators leaves none for the parts of another reading. */
  lemma OnlyTwoPipes(c: string, e: string, p: string, c': string, e': string, p': string)
    requires PipeFree(c) && PipeFree(e) && PipeFree(p) && RawText(c', e', p') == RawText(c, e, p)
    ensures PipeFree(c') && PipeFree(e') && PipeFree(p')
  {
    var raw := RawText(c, e, p);
    assert multiset(raw)['|'] == 2 by {
      assert multiset(raw) == multiset(c) + multiset("|") + multiset(e) + multiset("|") + multiset(p);
    }
    assert multiset(raw) == multiset(c') + multiset("|") + multiset(e') + multiset("|") + multiset(p');
  }
}
