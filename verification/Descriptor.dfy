/** The canonical text of a backend request, whose hash becomes part of a rule's cache key. */
module Descriptor {
  import opened Wrappers
  import opened Text
  import opened Order

  datatype BackendDescriptor = BackendDescriptor(verb: string, url: string, headers: map<string, string>, body: string)

  predicate Excluded(exclude: seq<string>, name: string) {
    exists i | 0 <= i < |exclude| :: ToLower(exclude[i]) == ToLower(name)
  }

  /** The headers that take part in the text. */
  function Kept(headers: map<string, string>, exclude: seq<string>): map<string, string> {
    map k | k in headers && !Excluded(exclude, k) :: headers[k]
  }

  function Fields(keys: seq<string>, headers: map<string, string>): (r: seq<string>)
    requires forall k | k in keys :: k in headers
    ensures |r| == |keys|
  {
    if keys == [] then [] else [keys[0] + ":" + headers[keys[0]]] + Fields(keys[1..], headers)
  }

  /**
    The text of a request.  By its arguments alone it depends on the method, the URL, the body and
    the kept headers as a map, and on nothing else.
   */
  ghost function Canonical(verb: string, url: string, kept: map<string, string>, body: string): string {
    verb + "|" + url + "|" + Join(KeptFields(kept), "|") + "|" + body
  }

  ghost function KeptFields(kept: map<string, string>): seq<string> {
    ListingKeys(kept);
    Fields(Listing(kept.Keys), kept)
  }

  /** The loops of the source: build the exclusion set, collect keys in any map order, sort, write piece by piece. */
  method CanonicalText(d: BackendDescriptor, excludeHeaders: seq<string>) returns (text: string)
    ensures text == Canonical(d.verb, d.url, Kept(d.headers, excludeHeaders), d.body)
  {
    var exclude := LowerAll(excludeHeaders);
    var keys := CollectKeys(d.headers, exclude);
    ghost var kept := Kept(d.headers, excludeHeaders);
    assert (set k | k in d.headers && ToLower(k) !in exclude) == kept.Keys;
    SortIsListing(keys, kept.Keys);
    ListingKeys(kept);
    var parts := WriteFields(Sort(keys), d.headers);
    FieldsAgree(Listing(kept.Keys), d.headers, kept);
    text := d.verb + "|" + d.url + "|" + Join(parts, "|") + "|" + d.body;
  }

  method LowerAll(names: seq<string>) returns (lowered: set<string>)
    ensures forall k :: ToLower(k) in lowered <==> Excluded(names, k)
  {
    lowered := {};
    for i := 0 to |names|
      invariant lowered == set j | 0 <= j < i :: ToLower(names[j])
    {
      lowered := lowered + {ToLower(names[i])};
    }
  }

  method WriteFields(keys: seq<string>, headers: map<string, string>) returns (parts: seq<string>)
    requires forall k | k in keys :: k in headers
    ensures parts == Fields(keys, headers)
  {
    parts := [];
    assert keys[0..] == keys;
    for i := 0 to |keys|
      invariant Fields(keys, headers) == parts + Fields(keys[i..], headers)
    {
      parts := parts + [keys[i] + ":" + headers[keys[i]]];
      assert keys[i..][1..] == keys[i + 1..];
    }
  }

  lemma {:induction false} FieldsAgree(keys: seq<string>, m: map<string, string>, n: map<string, string>)
    requires forall k | k in keys :: k in m && k in n && m[k] == n[k]
    ensures Fields(keys, m) == Fields(keys, n)
  {
    if keys != [] {
      FieldsAgree(keys[1..], m, n);
    }
  }

  method CollectKeys(headers: map<string, string>, exclude: set<string>) returns (keys: seq<string>)
    ensures multiset(keys) == multiset(set k | k in headers && ToLower(k) !in exclude)
  {
    keys := [];
    var todo := headers.Keys;
    ghost var done: set<string> := {};
    while todo != {}
      invariant todo !! done && todo + done == headers.Keys
      invariant multiset(keys) == multiset(set k | k in done && ToLower(k) !in exclude)
      decreases |todo|
    {
      var k :| k in todo;
      ghost var before := set x | x in done && ToLower(x) !in exclude;
      todo, done := todo - {k}, done + {k};
      ghost var after := set x | x in done && ToLower(x) !in exclude;
      if ToLower(k) !in exclude {
        keys := keys + [k];
        assert after == before + {k};
      } else {
        assert after == before;
      }
    }
    assert done == headers.Keys;
  }

  // ---- Different requests have different texts ----

  /** No separator occurs where it could be mistaken for another; a '|' in a header name cannot. */
  predicate Clean(verb: string, url: string, kept: map<string, string>, body: string) {
    && '|' !in verb && '|' !in url && '|' !in body
    && forall k | k in kept :: ':' !in k && '|' !in kept[k]
  }

  /** What follows a value in the text: nothing, or a separator and the next field. */
  predicate Tail(s: string) { s == "" || s[0] == '|' }

  lemma TailStarts(v: string, tail: string)
    requires tail != "" && tail[0] == '|'
    ensures v + tail == v + ['|'] + tail[1..]
  {
    assert tail == ['|'] + tail[1..];
  }

  lemma ValueEnds(v: string, tail: string)
    requires '|' !in v && Tail(tail)
    ensures Find(v + tail, '|') == |v|
  {
    if tail == "" {
      assert v + tail == v;
    } else {
      TailStarts(v, tail);
      FindIsFirst(v, '|', tail[1..]);
    }
  }

  lemma SameValue(v: string, tail: string, v': string, tail': string)
    requires '|' !in v && '|' !in v' && Tail(tail) && Tail(tail') && v + tail == v' + tail'
    ensures v == v' && tail == tail'
  {
    ValueEnds(v, tail);
    ValueEnds(v', tail');
    assert v == (v + tail)[..|v|] && v' == (v' + tail')[..|v'|];
    assert tail == (v + tail)[|v|..] && tail' == (v' + tail')[|v'|..];
  }

  function RestText(keys: seq<string>, headers: map<string, string>): string
    requires forall k | k in keys :: k in headers
  {
    if keys == [] then "" else "|" + Join(Fields(keys, headers), "|")
  }

  /** The text of the fields, from the first name on. */
  lemma FirstField(keys: seq<string>, headers: map<string, string>)
    requires keys != [] && forall k | k in keys :: k in headers
    ensures Join(Fields(keys, headers), "|") == keys[0] + [':'] + (headers[keys[0]] + RestText(keys[1..], headers))
  {
    var k, v, rest := keys[0], headers[keys[0]], Fields(keys[1..], headers);
    JoinFirst(k + ":" + v, rest);
    FieldSpelled(k, v, RestText(keys[1..], headers));
  }

  lemma JoinFirst(f: string, rest: seq<string>)
    ensures Join([f] + rest, "|") == f + if rest == [] then "" else "|" + Join(rest, "|")
  {
    assert ([f] + rest)[1..] == rest;
    if rest != [] {
      assert f + "|" + Join(rest, "|") == f + ("|" + Join(rest, "|"));
    }
  }

  lemma FieldSpelled(k: string, v: string, rest: string)
    ensures k + ":" + v + rest == k + [':'] + (v + rest)
  {
  }

  lemma NoFields(keys: seq<string>, headers: map<string, string>)
    requires forall k | k in keys :: k in headers
    ensures Join(Fields(keys, headers), "|") == "" <==> keys == []
  {
    if keys != [] {
      FirstField(keys, headers);
    }
  }

  /** Equal texts of the fields come from equal names and values. */
  lemma {:induction false} FieldsInjective(a: seq<string>, m: map<string, string>,
                                           b: seq<string>, n: map<string, string>)
    requires forall k | k in a :: k in m && ':' !in k && '|' !in m[k]
    requires forall k | k in b :: k in n && ':' !in k && '|' !in n[k]
    requires Join(Fields(a, m), "|") == Join(Fields(b, n), "|")
    ensures a == b && forall k | k in a :: m[k] == n[k]
  {
    NoFields(a, m);
    NoFields(b, n);
    if a != [] {
      FirstField(a, m);
      FirstField(b, n);
      SameField(a[0], m[a[0]], RestText(a[1..], m), b[0], n[b[0]], RestText(b[1..], n));
      SameRest(a[1..], m, b[1..], n);
      FieldsInjective(a[1..], m, b[1..], n);
      assert a == [a[0]] + a[1..] && b == [b[0]] + b[1..];
    }
  }

  lemma SameField(k: string, v: string, rest: string, k': string, v': string, rest': string)
    requires ':' !in k && ':' !in k' && '|' !in v && '|' !in v' && Tail(rest) && Tail(rest')
    requires k + [':'] + (v + rest) == k' + [':'] + (v' + rest')
    ensures k == k' && v == v' && rest == rest'
  {
    CutAt(k, ':', v + rest);
    CutAt(k', ':', v' + rest');
    SameValue(v, rest, v', rest');
  }

  lemma SameRest(a: seq<string>, m: map<string, string>, b: seq<string>, n: map<string, string>)
    requires (forall k | k in a :: k in m) && (forall k | k in b :: k in n) && RestText(a, m) == RestText(b, n)
    ensures Join(Fields(a, m), "|") == Join(Fields(b, n), "|")
  {
    if a != [] {
      assert Join(Fields(a, m), "|") == RestText(a, m)[1..];
    }
    if b != [] {
      assert Join(Fields(b, n), "|") == RestText(b, n)[1..];
    }
  }

  lemma SameKept(kept: map<string, string>, kept': map<string, string>)
    requires forall k | k in kept :: ':' !in k && '|' !in kept[k]
    requires forall k | k in kept' :: ':' !in k && '|' !in kept'[k]
    requires Join(KeptFields(kept), "|") == Join(KeptFields(kept'), "|")
    ensures kept == kept'
  {
    ListingKeys(kept);
    ListingKeys(kept');
    FieldsInjective(Listing(kept.Keys), kept, Listing(kept'.Keys), kept');
    SameMaps(Listing(kept.Keys), kept, kept');
  }

  lemma SameMaps(keys: seq<string>, m: map<string, string>, n: map<string, string>)
    requires (forall k :: k in keys <==> k in m) && (forall k :: k in keys <==> k in n)
    requires forall k | k in keys :: m[k] == n[k]
    ensures m == n
  {
    assert m.Keys == n.Keys;
  }

  /** What stands after the last separator is determined. */
  lemma SameBody(fields: string, body: string, fields': string, body': string)
    requires '|' !in body && '|' !in body' && fields + "|" + body == fields' + "|" + body'
    ensures fields == fields' && body == body'
  {
    var whole := fields + "|" + body;
    assert whole[|fields|] == '|' && whole[|fields'|] == '|';
    assert forall i | |fields| < i < |whole| :: whole[i] == body[i - |fields| - 1];
    assert forall i | |fields'| < i < |whole| :: whole[i] == body'[i - |fields'| - 1];
    assert |fields| == |fields'|;
    assert fields == whole[..|fields|] && fields' == whole[..|fields'|];
    assert body == whole[|fields| + 1..] && body' == whole[|fields'| + 1..];
  }

  lemma Unfolded(verb: string, url: string, kept: map<string, string>, body: string)
    ensures Canonical(verb, url, kept, body)
      == verb + ['|'] + (url + ['|'] + (Join(KeptFields(kept), "|") + "|" + body))
  {
  }

  /** Equal texts of clean requests come from the same method, URL, kept headers and body. */
  lemma CanonicalInjective(verb: string, url: string, kept: map<string, string>, body: string,
                           verb': string, url': string, kept': map<string, string>, body': string)
    requires Clean(verb, url, kept, body) && Clean(verb', url', kept', body')
    requires Canonical(verb, url, kept, body) == Canonical(verb', url', kept', body')
    ensures verb == verb' && url == url' && kept == kept' && body == body'
  {
    Unfolded(verb, url, kept, body);
    Unfolded(verb', url', kept', body');
    var f, f' := Join(KeptFields(kept), "|"), Join(KeptFields(kept'), "|");
    SameStart(verb, url, f + "|" + body, verb', url', f' + "|" + body');
    SameBody(f, body, f', body');
    SameKept(kept, kept');
  }

  lemma SameStart(verb: string, url: string, rest: string, verb': string, url': string, rest': string)
    requires '|' !in verb && '|' !in verb' && '|' !in url && '|' !in url'
    requires verb + ['|'] + (url + ['|'] + rest) == verb' + ['|'] + (url' + ['|'] + rest')
    ensures verb == verb' && url == url' && rest == rest'
  {
    CutAt(verb, '|', url + ['|'] + rest);
    CutAt(verb', '|', url' + ['|'] + rest');
    CutAt(url, '|', rest);
    CutAt(url', '|', rest');
  }

  // ---- Every separator that Clean forbids can be mistaken ----

  /** The text of a request with two headers. */
  lemma TwoHeaderText(verb: string, url: string, k: string, v: string, l: string, w: string, body: string)
    requires k != l && Below(k, l)
    ensures Canonical(verb, url, map[k := v, l := w], body)
      == verb + "|" + url + "|" + (k + ":" + v + "|" + (l + ":" + w)) + "|" + body
  {
    TwoFields(k, v, l, w);
    JoinTwo(k + ":" + v, l + ":" + w);
  }

  lemma OneHeaderText(verb: string, url: string, k: string, v: string, body: string)
    ensures Canonical(verb, url, map[k := v], body) == verb + "|" + url + "|" + (k + ":" + v) + "|" + body
  {
    OneField(k, v);
  }

  /** A '|' in the method shares the text of a clean request with one header more. */
  lemma PipeInMethodCollides(a: string, b: string, k: string, v: string, l: string, w: string, body: string)
    requires k != l && Below(k, l)
    ensures Canonical(a + "|" + b, k + ":" + v, map[l := w], body) == Canonical(a, b, map[k := v, l := w], body)
    ensures map[l := w] != map[k := v, l := w]
  {
    TwoHeaderText(a, b, k, v, l, w, body);
    OneHeaderText(a + "|" + b, k + ":" + v, l, w, body);
    assert k in map[k := v, l := w] && k !in map[l := w];
    MethodSpelled(a + "|" + b, k + ":" + v, l + ":" + w, body);
  }

  lemma MethodSpelled(start: string, f: string, g: string, body: string)
    ensures start + "|" + f + "|" + g + "|" + body == start + "|" + (f + "|" + g) + "|" + body
  {
  }

  /** A '|' in the URL does too. */
  lemma PipeInUrlCollides(a: string, b: string, k: string, v: string, l: string, w: string, body: string)
    requires k != l && Below(k, l)
    ensures Canonical(a, b + "|" + (k + ":" + v), map[l := w], body) == Canonical(a, b, map[k := v, l := w], body)
    ensures map[l := w] != map[k := v, l := w]
  {
    TwoHeaderText(a, b, k, v, l, w, body);
    OneHeaderText(a, b + "|" + (k + ":" + v), l, w, body);
    assert k in map[k := v, l := w] && k !in map[l := w];
    UrlSpelled(a, b, k + ":" + v, l + ":" + w, body);
  }

  lemma UrlSpelled(a: string, b: string, f: string, g: string, body: string)
    ensures a + "|" + (b + "|" + f) + "|" + g + "|" + body == a + "|" + b + "|" + (f + "|" + g) + "|" + body
  {
  }

  /** A '|' in the body does too. */
  lemma PipeInBodyCollides(a: string, b: string, k: string, v: string, l: string, w: string, body: string)
    requires k != l && Below(k, l)
    ensures Canonical(a, b, map[k := v], l + ":" + w + "|" + body) == Canonical(a, b, map[k := v, l := w], body)
    ensures map[k := v] != map[k := v, l := w]
  {
    TwoHeaderText(a, b, k, v, l, w, body);
    OneHeaderText(a, b, k, v, l + ":" + w + "|" + body);
    assert l in map[k := v, l := w] && l !in map[k := v];
    BodySpelled(a + "|" + b, k + ":" + v, l + ":" + w, body);
  }

  lemma BodySpelled(start: string, f: string, g: string, body: string)
    ensures start + "|" + f + "|" + (g + "|" + body) == start + "|" + (f + "|" + g) + "|" + body
  {
  }

  /** A value can spell a whole field. */
  lemma PipeInValueCollides(a: string, b: string, k: string, v: string, l: string, w: string, body: string)
    requires k != l && Below(k, l)
    ensures Canonical(a, b, map[k := v + "|" + l + ":" + w], body) == Canonical(a, b, map[k := v, l := w], body)
    ensures map[k := v + "|" + l + ":" + w] != map[k := v, l := w]
  {
    assert l in map[k := v, l := w] && l !in map[k := v + "|" + l + ":" + w];
    TwoHeaderText(a, b, k, v, l, w, body);
    OneHeaderText(a, b, k, v + "|" + l + ":" + w, body);
    Spelled(k, v, l, w);
  }

  lemma Spelled(k: string, v: string, l: string, w: string)
    ensures k + ":" + (v + "|" + l + ":" + w) == (k + ":" + v) + "|" + (l + ":" + w)
  {
  }

  /** A ':' in a header name can be the one before the value. */
  lemma ColonInNameCollides(a: string, b: string, k: string, x: string, v: string, body: string)
    ensures Canonical(a, b, map[k + ":" + x := v], body) == Canonical(a, b, map[k := x + ":" + v], body)
    ensures map[k + ":" + x := v] != map[k := x + ":" + v]
  {
    OneHeaderText(a, b, k + ":" + x, v, body);
    OneHeaderText(a, b, k, x + ":" + v, body);
    assert k + ":" + x + ":" + v == k + ":" + (x + ":" + v);
    assert |k + ":" + x| > |k|;
    assert k in map[k := x + ":" + v] && k !in map[k + ":" + x := v];
  }

  lemma JoinTwo(a: string, b: string)
    ensures Join([a, b], "|") == a + "|" + b
  {
    assert [a, b][1..] == [b];
  }

  lemma OneField(k: string, v: string)
    ensures KeptFields(map[k := v]) == [k + ":" + v]
  {
    assert multiset([k]) == multiset(map[k := v].Keys);
    SortedIsUnique(Listing(map[k := v].Keys), [k]);
  }

  lemma TwoFields(k: string, v: string, l: string, w: string)
    requires k != l && Below(k, l)
    ensures KeptFields(map[k := v, l := w]) == [k + ":" + v, l + ":" + w]
  {
    var m := map[k := v, l := w];
    assert m.Keys == {k, l} && multiset([k, l]) == multiset(m.Keys);
    SortedIsUnique(Listing(m.Keys), [k, l]);
    assert [k, l][1..] == [l] && Fields([l], m) == [l + ":" + w];
  }

  /** The two header maps differ at most in excluded names. */
  ghost predicate AgreeBeyond(exclude: seq<string>, m: map<string, string>, n: map<string, string>) {
    forall k | !Excluded(exclude, k) :: (k in m <==> k in n) && (k in m ==> m[k] == n[k])
  }

  lemma KeptIff(exclude: seq<string>, m: map<string, string>, n: map<string, string>)
    ensures Kept(m, exclude) == Kept(n, exclude) <==> AgreeBeyond(exclude, m, n)
  {
    var a, b := Kept(m, exclude), Kept(n, exclude);
    if a == b {
      forall k | !Excluded(exclude, k) ensures (k in m <==> k in n) && (k in m ==> m[k] == n[k]) {
        assert k in m <==> k in a;
        assert k in n <==> k in b;
      }
    }
  }

  /** Clean requests share a text if and only if they differ at most in excluded headers. */
  lemma ShareTextIff(d: BackendDescriptor, e: BackendDescriptor, exclude: seq<string>)
    requires Clean(d.verb, d.url, Kept(d.headers, exclude), d.body)
    requires Clean(e.verb, e.url, Kept(e.headers, exclude), e.body)
    ensures var a, b := Kept(d.headers, exclude), Kept(e.headers, exclude);
      Canonical(d.verb, d.url, a, d.body) == Canonical(e.verb, e.url, b, e.body)
      <==> d.verb == e.verb && d.url == e.url && d.body == e.body && AgreeBeyond(exclude, d.headers, e.headers)
  {
    var a, b := Kept(d.headers, exclude), Kept(e.headers, exclude);
    KeptIff(exclude, d.headers, e.headers);
    if Canonical(d.verb, d.url, a, d.body) == Canonical(e.verb, e.url, b, e.body) {
      CanonicalInjective(d.verb, d.url, a, d.body, e.verb, e.url, b, e.body);
    }
  }

  // ---- Which headers a rule's key leaves out ----

  const TRACING := [
    "traceparent", "tracestate", "x-b3-traceid", "x-b3-spanid", "x-b3-parentspanid", "x-b3-sampled",
    "x-b3-flags", "x-cloud-trace-context", "x-amzn-trace-id", "uber-trace-id", "x-request-start", "x-timer"]

  const PROXY := [
    "forwarded", "x-forwarded-for", "x-forwarded-host", "x-forwarded-proto", "x-forwarded-port",
    "x-forwarded-prefix", "x-real-ip", "x-original-forwarded-for", "true-client-ip",
    "cf-ray", "cf-connecting-ip", "cf-ipcountry", "cf-visitor"]

  function ExcludedNames(correlation: string, includeProxy: Option<bool>): seq<string> {
    TRACING
    + (if includeProxy == Some(false) then PROXY else [])
    + (if correlation != "" then [correlation] else [])
  }

  lemma ExcludedAppend(a: seq<string>, b: seq<string>, name: string)
    ensures Excluded(a + b, name) <==> Excluded(a, name) || Excluded(b, name)
  {
    var both := a + b;
    assert forall i | 0 <= i < |a| :: both[i] == a[i];
    assert forall i | 0 <= i < |b| :: both[|a| + i] == b[i];
  }

  /**
    Tracing headers and the correlation header never show in the text; proxy headers show unless that is switched off.
   */
  lemma LeftOutIff(correlation: string, includeProxy: Option<bool>, name: string)
    ensures Excluded(ExcludedNames(correlation, includeProxy), name) <==>
      || Excluded(TRACING, name)
      || (includeProxy == Some(false) && Excluded(PROXY, name))
      || (correlation != "" && ToLower(name) == ToLower(correlation))
  {
    var proxy := if includeProxy == Some(false) then PROXY else [];
    var last := if correlation != "" then [correlation] else [];
    ExcludedAppend(TRACING + proxy, last, name);
    ExcludedAppend(TRACING, proxy, name);
    assert Excluded(last, name) <==> correlation != "" && ToLower(last[0]) == ToLower(name);
  }
}
