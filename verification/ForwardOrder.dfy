/** When the order of a forward list matters: exactly when two of its forwards write one name with different values. */
module ForwardOrder {
  import opened Wrappers
  import opened Text
  import opened Order
  import opened Credentials
  import opened State
  import opened RuleAuth

  /** The target a forward writes to, "" for an unknown type. */
  function ForwardKey(c: ForwardConfig): string {
    var kind := KindOf(c);
    if kind == "bearer" || kind == "basic" then "authorization"
    else if kind == "header" then "header:" + ToLower(Trim(c.name))
    else if kind == "query" then "query:" + Trim(c.name)
    else if kind == "none" then "none"
    else ""
  }

  ghost predicate Validated(configs: seq<ForwardConfig>) {
    && (forall i | 0 <= i < |configs| :: ForwardKey(configs[i]) != "")
    && (forall i, j | 0 <= i < j < |configs| :: ForwardKey(configs[i]) != ForwardKey(configs[j]))
  }

  method ValidateForwardAsArray(configs: seq<ForwardConfig>) returns (ok: bool)
    ensures ok <==> Validated(configs)
  {
    var keys := Keys(configs);
    ok := KnownAndDistinct(keys);
  }

  function Keys(configs: seq<ForwardConfig>): (keys: seq<string>)
    ensures |keys| == |configs| && forall i | 0 <= i < |configs| :: keys[i] == ForwardKey(configs[i])
  {
    seq(|configs|, i requires 0 <= i < |configs| => ForwardKey(configs[i]))
  }

  /** The validation loop, over the keys of the list. */
  method KnownAndDistinct(keys: seq<string>) returns (ok: bool)
    ensures ok <==> (forall i | 0 <= i < |keys| :: keys[i] != "")
                    && forall i, j | 0 <= i < j < |keys| :: keys[i] != keys[j]
  {
    var seen: set<string> := {};
    for i := 0 to |keys|
      invariant forall j | 0 <= j < i :: keys[j] != "" && keys[j] in seen
      invariant forall j, k | 0 <= j < k < i :: keys[j] != keys[k]
      invariant forall key | key in seen :: key in keys[..i]
    {
      if keys[i] == "" || keys[i] in seen {
        return false;
      }
      seen := seen + {keys[i]};
    }
    return true;
  }

  /** Rendering and applying a whole list; None is a failure of either. */
  function Outcome(encode: string -> string, configs: seq<ForwardConfig>, v: View, t: Target): Option<Target> {
    match RenderForwards(configs, v)
    case None => None
    case Some(fs) => Apply(encode, fs, t)
  }

  lemma {:induction false} RenderedMembers(configs: seq<ForwardConfig>, v: View)
    ensures RenderForwards(configs, v).Some? <==> forall c | c in configs :: RenderForward(c, v).Some?
    ensures RenderForwards(configs, v).Some? ==>
      forall f :: f in RenderForwards(configs, v).value <==> exists c :: c in configs && RenderForward(c, v) == Some(f)
  {
    if configs != [] {
      RenderedMembers(configs[1..], v);
      assert configs == [configs[0]] + configs[1..];
    }
  }

  ghost predicate AllRender(configs: seq<ForwardConfig>, v: View) {
    forall c | c in configs :: RenderForward(c, v).Some?
  }

  /** A list of which every forward renders is applied. */
  lemma RenderedApplies(encode: string -> string, configs: seq<ForwardConfig>, v: View, t: Target)
    ensures Outcome(encode, configs, v, t).Some? <==> AllRender(configs, v)
  {
    RenderedMembers(configs, v);
    if RenderForwards(configs, v).Some? {
      var fs := RenderForwards(configs, v).value;
      forall f | f in fs ensures Applicable(f) {
        var c :| c in configs && RenderForward(c, v) == Some(f);
        RenderedIsApplicable(c, v);
      }
      ApplyWritesLast(encode, fs, t);
    }
  }

  lemma RenderedIsApplicable(c: ForwardConfig, v: View)
    requires RenderForward(c, v).Some?
    ensures Applicable(RenderForward(c, v).value)
  {
  }

  // ---- When order matters, for any list ----

  /** Two forwards write one name with different values. */
  ghost predicate Clash(write: Writer, f: Forward, g: Forward) {
    && write(f).Some? && write(g).Some?
    && write(f).value.0 == write(g).value.0 && write(f).value.1 != write(g).value.1
  }

  ghost predicate Clashes(write: Writer, configs: seq<ForwardConfig>, v: View) {
    exists c, d :: c in configs && d in configs && RenderForward(c, v).Some? && RenderForward(d, v).Some?
      && Clash(write, RenderForward(c, v).value, RenderForward(d, v).value)
  }

  ghost predicate OrderDecides(encode: string -> string, configs: seq<ForwardConfig>, v: View) {
    AllRender(configs, v) && (Clashes(HeaderWriter(encode), configs, v) || Clashes(QueryWriter(), configs, v))
  }

  /** Without a clash the value written last does not depend on the order. */
  lemma SameLast(write: Writer, a: seq<ForwardConfig>, b: seq<ForwardConfig>, v: View, k: string)
    requires multiset(a) == multiset(b) && AllRender(a, v) && AllRender(b, v) && !Clashes(write, a, v)
    ensures RenderForwards(a, v).Some? && RenderForwards(b, v).Some?
    ensures LastWrite(write, RenderForwards(a, v).value, k) == LastWrite(write, RenderForwards(b, v).value, k)
  {
    RenderedMembers(a, v);
    RenderedMembers(b, v);
    SameMembers(a, b);
    var fs, gs := RenderForwards(a, v).value, RenderForwards(b, v).value;
    LastIsWritten(write, fs, k);
    LastIsWritten(write, gs, k);
    if LastWrite(write, fs, k).Some? && LastWrite(write, gs, k).Some? {
      var f :| f in fs && write(f) == Some((k, LastWrite(write, fs, k).value));
      var g :| g in gs && write(g) == Some((k, LastWrite(write, gs, k).value));
      var c :| c in a && RenderForward(c, v) == Some(f);
      var d :| d in a && RenderForward(d, v) == Some(g);
      assert !Clash(write, RenderForward(c, v).value, RenderForward(d, v).value);
    }
  }

  lemma SameOutcome(encode: string -> string, a: seq<ForwardConfig>, b: seq<ForwardConfig>, v: View, t: Target)
    requires multiset(a) == multiset(b) && !OrderDecides(encode, a, v)
    ensures Outcome(encode, a, v, t) == Outcome(encode, b, v, t)
  {
    RenderedApplies(encode, a, v, t);
    RenderedApplies(encode, b, v, t);
    SameMembers(a, b);
    if AllRender(a, v) {
      var r, s := Outcome(encode, a, v, t).value, Outcome(encode, b, v, t).value;
      ApplyWritesLast(encode, RenderForwards(a, v).value, t);
      ApplyWritesLast(encode, RenderForwards(b, v).value, t);
      forall k ensures ValueAt(r.headers, k) == ValueAt(s.headers, k) && ValueAt(r.query, k) == ValueAt(s.query, k) {
        SameLast(HeaderWriter(encode), a, b, v, k);
        SameLast(QueryWriter(), a, b, v, k);
      }
      EntriesDetermine(r.headers, s.headers);
      EntriesDetermine(r.query, s.query);
    }
  }

  lemma EntriesDetermine(m: map<string, string>, n: map<string, string>)
    requires forall k :: ValueAt(m, k) == ValueAt(n, k)
    ensures m == n
  {
    forall k ensures k in m <==> k in n {
      assert ValueAt(m, k) == ValueAt(n, k);
    }
    forall k | k in m ensures m[k] == n[k] {
      assert ValueAt(m, k) == ValueAt(n, k);
    }
  }

  lemma {:induction false} RenderedEnd(configs: seq<ForwardConfig>, c: ForwardConfig, v: View)
    requires AllRender(configs, v) && RenderForward(c, v).Some?
    ensures RenderForwards(configs, v).Some?
    ensures RenderForwards(configs + [c], v) == Some(RenderForwards(configs, v).value + [RenderForward(c, v).value])
  {
    var g, none: seq<Forward> := RenderForward(c, v).value, [];
    if configs == [] {
      assert configs + [c] == [c] && RenderForwards([c][1..], v) == Some(none);
      assert [g] + none == none + [g];
    } else {
      RenderedEnd(configs[1..], c, v);
      var f, fs := RenderForward(configs[0], v).value, RenderForwards(configs[1..], v).value;
      assert (configs + [c])[0] == configs[0] && (configs + [c])[1..] == configs[1..] + [c];
      assert [f] + (fs + [g]) == [f] + fs + [g];
    }
  }

  /** Moving a forward to the end makes its value the one that stays. */
  lemma MovedIsLast(write: Writer, a: seq<ForwardConfig>, i: nat, v: View)
    requires AllRender(a, v) && i < |a| && write(RenderForward(a[i], v).value).Some?
    ensures AllRender(ToEnd(a, i), v) && RenderForwards(ToEnd(a, i), v).Some?
    ensures var (k, x) := write(RenderForward(a[i], v).value).value;
      LastWrite(write, RenderForwards(ToEnd(a, i), v).value, k) == Some(x)
  {
    var rest := a[..i] + a[i + 1..];
    assert AllRender(rest, v);
    RenderedEnd(rest, a[i], v);
    var (k, x) := write(RenderForward(a[i], v).value).value;
    EndIsLast(write, RenderForwards(rest, v).value, RenderForward(a[i], v).value, k, x);
  }

  /** Of two forwards that clash, one can be moved to the end to change what stays. */
  lemma ClashMoves(write: Writer, a: seq<ForwardConfig>, v: View) returns (b: seq<ForwardConfig>, k: string)
    requires AllRender(a, v) && Clashes(write, a, v)
    ensures multiset(a) == multiset(b) && RenderForwards(a, v).Some? && RenderForwards(b, v).Some?
    ensures var x := LastWrite(write, RenderForwards(a, v).value, k);
      var y := LastWrite(write, RenderForwards(b, v).value, k);
      x.Some? && y.Some? && x != y
  {
    var c, d :| c in a && d in a && RenderForward(c, v).Some? && RenderForward(d, v).Some?
      && Clash(write, RenderForward(c, v).value, RenderForward(d, v).value);
    var f, g := RenderForward(c, v).value, RenderForward(d, v).value;
    k := write(f).value.0;
    RenderedMembers(a, v);
    LastIsWritten(write, RenderForwards(a, v).value, k);
    assert write(f) == Some((k, write(f).value.1));
    var x := LastWrite(write, RenderForwards(a, v).value, k);
    var other := if x == Some(write(f).value.1) then d else c;
    var i :| 0 <= i < |a| && a[i] == other;
    b := ToEnd(a, i);
    ToEndReorders(a, i);
    MovedIsLast(write, a, i, v);
  }

  lemma ClashShows(encode: string -> string, a: seq<ForwardConfig>, v: View, t: Target) returns (b: seq<ForwardConfig>)
    requires OrderDecides(encode, a, v)
    ensures multiset(a) == multiset(b) && Outcome(encode, a, v, t) != Outcome(encode, b, v, t)
  {
    var k;
    if Clashes(HeaderWriter(encode), a, v) {
      b, k := ClashMoves(HeaderWriter(encode), a, v);
    } else {
      b, k := ClashMoves(QueryWriter(), a, v);
    }
    RenderedApplies(encode, a, v, t);
    RenderedApplies(encode, b, v, t);
    SameMembers(a, b);
    ApplyWritesLast(encode, RenderForwards(a, v).value, t);
    ApplyWritesLast(encode, RenderForwards(b, v).value, t);
    var r, s := Outcome(encode, a, v, t).value, Outcome(encode, b, v, t).value;
    assert ValueAt(r.headers, k) != ValueAt(s.headers, k) || ValueAt(r.query, k) != ValueAt(s.query, k);
  }

  /** Some reordering changes what a list does if and only if all of it renders and two of its forwards clash. */
  lemma OrderMattersIff(encode: string -> string, a: seq<ForwardConfig>, v: View, t: Target)
    ensures (exists b :: multiset(a) == multiset(b) && Outcome(encode, a, v, t) != Outcome(encode, b, v, t))
            <==> OrderDecides(encode, a, v)
  {
    if OrderDecides(encode, a, v) {
      var b := ClashShows(encode, a, v, t);
    }
    forall b | multiset(a) == multiset(b) && Outcome(encode, a, v, t) != Outcome(encode, b, v, t)
      ensures OrderDecides(encode, a, v)
    {
      if !OrderDecides(encode, a, v) {
        SameOutcome(encode, a, b, v, t);
      }
    }
  }

  // ---- When order matters, for a validated list ----

  predicate Literal(c: ForwardConfig) { c.nameTemplate.None? }

  /** One of the types that own the Authorization header. */
  predicate Dedicated(c: ForwardConfig) { KindOf(c) == "bearer" || KindOf(c) == "basic" }

  /** A header forward that writes the Authorization header by name. */
  predicate ByName(c: ForwardConfig) { KindOf(c) == "header" && Trim(c.name) == "Authorization" }

  /** The list holds a dedicated forward and a header forward for Authorization, and they write different values. */
  ghost predicate Shadowed(encode: string -> string, configs: seq<ForwardConfig>, v: View) {
    exists c, d :: c in configs && d in configs && Dedicated(c) && ByName(d)
      && RenderForward(c, v).Some? && RenderForward(d, v).Some?
      && Clash(HeaderWriter(encode), RenderForward(c, v).value, RenderForward(d, v).value)
  }

  lemma KeysIdentify(configs: seq<ForwardConfig>, c: ForwardConfig, d: ForwardConfig)
    requires Validated(configs) && c in configs && d in configs && ForwardKey(c) == ForwardKey(d)
    ensures c == d
  {
    var i :| 0 <= i < |configs| && configs[i] == c;
    var j :| 0 <= j < |configs| && configs[j] == d;
  }

  /** What a forward with a literal name writes, by its kind. */
  lemma WritesByKind(encode: string -> string, c: ForwardConfig, v: View)
    requires Literal(c) && RenderForward(c, v).Some?
    ensures var h := HeaderSet(encode, RenderForward(c, v).value);
      && (h.Some? <==> Dedicated(c) || KindOf(c) == "header")
      && (Dedicated(c) ==> h.value.0 == "Authorization" && ForwardKey(c) == "authorization")
      && (KindOf(c) == "header" ==> h.value.0 == Trim(c.name) && ForwardKey(c) == "header:" + ToLower(h.value.0))
    ensures var q := QuerySet(RenderForward(c, v).value);
      (q.Some? <==> KindOf(c) == "query") && (q.Some? ==> ForwardKey(c) == "query:" + q.value.0)
  {
  }

  /** Two forwards of a validated list that write one header are the same, or one is dedicated and one by name. */
  lemma ValidatedWriters(encode: string -> string, configs: seq<ForwardConfig>, v: View, c: ForwardConfig,
                         d: ForwardConfig)
    requires Validated(configs) && (forall x | x in configs :: Literal(x)) && c in configs && d in configs
    requires RenderForward(c, v).Some? && RenderForward(d, v).Some?
    requires Clash(HeaderWriter(encode), RenderForward(c, v).value, RenderForward(d, v).value)
    ensures (Dedicated(c) && ByName(d)) || (Dedicated(d) && ByName(c))
  {
    WritesByKind(encode, c, v);
    WritesByKind(encode, d, v);
    if ForwardKey(c) == ForwardKey(d) {
      KeysIdentify(configs, c, d);
    }
  }

  lemma ValidatedQueries(encode: string -> string, configs: seq<ForwardConfig>, v: View, c: ForwardConfig,
                         d: ForwardConfig)
    requires Validated(configs) && (forall x | x in configs :: Literal(x)) && c in configs && d in configs
    requires RenderForward(c, v).Some? && RenderForward(d, v).Some?
    ensures !Clash(QueryWriter(), RenderForward(c, v).value, RenderForward(d, v).value)
  {
    WritesByKind(encode, c, v);
    WritesByKind(encode, d, v);
    if Clash(QueryWriter(), RenderForward(c, v).value, RenderForward(d, v).value) {
      KeysIdentify(configs, c, d);
    }
  }

  lemma ValidatedDecidesIff(encode: string -> string, configs: seq<ForwardConfig>, v: View)
    requires Validated(configs) && forall c | c in configs :: Literal(c)
    ensures OrderDecides(encode, configs, v) <==> AllRender(configs, v) && Shadowed(encode, configs, v)
  {
    if Clashes(HeaderWriter(encode), configs, v) {
      var c, d :| c in configs && d in configs && RenderForward(c, v).Some? && RenderForward(d, v).Some?
        && Clash(HeaderWriter(encode), RenderForward(c, v).value, RenderForward(d, v).value);
      ValidatedWriters(encode, configs, v, c, d);
      assert Clash(HeaderWriter(encode), RenderForward(d, v).value, RenderForward(c, v).value);
    }
    if Clashes(QueryWriter(), configs, v) {
      var c, d :| c in configs && d in configs && RenderForward(c, v).Some? && RenderForward(d, v).Some?
        && Clash(QueryWriter(), RenderForward(c, v).value, RenderForward(d, v).value);
      ValidatedQueries(encode, configs, v, c, d);
    }
  }

  /**
    For a validated list with literal names, some reordering changes what it does if and only if all of it
    renders and a bearer or basic forward and a header forward named Authorization write different values.
   */
  lemma ValidatedOrderMattersIff(encode: string -> string, a: seq<ForwardConfig>, v: View, t: Target)
    requires Validated(a) && forall c | c in a :: Literal(c)
    ensures (exists b :: multiset(a) == multiset(b) && Outcome(encode, a, v, t) != Outcome(encode, b, v, t))
            <==> AllRender(a, v) && Shadowed(encode, a, v)
  {
    OrderMattersIff(encode, a, v, t);
    ValidatedDecidesIff(encode, a, v);
  }

  /** In particular order never matters when no header forward targets authorization. */
  lemma OrderDoesNotMatter(encode: string -> string, a: seq<ForwardConfig>, b: seq<ForwardConfig>, v: View, t: Target)
    requires multiset(a) == multiset(b) && Validated(a) && forall c | c in a :: Literal(c)
    requires forall c | c in a && KindOf(c) == "header" :: ToLower(Trim(c.name)) != "authorization"
    ensures Outcome(encode, a, v, t) == Outcome(encode, b, v, t)
  {
    AuthorizationName();
    ValidatedDecidesIff(encode, a, v);
    SameOutcome(encode, a, b, v, t);
  }

  // ---- A pair that validation lets through ----

  function ShadowHeader(): ForwardConfig {
    ForwardConfig("header", "Authorization", None, _ => Some("mine"), _ => None, _ => None, _ => None)
  }

  function ShadowBearer(): ForwardConfig {
    ForwardConfig("bearer", "", None, _ => None, _ => Some("token"), _ => None, _ => None)
  }

  lemma ShadowRenders(v: View)
    ensures RenderForward(ShadowHeader(), v) == Some(HeaderForward("Authorization", "mine"))
    ensures RenderForward(ShadowBearer(), v) == Some(BearerForward("token"))
    ensures Validated([ShadowHeader(), ShadowBearer()])
  {
    TrimFixpoint("header");
    TrimFixpoint("bearer");
    TrimFixpoint("Authorization");
    TrimFixpoint("mine");
    TrimFixpoint("token");
    assert ToLower("header") == "header" && ToLower("bearer") == "bearer";
    assert ForwardKey(ShadowBearer()) == "authorization";
    assert ForwardKey(ShadowHeader())[0] == 'h';
  }

  /** Validation lets a header forward shadow a bearer forward. */
  lemma HeaderCanShadowBearer(encode: string -> string, v: View)
    ensures Validated([ShadowHeader(), ShadowBearer()]) && OrderDecides(encode, [ShadowHeader(), ShadowBearer()], v)
  {
    var h, b := ShadowHeader(), ShadowBearer();
    ShadowRenders(v);
    assert h in [h, b] && b in [h, b];
    assert "mine"[0] != ("Bearer " + "token")[0];
    assert Clash(HeaderWriter(encode), RenderForward(h, v).value, RenderForward(b, v).value);
  }
}
