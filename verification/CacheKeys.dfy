/** Cache keys: `namespace:epoch:digest|rule|backend-hash[|variables-hash]`. */
module CacheKeys {
  import opened Text
  import CacheControl

  function Digit(d: nat): char
    requires d < 10
  {
    "0123456789"[d]
  }

  /** %d */
  function Decimal(n: nat): string {
    if n < 10 then [Digit(n)] else Decimal(n / 10) + [Digit(n % 10)]
  }

  lemma {:induction false} DecimalReadsBack(n: nat)
    ensures CacheControl.DigitsValue(Decimal(n)) == n && ':' !in Decimal(n) && '|' !in Decimal(n) && Decimal(n) != ""
  {
    if n >= 10 {
      DecimalReadsBack(n / 10);
      assert Decimal(n)[..|Decimal(n)| - 1] == Decimal(n / 10);
    }
  }

  /** Every key of one pipeline starts with this. */
  function Prefix(namespace: string, epoch: nat): string { namespace + ":" + Decimal(epoch) + ":" }

  function BaseKey(namespace: string, epoch: nat, digest: string): string { Prefix(namespace, epoch) + digest }

  /** buildRuleCacheKey: the hash of the variables is a part only when there is one. */
  function Parts(base: string, rule: string, backendHash: string, upstreamHash: string): seq<string> {
    [base, rule, backendHash] + (if upstreamHash != "" then [upstreamHash] else [])
  }

  function RuleKey(base: string, rule: string, backendHash: string, upstreamHash: string): string {
    Join(Parts(base, rule, backendHash, upstreamHash), "|")
  }

  predicate PipeFree(s: string) { '|' !in s }

  lemma KeyShape(p: string, digest: string, rule: string, b: string, u: string)
    ensures RuleKey(p + digest, rule, b, u) == p + RuleKey(digest, rule, b, u)
  {
    var with, without := Parts(p + digest, rule, b, u), Parts(digest, rule, b, u);
    assert with[1..] == without[1..];
    var rest := Join(with[1..], "|");
    assert p + digest + "|" + rest == p + (digest + "|" + rest);
  }

  /**
    Two rules of one pipeline share a key only when base key, rule name and both hashes agree.  The
    namespace may be any text: what follows it is free of the separator.
   */
  lemma KeyInjective(p: string, digest: string, rule: string, b: string, u: string,
                     digest': string, rule': string, b': string, u': string)
    requires PipeFree(digest) && PipeFree(rule) && PipeFree(b) && PipeFree(u)
    requires PipeFree(digest') && PipeFree(rule') && PipeFree(b') && PipeFree(u')
    requires RuleKey(p + digest, rule, b, u) == RuleKey(p + digest', rule', b', u')
    ensures digest == digest' && rule == rule' && b == b' && u == u'
  {
    KeyShape(p, digest, rule, b, u);
    KeyShape(p, digest', rule', b', u');
    SameTail(p, RuleKey(digest, rule, b, u), RuleKey(digest', rule', b', u'));
    KeySplits(digest, rule, b, u);
    KeySplits(digest', rule', b', u');
    SameParts(digest, rule, b, u, digest', rule', b', u');
  }

  lemma SameTail(p: string, a: string, b: string)
    requires p + a == p + b
    ensures a == b
  {
    assert a == (p + a)[|p|..] && b == (p + b)[|p|..];
  }

  lemma KeySplits(digest: string, rule: string, b: string, u: string)
    requires PipeFree(digest) && PipeFree(rule) && PipeFree(b) && PipeFree(u)
    ensures Split(RuleKey(digest, rule, b, u), '|') == Parts(digest, rule, b, u)
  {
    SplitJoinExact(Parts(digest, rule, b, u), '|');
  }

  lemma SameParts(digest: string, rule: string, b: string, u: string, digest': string, rule': string, b': string,
                  u': string)
    requires Parts(digest, rule, b, u) == Parts(digest', rule', b', u')
    ensures digest == digest' && rule == rule' && b == b' && u == u'
  {
    var p, p' := Parts(digest, rule, b, u), Parts(digest', rule', b', u');
    assert p[0] == p'[0] && p[1] == p'[1] && p[2] == p'[2] && |p| == |p'|;
    if u != "" {
      assert p[3] == p'[3];
    }
  }

  /** A key starts with the prefix of the pipeline that made it. */
  lemma KeyHasPrefix(namespace: string, epoch: nat, digest: string, rule: string, b: string, u: string)
    ensures Prefix(namespace, epoch) <= RuleKey(BaseKey(namespace, epoch, digest), rule, b, u)
  {
    KeyShape(Prefix(namespace, epoch), digest, rule, b, u);
  }

  lemma EpochsDiffer(a: nat, b: nat, tail: string, tail': string)
    requires Decimal(a) + ":" + tail == Decimal(b) + ":" + tail'
    ensures a == b
  {
    DecimalReadsBack(a);
    DecimalReadsBack(b);
    CutAt(Decimal(a), ':', tail);
    CutAt(Decimal(b), ':', tail');
  }

  /** Purging one epoch never covers a key of another epoch of the same namespace. */
  lemma PurgeKeepsOtherEpochs(namespace: string, epoch: nat, other: nat, digest: string, rule: string, b: string,
                              u: string)
    requires Prefix(namespace, epoch) <= RuleKey(BaseKey(namespace, other, digest), rule, b, u)
    ensures epoch == other
  {
    KeyShape(Prefix(namespace, other), digest, rule, b, u);
    var key, tail' := RuleKey(BaseKey(namespace, other, digest), rule, b, u), RuleKey(digest, rule, b, u);
    var p := Prefix(namespace, epoch);
    var tail := key[|p|..];
    assert key == p + tail;
    assert key[|namespace| + 1..] == Decimal(epoch) + ":" + tail;
    assert key == namespace + ":" + (Decimal(other) + ":" + tail');
    assert key[|namespace| + 1..] == Decimal(other) + ":" + tail';
    EpochsDiffer(epoch, other, tail, tail');
  }

  /** Between the namespace and the last colon of a prefix there is no colon. */
  lemma NoColonInEpoch(namespace: string, epoch: nat)
    ensures var p := Prefix(namespace, epoch);
      && p[..|namespace|] == namespace && p[|namespace|] == ':' && p[|p| - 1] == ':'
      && p[|namespace| + 1..|p| - 1] == Decimal(epoch)
      && forall i | |namespace| < i < |p| - 1 :: p[i] != ':'
  {
    DecimalReadsBack(epoch);
    var p := Prefix(namespace, epoch);
    forall i | |namespace| < i < |p| - 1 ensures p[i] != ':' {
      assert p[i] == Decimal(epoch)[i - |namespace| - 1];
    }
  }

  /** A prefix determines its namespace and epoch: the epoch is what stands between the last two colons. */
  lemma PrefixInjective(namespace: string, epoch: nat, namespace': string, epoch': nat)
    requires Prefix(namespace, epoch) == Prefix(namespace', epoch')
    ensures namespace == namespace' && epoch == epoch'
  {
    NoColonInEpoch(namespace, epoch);
    NoColonInEpoch(namespace', epoch');
    var p := Prefix(namespace, epoch);
    assert p[|namespace'|] == ':';
    assert |namespace| == |namespace'|;
    DecimalReadsBack(epoch);
    DecimalReadsBack(epoch');
  }

  /** A prefix of the key that ends in a colon and holds no separator ends before the digest. */
  lemma EndsBeforeDigest(p: string, q: string, digest: string, rest: string)
    requires p <= q + digest + "|" + rest && p != "" && p[|p| - 1] == ':' && '|' !in p && ':' !in digest
    ensures p <= q
  {
    var key := q + digest + "|" + rest;
    assert key[|q| + |digest|] == '|';
    assert forall i | |q| <= i < |q| + |digest| :: key[i] == digest[i - |q|];
    assert forall i | 0 <= i < |p| :: p[i] == key[i] && p[i] in p;
    assert |p| <= |q|;
    assert p == key[..|p|] == q[..|p|];
  }

  lemma KeyStarts(base: string, rule: string, b: string, u: string) returns (rest: string)
    ensures RuleKey(base, rule, b, u) == base + "|" + rest
  {
    rest := Join(Parts(base, rule, b, u)[1..], "|");
  }

  /**
    Which keys a purge covers, for pipelines that share one cache: its own namespace and epoch, and every
    namespace that starts with the purged namespace and epoch.
   */
  lemma PurgeCoversIff(namespace: string, epoch: nat, namespace': string, epoch': nat,
                       digest: string, rule: string, b: string, u: string)
    requires '|' !in namespace && ':' !in digest
    ensures Prefix(namespace, epoch) <= RuleKey(BaseKey(namespace', epoch', digest), rule, b, u) <==>
            (namespace == namespace' && epoch == epoch') || Prefix(namespace, epoch) <= namespace' + ":"
  {
    var p, q := Prefix(namespace, epoch), Prefix(namespace', epoch');
    DecimalReadsBack(epoch);
    KeyHasPrefix(namespace', epoch', digest, rule, b, u);
    var rest := KeyStarts(BaseKey(namespace', epoch', digest), rule, b, u);
    if p <= RuleKey(BaseKey(namespace', epoch', digest), rule, b, u) {
      EndsBeforeDigest(p, q, digest, rest);
      PurgedPrefix(namespace, epoch, namespace', epoch');
    }
    assert namespace' + ":" <= q;
  }

  /**
    One prefix starts with another only when they are the same or the shorter one ends in the longer one's namespace.
   */
  lemma PurgedPrefix(namespace: string, epoch: nat, namespace': string, epoch': nat)
    requires Prefix(namespace, epoch) <= Prefix(namespace', epoch')
    ensures (namespace == namespace' && epoch == epoch') || Prefix(namespace, epoch) <= namespace' + ":"
  {
    var p, q := Prefix(namespace, epoch), Prefix(namespace', epoch');
    if |p| == |q| {
      assert p == q;
      PrefixInjective(namespace, epoch, namespace', epoch');
    } else {
      NoColonInEpoch(namespace, epoch);
      NoColonInEpoch(namespace', epoch');
      assert q[|p| - 1] == ':';
      assert p == q[..|p|] == (namespace' + ":")[..|p|];
    }
  }

  /** So the purge of one pipeline empties the entries of a nested namespace. */
  lemma NestedNamespaceIsPurged(namespace: string, epoch: nat, tail: string, epoch': nat,
                                digest: string, rule: string, b: string, u: string)
    ensures var nested := namespace + ":" + Decimal(epoch) + tail;
      tail == "" || tail[0] == ':' ==> Prefix(namespace, epoch) <= RuleKey(BaseKey(nested, epoch', digest), rule, b, u)
  {
    var nested := namespace + ":" + Decimal(epoch) + tail;
    KeyHasPrefix(nested, epoch', digest, rule, b, u);
    if tail == "" || tail[0] == ':' {
      var p, q := Prefix(namespace, epoch), Prefix(nested, epoch');
      assert p == namespace + ":" + Decimal(epoch) + [':'];
      assert q[..|p|] == p;
    }
  }

  /** Without a ':' in the other namespace, a purge covers exactly its own namespace and epoch. */
  lemma PurgeIsExact(namespace: string, epoch: nat, namespace': string, epoch': nat,
                     digest: string, rule: string, b: string, u: string)
    requires '|' !in namespace && ':' !in digest && ':' !in namespace'
    ensures Prefix(namespace, epoch) <= RuleKey(BaseKey(namespace', epoch', digest), rule, b, u)
            <==> namespace == namespace' && epoch == epoch'
  {
    PurgeCoversIff(namespace, epoch, namespace', epoch', digest, rule, b, u);
    NoColonInEpoch(namespace, epoch);
  }
}
