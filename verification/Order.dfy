/** The byte order on strings and sort.Strings: a sorted list is determined by its contents. */
module Order {
  /** a <= b in byte order. */
  predicate Below(a: string, b: string) {
    a == "" || (b != "" && (a[0] < b[0] || (a[0] == b[0] && Below(a[1..], b[1..]))))
  }

  lemma {:induction false} BelowAntisymmetric(a: string, b: string)
    requires Below(a, b) && Below(b, a)
    ensures a == b
  {
    if a != "" {
      BelowAntisymmetric(a[1..], b[1..]);
      assert a == [a[0]] + a[1..] && b == [b[0]] + b[1..];
    }
  }

  lemma {:induction false} BelowTotal(a: string, b: string)
    ensures Below(a, b) || Below(b, a)
  {
    if a != "" && b != "" && a[0] == b[0] {
      BelowTotal(a[1..], b[1..]);
    }
  }

  lemma {:induction false} BelowTransitive(a: string, b: string, c: string)
    requires Below(a, b) && Below(b, c)
    ensures Below(a, c)
  {
    if a != "" && a[0] == b[0] && b[0] == c[0] {
      BelowTransitive(a[1..], b[1..], c[1..]);
    }
  }

  predicate Sorted(s: seq<string>) {
    |s| <= 1 || (Below(s[0], s[1]) && Sorted(s[1..]))
  }

  function Insert(x: string, s: seq<string>): (r: seq<string>)
    requires Sorted(s)
    ensures Sorted(r) && multiset(r) == multiset(s) + multiset{x}
    ensures r[0] == x || (s != [] && r[0] == s[0])
  {
    if s == [] then [x]
    else if Below(x, s[0]) then [x] + s
    else
      BelowTotal(x, s[0]);
      assert s == [s[0]] + s[1..];
      [s[0]] + Insert(x, s[1..])
  }

  /** sort.Strings */
  function Sort(s: seq<string>): (r: seq<string>)
    ensures Sorted(r) && multiset(r) == multiset(s)
  {
    if s == [] then []
    else
      assert s == [s[0]] + s[1..];
      Insert(s[0], Sort(s[1..]))
  }

  lemma {:induction false} SortedHeadIsLeast(s: seq<string>, x: string)
    requires Sorted(s) && x in s
    ensures Below(s[0], x)
  {
    BelowTotal(s[0], s[0]);
    if x != s[0] {
      SortedHeadIsLeast(s[1..], x);
      BelowTransitive(s[0], s[1], x);
    }
  }

  lemma SortedSameHead(a: seq<string>, b: seq<string>)
    requires Sorted(a) && Sorted(b) && multiset(a) == multiset(b) && a != []
    ensures b != [] && a[0] == b[0]
  {
    assert a[0] in multiset(b);
    assert b[0] in multiset(a);
    SortedHeadIsLeast(a, b[0]);
    SortedHeadIsLeast(b, a[0]);
    BelowAntisymmetric(a[0], b[0]);
  }

  lemma TailContents(s: seq<string>)
    requires s != []
    ensures multiset(s[1..]) == multiset(s) - multiset{s[0]}
  {
    assert s == [s[0]] + s[1..];
  }

  /** Two sorted lists with the same contents are the same list. */
  lemma {:induction false} SortedIsUnique(a: seq<string>, b: seq<string>)
    requires Sorted(a) && Sorted(b) && multiset(a) == multiset(b)
    ensures a == b
  {
    if a == [] {
      assert multiset(b) == multiset{};
    } else {
      SortedSameHead(a, b);
      TailContents(a);
      TailContents(b);
      SortedIsUnique(a[1..], b[1..]);
      assert a == [a[0]] + a[1..] && b == [b[0]] + b[1..];
    }
  }

  // ---- Reordering ----

  /** The list with one element moved to the end. */
  function ToEnd<T>(a: seq<T>, i: nat): seq<T>
    requires i < |a|
  {
    a[..i] + a[i + 1..] + [a[i]]
  }

  lemma ToEndReorders<T>(a: seq<T>, i: nat)
    requires i < |a|
    ensures multiset(ToEnd(a, i)) == multiset(a)
  {
    var front, back := a[..i], a[i + 1..];
    assert a == front + [a[i]] + back;
    assert multiset(a) == multiset(front) + multiset{a[i]} + multiset(back);
  }

  lemma SameMembers<T>(a: seq<T>, b: seq<T>)
    requires multiset(a) == multiset(b)
    ensures forall x :: x in a <==> x in b
  {
    assert forall x :: x in a <==> x in multiset(a);
    assert forall x :: x in b <==> x in multiset(b);
  }

  // ---- Sets in order ----

  /** The members of a set in sorted order. */
  ghost function Listing(s: set<string>): (r: seq<string>)
    ensures Sorted(r) && multiset(r) == multiset(s)
  {
    if s == {} then []
    else
      var x :| x in s;
      assert s == (s - {x}) + {x};
      Insert(x, Listing(s - {x}))
  }

  lemma SortIsListing(names: seq<string>, s: set<string>)
    requires multiset(names) == multiset(s)
    ensures Sort(names) == Listing(s)
  {
    SortedIsUnique(Sort(names), Listing(s));
  }

  lemma ListingMembers(s: set<string>, x: string)
    ensures x in Listing(s) <==> x in s
  {
    assert x in Listing(s) <==> x in multiset(Listing(s));
  }

  lemma ListingKeys<V>(m: map<string, V>)
    ensures forall n :: n in Listing(m.Keys) <==> n in m
  {
    forall n ensures n in Listing(m.Keys) <==> n in m {
      ListingMembers(m.Keys, n);
    }
  }

  /** Ranging over a map: its keys in some order. */
  method KeysInAnyOrder<V>(m: map<string, V>) returns (keys: seq<string>)
    ensures multiset(keys) == multiset(m.Keys)
  {
    keys := [];
    var todo := m.Keys;
    ghost var done: set<string> := {};
    while todo != {}
      invariant todo !! done && todo + done == m.Keys && multiset(keys) == multiset(done)
      decreases |todo|
    {
      var k :| k in todo;
      keys, todo, done := keys + [k], todo - {k}, done + {k};
    }
    assert done == m.Keys;
  }
}
