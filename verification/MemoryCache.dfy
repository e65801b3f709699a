/**
  The in-memory decision cache.  The class keeps its own copies of header maps, deletes an expired
  entry when it is looked up, and purges by key prefix.  Seen from outside it is a timed history:
  a lookup returns the latest store of the key that no purge has covered and that has not expired.
 */
module MemoryCache {
  import opened Wrappers

  /** An entry as a value. */
  datatype Stored = Stored(
    decision: string, status: int, message: string, headers: map<string, string>, storedAt: int, expiresAt: int)

  type Contents = map<string, Stored>

  /** time.Time's zero value; no clock reading is zero. */
  const ZERO_TIME := 0

  // ---- The operations on values ----

  predicate Expired(s: Stored, now: int) { now > s.expiresAt }

  function Peek(c: Contents, key: string, now: int): Option<Stored> {
    if key in c && !Expired(c[key], now) then Some(c[key]) else None
  }

  function AfterLookup(c: Contents, key: string, now: int): Contents {
    if key in c && Expired(c[key], now) then c - {key} else c
  }

  /** Missing or inverted times are filled in from the clock and the default lifetime. */
  function Dated(ttl: int, s: Stored, now: int): Stored {
    var storedAt := if s.storedAt == ZERO_TIME then now else s.storedAt;
    s.(storedAt := storedAt,
       expiresAt := if s.expiresAt == ZERO_TIME || s.expiresAt < storedAt then storedAt + ttl else s.expiresAt)
  }

  function AfterStore(ttl: int, c: Contents, key: string, s: Stored, now: int): Contents {
    c[key := Dated(ttl, s, now)]
  }

  predicate Covers(prefix: string, key: string) { prefix != "" && prefix <= key }

  function AfterPurge(c: Contents, prefix: string): Contents {
    map k | k in c && !Covers(prefix, k) :: c[k]
  }

  // ---- The class ----

  class HeaderMap {
    var values: map<string, string>

    constructor (values: map<string, string>)
      ensures this.values == values
    {
      this.values := values;
    }
  }

  datatype Entry = Entry(
    decision: string, status: int, message: string, headers: HeaderMap?, storedAt: int, expiresAt: int)

  ghost function ValueOf(e: Entry): Stored
    reads e.headers
  {
    var headers := if e.headers == null then map[] else e.headers.values;
    Stored(e.decision, e.status, e.message, headers, e.storedAt, e.expiresAt)
  }

  method CloneEntry(e: Entry) returns (r: Entry)
    ensures ValueOf(r) == ValueOf(e)
    ensures r.headers != null ==> fresh(r.headers)
  {
    r := e.(headers := null);
    if e.headers != null && e.headers.values != map[] {
      var copy := new HeaderMap(e.headers.values);
      r := r.(headers := copy);
    }
  }

  class MemoryCache {
    const ttl: int
    var entries: map<string, Entry>
    /** The header maps the cache owns; none of them is ever handed out. */
    ghost var owned: set<HeaderMap>
    /** The entries as values. */
    ghost var contents: Contents
    /** Everything done to the cache. */
    ghost var ops: seq<Op>

    /** The object is the replay of its history, so everything proved of histories holds of it. */
    ghost predicate Valid()
      reads this, owned
    {
      Shape() && contents == Replay(ttl, ops)
    }

    ghost predicate Shape()
      reads this, owned
    {
      && ttl > 0
      && (forall k | k in entries :: entries[k].headers == null || entries[k].headers in owned)
      && contents.Keys == entries.Keys
      && (forall k | k in entries :: contents[k] == ValueOf(entries[k]))
    }

    constructor (ttl: int)
      ensures Valid() && contents == map[] && owned == {} && ops == []
      ensures this.ttl == if ttl <= 0 then 30_000_000_000 else ttl
    {
      this.ttl := if ttl <= 0 then 30_000_000_000 else ttl;
      entries, owned, contents, ops := map[], {}, map[], [];
    }

    method Lookup(key: string, now: int) returns (e: Entry, ok: bool)
      requires Valid()
      modifies this`entries, this`contents, this`ops
      ensures Valid() && contents == AfterLookup(old(contents), key, now) && ops == old(ops) + [Looks(key, now)]
      ensures ok <==> Peek(old(contents), key, now).Some?
      ensures ok ==> Peek(old(contents), key, now) == Some(ValueOf(e))
      ensures ok && e.headers != null ==> fresh(e.headers)
      // Under a clock that has not run backwards, it is the latest store that is neither purged nor expired.
      ensures var latest := Latest(ttl, old(ops), key); Clocked(old(ops), now) ==>
        && (ok <==> latest.Some? && !Expired(latest.value, now))
        && (ok ==> latest == Some(ValueOf(e)))
    {
      ReplayStep(ttl, ops, Looks(key, now));
      if Clocked(ops, now) {
        LookupReturnsLatest(ttl, ops, key, now);
      }
      ops := ops + [Looks(key, now)];
      e, ok := Entry("", 0, "", null, ZERO_TIME, ZERO_TIME), false;
      if key !in entries {
        return;
      }
      if now > entries[key].expiresAt {
        entries, contents := entries - {key}, contents - {key};
        return;
      }
      e := CloneEntry(entries[key]);
      ok := true;
    }

    method Store(key: string, entry: Entry, now: int)
      requires Valid() && (entry.headers == null || entry.headers !in owned)
      modifies this
      ensures Valid() && contents == AfterStore(ttl, old(contents), key, ValueOf(entry), now)
      ensures fresh(owned - old(owned)) && (entry.headers == null || entry.headers !in owned)
      ensures ops == old(ops) + [Stores(key, old(ValueOf(entry)), now)]
    {
      ReplayStep(ttl, ops, Stores(key, ValueOf(entry), now));
      ops := ops + [Stores(key, ValueOf(entry), now)];
      StoreEntry(key, entry, now);
    }

    method StoreEntry(key: string, entry: Entry, now: int)
      requires Shape() && (entry.headers == null || entry.headers !in owned)
      modifies this`entries, this`owned, this`contents
      ensures Shape() && contents == AfterStore(ttl, old(contents), key, ValueOf(entry), now)
      ensures fresh(owned - old(owned)) && (entry.headers == null || entry.headers !in owned)
    {
      var e := entry;
      if e.storedAt == ZERO_TIME {
        e := e.(storedAt := now);
      }
      if e.expiresAt == ZERO_TIME || e.expiresAt < e.storedAt {
        e := e.(expiresAt := e.storedAt + ttl);
      }
      assert ValueOf(e) == Dated(ttl, ValueOf(entry), now);
      var copy := CloneEntry(e);
      Keep(key, copy);
    }

    /** Takes ownership of an entry that nobody else holds. */
    method Keep(key: string, e: Entry)
      requires Shape()
      modifies this`entries, this`owned, this`contents
      ensures Shape() && contents == old(contents)[key := ValueOf(e)]
      ensures owned == old(owned) + if e.headers == null then {} else {e.headers}
    {
      entries, contents := entries[key := e], contents[key := ValueOf(e)];
      if e.headers != null {
        owned := owned + {e.headers};
      }
    }

    method DeletePrefix(prefix: string)
      requires Valid()
      modifies this`entries, this`contents, this`ops
      ensures Valid() && contents == AfterPurge(old(contents), prefix) && ops == old(ops) + [Purges(prefix)]
    {
      ReplayStep(ttl, ops, Purges(prefix));
      ops := ops + [Purges(prefix)];
      PurgeEntries(prefix);
    }

    method PurgeEntries(prefix: string)
      requires Shape()
      modifies this`entries, this`contents
      ensures Shape() && contents == AfterPurge(old(contents), prefix)
    {
      if prefix != "" {
        RemovePrefix(prefix);
      }
      contents := AfterPurge(contents, prefix);
    }

    /** The loop over the entries. */
    method RemovePrefix(prefix: string)
      modifies this`entries
      ensures forall k :: k in entries <==> k in old(entries) && !(prefix <= k)
      ensures forall k | k in entries :: entries[k] == old(entries)[k]
    {
      var todo := entries.Keys;
      while todo != {}
        invariant todo <= old(entries).Keys
        invariant forall k :: k in entries <==> k in old(entries) && (k in todo || !(prefix <= k))
        invariant forall k | k in entries :: entries[k] == old(entries)[k]
        decreases |todo|
      {
        var key :| key in todo;
        if prefix <= key {
          entries := entries - {key};
        }
        todo := todo - {key};
      }
    }
  }

  // ---- The timed history ----

  datatype Op =
    | Stores(key: string, entry: Stored, now: int)
    | Looks(key: string, now: int)
    | Purges(prefix: string)

  function Apply(ttl: int, c: Contents, op: Op): Contents {
    match op
    case Stores(key, entry, now) => AfterStore(ttl, c, key, entry, now)
    case Looks(key, now) => AfterLookup(c, key, now)
    case Purges(prefix) => AfterPurge(c, prefix)
  }

  /** The cache after a sequence of operations on an empty one. */
  function Replay(ttl: int, ops: seq<Op>): Contents {
    if ops == [] then map[] else Apply(ttl, Replay(ttl, ops[..|ops| - 1]), ops[|ops| - 1])
  }

  lemma ReplayStep(ttl: int, ops: seq<Op>, op: Op)
    ensures Replay(ttl, ops + [op]) == Apply(ttl, Replay(ttl, ops), op)
  {
    assert (ops + [op])[..|ops|] == ops;
  }

  /** The latest store of a key that no later purge covers; lookups play no part. */
  function Latest(ttl: int, ops: seq<Op>, key: string): Option<Stored> {
    if ops == [] then None
    else
      match ops[|ops| - 1]
      case Stores(k, entry, now) =>
        if k == key then Some(Dated(ttl, entry, now)) else Latest(ttl, ops[..|ops| - 1], key)
      case Looks(_, _) => Latest(ttl, ops[..|ops| - 1], key)
      case Purges(prefix) => if Covers(prefix, key) then None else Latest(ttl, ops[..|ops| - 1], key)
  }

  /** The clock never runs backwards and has not passed `now`. */
  predicate Clocked(ops: seq<Op>, now: int) {
    ops == [] ||
    match ops[|ops| - 1]
    case Purges(_) => Clocked(ops[..|ops| - 1], now)
    case op => op.now <= now && Clocked(ops[..|ops| - 1], op.now)
  }

  lemma {:induction false} ClockedLater(ops: seq<Op>, now: int, later: int)
    requires Clocked(ops, now) && now <= later
    ensures Clocked(ops, later)
  {
    if ops != [] && ops[|ops| - 1].Purges? {
      ClockedLater(ops[..|ops| - 1], now, later);
    }
  }

  /** What is held is the latest store; a latest store that is not held has expired. */
  lemma {:induction false} HeldIsLatest(ttl: int, ops: seq<Op>, key: string, now: int)
    requires Clocked(ops, now)
    ensures key in Replay(ttl, ops) ==> Latest(ttl, ops, key) == Some(Replay(ttl, ops)[key])
    ensures key !in Replay(ttl, ops) && Latest(ttl, ops, key).Some? ==> Expired(Latest(ttl, ops, key).value, now)
  {
    if ops != [] {
      var init, op := ops[..|ops| - 1], ops[|ops| - 1];
      HeldIsLatest(ttl, init, key, if op.Purges? then now else op.now);
    }
  }

  /**
    For any history under a clock that does not run backwards, a lookup returns the latest unpurged, unexpired store.
   */
  lemma LookupReturnsLatest(ttl: int, ops: seq<Op>, key: string, now: int)
    requires Clocked(ops, now)
    ensures var latest := Latest(ttl, ops, key);
      Peek(Replay(ttl, ops), key, now) == if latest.Some? && !Expired(latest.value, now) then latest else None
  {
    HeldIsLatest(ttl, ops, key, now);
  }

  function WithoutLookups(ops: seq<Op>): seq<Op> {
    if ops == [] then []
    else
      WithoutLookups(ops[..|ops| - 1]) + (if ops[|ops| - 1].Looks? then [] else [ops[|ops| - 1]])
  }

  lemma {:induction false} LookupsDoNotCount(ttl: int, ops: seq<Op>, key: string, now: int)
    requires Clocked(ops, now)
    ensures Clocked(WithoutLookups(ops), now)
    ensures Latest(ttl, WithoutLookups(ops), key) == Latest(ttl, ops, key)
  {
    if ops != [] {
      var init, op := ops[..|ops| - 1], ops[|ops| - 1];
      LookupsDoNotCount(ttl, init, key, if op.Purges? then now else op.now);
      var rest := WithoutLookups(init);
      if op.Looks? {
        assert WithoutLookups(ops) == rest;
        ClockedLater(rest, op.now, now);
      } else {
        assert (rest + [op])[..|rest|] == rest;
      }
    }
  }

  /** Deleting an expired entry when it is looked up can never be noticed by a later lookup. */
  lemma EagerDeletionIsUnobservable(ttl: int, ops: seq<Op>, key: string, now: int)
    requires Clocked(ops, now)
    ensures Peek(Replay(ttl, ops), key, now) == Peek(Replay(ttl, WithoutLookups(ops)), key, now)
  {
    LookupReturnsLatest(ttl, ops, key, now);
    LookupsDoNotCount(ttl, ops, key, now);
    LookupReturnsLatest(ttl, WithoutLookups(ops), key, now);
  }
}
