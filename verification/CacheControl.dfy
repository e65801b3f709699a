/** Reading a backend's Cache-Control header (section 5.2.2 of RFC 9111) and turning it into a lifetime. */
module CacheControl {
  import opened Wrappers
  import opened Text
  import opened Order

  const SECOND := 1_000_000_000
  const MAX_INT64 := 0x7FFF_FFFF_FFFF_FFFF
  const TWO_64 := 0x1_0000_0000_0000_0000

  /** Two's complement wrap-around of a 64-bit product. */
  function Wrap64(x: int): int {
    (x + MAX_INT64 + 1) % TWO_64 - MAX_INT64 - 1
  }

  datatype Directive = Directive(
    maxAge: Option<int>, sMaxAge: Option<int>, noCache: bool, noStore: bool, isPrivate: bool)

  // ---- strconv.Atoi on a 64-bit machine ----

  predicate AllDigits(s: string) { s != "" && forall c | c in s :: '0' <= c <= '9' }

  function DigitsValue(s: string): int {
    if s == "" then 0 else DigitsValue(s[..|s| - 1]) * 10 + (s[|s| - 1] as int - '0' as int)
  }

  function Atoi(s: string): Option<int> {
    var signed := s != "" && (s[0] == '+' || s[0] == '-');
    var digits := if signed then s[1..] else s;
    if !AllDigits(digits) then None
    else
      var v := if signed && s[0] == '-' then -DigitsValue(digits) else DigitsValue(digits);
      if -MAX_INT64 - 1 <= v <= MAX_INT64 then Some(v) else None
  }

  /** strconv.Itoa */
  function Decimal(n: nat): (s: string)
    ensures s != "" && AllDigits(s)
  {
    var digit := [('0' as int + n % 10) as char];
    if n < 10 then digit else Decimal(n / 10) + digit
  }

  lemma {:induction false} DecimalValue(n: nat)
    ensures DigitsValue(Decimal(n)) == n
  {
    var digit := [('0' as int + n % 10) as char];
    if n >= 10 {
      DecimalValue(n / 10);
      assert Decimal(n)[..|Decimal(n)| - 1] == Decimal(n / 10);
    } else {
      assert digit[..0] == "";
    }
  }

  /** A printed 64-bit number reads back, with or without a sign. */
  lemma AtoiReadsDecimal(n: nat)
    requires n <= MAX_INT64
    ensures Atoi(Decimal(n)) == Atoi("+" + Decimal(n)) == Some(n) && Atoi("-" + Decimal(n)) == Some(0 - n as int)
  {
    DecimalValue(n);
    assert Decimal(n)[0] in Decimal(n);
    assert ("+" + Decimal(n))[1..] == ("-" + Decimal(n))[1..] == Decimal(n);
  }

  /** No text with any other character reads as a number. */
  lemma AtoiNeedsDigits(s: string)
    requires Atoi(s).Some?
    ensures s != "" && forall i | 1 <= i < |s| :: '0' <= s[i] <= '9'
  {
    forall i | 1 <= i < |s| ensures '0' <= s[i] <= '9' {
      assert s[1..][i - 1] == s[i];
      assert s[i] in s[1..] && s[i] in s;
    }
  }

  // ---- The declarative reading ----

  /** The name and value of a `name=value` part whose value is a non-negative integer. */
  function Setting(part: string): Option<(string, int)> {
    match Cut(Trim(part), '=')
    case None => None
    case Some(kv) =>
      match Atoi(Trim(kv.1))
      case None => None
      case Some(seconds) => if seconds >= 0 then Some((Trim(ToLower(kv.0)), seconds)) else None
  }

  function Named(setting: Option<(string, int)>, name: string): Option<int> {
    if setting.Some? && setting.value.0 == name then Some(setting.value.1) else None
  }

  /** The value one comma part gives to an age directive, if it is that directive with a valid value. */
  function Age(part: string, name: string): Option<int> { Named(Setting(part), name) }

  /** Of several valid values the last one counts. */
  function LastAge(parts: seq<string>, name: string): Option<int> {
    if parts == [] then None
    else
      var last := Age(parts[|parts| - 1], name);
      if last.Some? then last else LastAge(parts[..|parts| - 1], name)
  }

  /** A flag is set when some part is its name, ignoring case. */
  predicate HasFlag(parts: seq<string>, name: string) {
    exists i | 0 <= i < |parts| :: ToLower(Trim(parts[i])) == name
  }

  function Reading(parts: seq<string>): Directive {
    Directive(LastAge(parts, "max-age"), LastAge(parts, "s-maxage"),
              HasFlag(parts, "no-cache"), HasFlag(parts, "no-store"), HasFlag(parts, "private"))
  }

  /** The loop of the source, one directive at a time, computes that reading. */
  method ParseCacheControl(header: string) returns (d: Directive)
    ensures d == Reading(Split(header, ','))
  {
    var parts := Split(header, ',');
    d := Directive(None, None, false, false, false);
    for i := 0 to |parts|
      invariant d == Reading(parts[..i])
    {
      ReadingStep(parts[..i], parts[i]);
      assert parts[..i + 1] == parts[..i] + [parts[i]];
      d := ParsePart(d, parts[i]);
    }
    assert parts[..|parts|] == parts;
  }

  /** What one more part does to a reading. */
  function WithPart(d: Directive, part: string): Directive {
    var t := ToLower(Trim(part));
    Directive(Later(d.maxAge, Age(part, "max-age")), Later(d.sMaxAge, Age(part, "s-maxage")),
              d.noCache || t == "no-cache", d.noStore || t == "no-store", d.isPrivate || t == "private")
  }

  /** The body of the loop. */
  method ParsePart(before: Directive, raw: string) returns (d: Directive)
    ensures d == WithPart(before, raw)
  {
    d := before;
    var part := Trim(raw);
    if part == "" {
      return;
    }
    if '=' in part {
      PairIsNoFlag(part);
      d := SetAge(d, Setting(raw));
    } else {
      d := SetFlag(d, ToLower(part));
    }
  }

  method SetAge(before: Directive, setting: Option<(string, int)>) returns (d: Directive)
    ensures d == before.(maxAge := Later(before.maxAge, Named(setting, "max-age")),
                         sMaxAge := Later(before.sMaxAge, Named(setting, "s-maxage")))
  {
    d := before;
    if setting.Some? {
      var (key, value) := setting.value;
      if key == "max-age" {
        d := d.(maxAge := Some(value));
      } else if key == "s-maxage" {
        d := d.(sMaxAge := Some(value));
      }
    }
  }

  method SetFlag(before: Directive, key: string) returns (d: Directive)
    ensures d == before.(noCache := before.noCache || key == "no-cache", noStore := before.noStore || key == "no-store",
                         isPrivate := before.isPrivate || key == "private")
  {
    d := before;
    if key == "no-cache" {
      d := d.(noCache := true);
    } else if key == "no-store" {
      d := d.(noStore := true);
    } else if key == "private" {
      d := d.(isPrivate := true);
    }
  }

  function Later(a: Option<int>, b: Option<int>): Option<int> { if b.Some? then b else a }

  lemma LastAgeStep(parts: seq<string>, part: string, name: string)
    ensures LastAge(parts + [part], name) == Later(LastAge(parts, name), Age(part, name))
  {
    assert (parts + [part])[..|parts|] == parts;
  }

  lemma PairIsNoFlag(part: string)
    requires '=' in part
    ensures ToLower(part) != "no-cache" && ToLower(part) != "no-store" && ToLower(part) != "private"
  {
    ToLowerKeeps(part, '=');
  }

  lemma ReadingStep(parts: seq<string>, part: string)
    ensures Reading(parts + [part]) == WithPart(Reading(parts), part)
  {
    LastAgeStep(parts, part, "max-age");
    LastAgeStep(parts, part, "s-maxage");
    FlagStep(parts, part, "no-cache");
    FlagStep(parts, part, "no-store");
    FlagStep(parts, part, "private");
  }

  lemma FlagStep(parts: seq<string>, part: string, name: string)
    ensures HasFlag(parts + [part], name) <==> HasFlag(parts, name) || ToLower(Trim(part)) == name
  {
    var more := parts + [part];
    assert forall i | 0 <= i < |parts| :: more[i] == parts[i];
    assert more[|parts|] == part;
  }

  // ---- The lifetime a reading stands for ----

  function GetTTL(d: Directive): Option<int> {
    if d.noCache || d.noStore || d.isPrivate then Some(0)
    else if d.sMaxAge.Some? then Some(Wrap64(d.sMaxAge.value * SECOND))
    else if d.maxAge.Some? then Some(Wrap64(d.maxAge.value * SECOND))
    else None
  }

  function HeaderTTL(header: string): Option<int> { GetTTL(Reading(Split(header, ','))) }

  /** The seconds-to-nanoseconds product is exact for exactly the ages up to 9223372036. */
  lemma ExactSeconds(seconds: int)
    requires 0 <= seconds <= MAX_INT64
    ensures Wrap64(seconds * SECOND) == seconds * SECOND <==> seconds <= 9223372036
  {
  }

  predicate ForbidsCaching(part: string) {
    var name := ToLower(Trim(part));
    name == "no-cache" || name == "no-store" || name == "private"
  }

  /** Wherever no-store, no-cache or private is added, the lifetime becomes zero. */
  lemma ForbiddenAnywhere(header: string, i: nat, part: string)
    requires i <= |Split(header, ',')| && ',' !in part && ForbidsCaching(part)
    ensures var parts := Split(header, ',');
      HeaderTTL(Join(parts[..i] + [part] + parts[i..], ",")) == Some(0)
  {
    var parts := Split(header, ',');
    var more := parts[..i] + [part] + parts[i..];
    assert forall p | p in more :: ',' !in p;
    SplitJoinExact(more, ',');
    assert more[i] == part;
  }

  // ---- Reordering ----

  /** All valid values given to an age directive are the same; in particular when it occurs at most once. */
  ghost predicate Agrees(parts: seq<string>, name: string) {
    forall p, q | p in parts && q in parts && Age(p, name).Some? && Age(q, name).Some? :: Age(p, name) == Age(q, name)
  }

  lemma {:induction false} LastAgeIsSome(parts: seq<string>, name: string)
    ensures LastAge(parts, name).Some? ==> exists p :: p in parts && Age(p, name) == LastAge(parts, name)
    ensures LastAge(parts, name).None? ==> forall p | p in parts :: Age(p, name).None?
  {
    if parts != [] {
      var init, last := parts[..|parts| - 1], parts[|parts| - 1];
      assert parts == init + [last];
      LastAgeIsSome(init, name);
    }
  }

  lemma SameLastAge(a: seq<string>, b: seq<string>, name: string)
    requires multiset(a) == multiset(b) && Agrees(a, name)
    ensures LastAge(a, name) == LastAge(b, name)
  {
    LastAgeIsSome(a, name);
    LastAgeIsSome(b, name);
    SameMembers(a, b);
  }

  lemma SameFlag(a: seq<string>, b: seq<string>, name: string)
    requires multiset(a) == multiset(b)
    ensures HasFlag(a, name) ==> HasFlag(b, name)
  {
    if HasFlag(a, name) {
      var i :| 0 <= i < |a| && ToLower(Trim(a[i])) == name;
      assert a[i] in multiset(b);
      assert a[i] in b;
    }
  }

  lemma FlagsStay(a: seq<string>, b: seq<string>)
    requires multiset(a) == multiset(b)
    ensures Reading(a).noCache == Reading(b).noCache && Reading(a).noStore == Reading(b).noStore
    ensures Reading(a).isPrivate == Reading(b).isPrivate
  {
    SameFlag(a, b, "no-cache");
    SameFlag(b, a, "no-cache");
    SameFlag(a, b, "no-store");
    SameFlag(b, a, "no-store");
    SameFlag(a, b, "private");
    SameFlag(b, a, "private");
  }

  /** Reordering the directives changes nothing when the values of each age directive agree. */
  lemma ReorderingIsHarmless(a: seq<string>, b: seq<string>)
    requires multiset(a) == multiset(b)
    requires Agrees(a, "max-age") && Agrees(a, "s-maxage")
    ensures Reading(a) == Reading(b)
  {
    SameLastAge(a, b, "max-age");
    SameLastAge(a, b, "s-maxage");
    FlagsStay(a, b);
  }

  lemma MoveToEnd(a: seq<string>, i: nat, name: string) returns (b: seq<string>)
    requires i < |a| && Age(a[i], name).Some?
    ensures multiset(a) == multiset(b) && LastAge(b, name) == Age(a[i], name)
  {
    b := ToEnd(a, i);
    ToEndReorders(a, i);
    LastAgeStep(a[..i] + a[i + 1..], a[i], name);
  }

  /** Conflicting values can always be reordered into a different reading. */
  lemma ConflictShowsInOrder(a: seq<string>, name: string) returns (b: seq<string>)
    requires (name == "max-age" || name == "s-maxage") && !Agrees(a, name)
    ensures multiset(a) == multiset(b) && Reading(a) != Reading(b)
  {
    var p, q :| p in a && q in a && Age(p, name).Some? && Age(q, name).Some? && Age(p, name) != Age(q, name);
    var last := if Age(p, name) == LastAge(a, name) then q else p;
    var i :| 0 <= i < |a| && a[i] == last;
    b := MoveToEnd(a, i, name);
  }

  function Nanoseconds(seconds: int): int { Wrap64(seconds * SECOND) }

  /** Two parts give the directive valid values that stand for different lifetimes. */
  ghost predicate Disagrees(parts: seq<string>, name: string) {
    exists p, q :: p in parts && q in parts && Age(p, name).Some? && Age(q, name).Some?
      && Nanoseconds(Age(p, name).value) != Nanoseconds(Age(q, name).value)
  }

  /** Nothing forbids caching, and the age directive that decides has values for different lifetimes. */
  ghost predicate OrderDecides(parts: seq<string>) {
    && !HasFlag(parts, "no-cache") && !HasFlag(parts, "no-store") && !HasFlag(parts, "private")
    && (Disagrees(parts, "s-maxage")
        || (Disagrees(parts, "max-age") && forall p | p in parts :: Age(p, "s-maxage").None?))
  }

  /** Reordering an age directive keeps whether it is there, and its lifetime unless its values disagree. */
  lemma AgeStays(a: seq<string>, b: seq<string>, name: string)
    requires multiset(a) == multiset(b)
    ensures LastAge(a, name).Some? <==> LastAge(b, name).Some?
    ensures LastAge(a, name).None? <==> forall p | p in a :: Age(p, name).None?
    ensures LastAge(a, name).Some? && !Disagrees(a, name) ==>
      Nanoseconds(LastAge(a, name).value) == Nanoseconds(LastAge(b, name).value)
  {
    SameMembers(a, b);
    LastAgeIsSome(a, name);
    LastAgeIsSome(b, name);
  }

  lemma LifetimeStays(a: seq<string>, b: seq<string>)
    requires multiset(a) == multiset(b) && !OrderDecides(a)
    ensures GetTTL(Reading(a)) == GetTTL(Reading(b))
  {
    FlagsStay(a, b);
    AgeStays(a, b, "s-maxage");
    AgeStays(a, b, "max-age");
  }

  lemma LifetimeMoves(a: seq<string>, name: string) returns (b: seq<string>)
    requires OrderDecides(a) && Disagrees(a, name)
    requires name == "s-maxage" || (name == "max-age" && forall p | p in a :: Age(p, "s-maxage").None?)
    ensures multiset(a) == multiset(b) && GetTTL(Reading(a)) != GetTTL(Reading(b))
  {
    LastAgeIsSome(a, name);
    var p, q :| p in a && q in a && Age(p, name).Some? && Age(q, name).Some?
      && Nanoseconds(Age(p, name).value) != Nanoseconds(Age(q, name).value);
    var now := Nanoseconds(LastAge(a, name).value);
    var last := if Nanoseconds(Age(p, name).value) == now then q else p;
    var i :| 0 <= i < |a| && a[i] == last;
    b := MoveToEnd(a, i, name);
    FlagsStay(a, b);
    AgeStays(a, b, "s-maxage");
  }

  /** Some reordering changes the lifetime if and only if order decides it. */
  lemma ReorderingMattersIff(a: seq<string>)
    ensures (exists b :: multiset(a) == multiset(b) && GetTTL(Reading(a)) != GetTTL(Reading(b))) <==> OrderDecides(a)
  {
    if OrderDecides(a) {
      var b := LifetimeMoves(a, if Disagrees(a, "s-maxage") then "s-maxage" else "max-age");
    }
    forall b | multiset(a) == multiset(b) && GetTTL(Reading(a)) != GetTTL(Reading(b)) ensures OrderDecides(a) {
      if !OrderDecides(a) {
        LifetimeStays(a, b);
      }
    }
  }
}
