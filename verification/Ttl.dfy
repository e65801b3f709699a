/** How long a rule's outcome may be cached: a source lifetime cut down by every positive ceiling. */
module Ttl {
  import opened Wrappers
  import opened Text
  import opened CacheControl

  /** The outcome of a rule; the source writes it as the lower-case word. */
  datatype Outcome = Pass | Fail | Error

  /** Durations per outcome, as configured text. */
  datatype TtlConfig = TtlConfig(pass: string, fail: string)

  datatype RuleCacheConfig = RuleCacheConfig(
    followCacheControl: bool, ttl: TtlConfig, strict: Option<bool>, includeProxyHeaders: Option<bool>)

  /** time.ParseDuration: nanoseconds, possibly negative, or an error. */
  type DurationParser = string -> Option<int>

  function ConfigTTL(parse: DurationParser, config: TtlConfig, outcome: Outcome): int {
    var text := match outcome case Pass => config.pass case Fail => config.fail case Error => "";
    if text == "" then 0
    else match parse(text) case None => 0 case Some(d) => d
  }

  function ApplyCeilings(ttl: int, serverMax: int, endpointCeiling: int): int {
    var result := if endpointCeiling > 0 && endpointCeiling < ttl then endpointCeiling else ttl;
    if serverMax > 0 && serverMax < result then serverMax else result
  }

  /** The lifetime before ceilings: the backend's word when it is followed and says anything, else the rule's own. */
  function SourceTTL(parse: DurationParser, rule: RuleCacheConfig, outcome: Outcome,
                     headers: map<string, string>): int {
    if rule.followCacheControl && "cache-control" in headers && HeaderTTL(headers["cache-control"]).Some?
    then HeaderTTL(headers["cache-control"]).value
    else ConfigTTL(parse, rule.ttl, outcome)
  }

  function EffectiveTTL(parse: DurationParser, outcome: Outcome, serverMax: int, endpoint: TtlConfig,
                        rule: RuleCacheConfig, headers: map<string, string>): int
  {
    if outcome == Error then 0
    else
      var source := SourceTTL(parse, rule, outcome, headers);
      if source == 0 then 0 else ApplyCeilings(source, serverMax, ConfigTTL(parse, endpoint, outcome))
  }

  /** `ttl` is the least of the source and of those ceilings that are positive. */
  ghost predicate LeastOf(ttl: int, source: int, ceilings: set<int>) {
    && ttl in {source} + (set c | c in ceilings && c > 0)
    && ttl <= source && forall c | c in ceilings && c > 0 :: ttl <= c
  }

  /**
    A positive lifetime is exactly the minimum of its source and all positive ceilings, a source that
    is not positive (such as a wrapped product) is never lifted, and errors are never cached.
   */
  lemma EffectiveIsMinimum(parse: DurationParser, outcome: Outcome, serverMax: int, endpoint: TtlConfig,
                           rule: RuleCacheConfig, headers: map<string, string>)
    ensures var ttl := EffectiveTTL(parse, outcome, serverMax, endpoint, rule, headers);
      var source := SourceTTL(parse, rule, outcome, headers);
      && (outcome == Error ==> ttl == 0)
      && (ttl > 0 <==> source > 0 && outcome != Error)
      && (ttl > 0 ==> LeastOf(ttl, source, {serverMax, ConfigTTL(parse, endpoint, outcome)}))
  {
  }

  /** The value, in seconds, of the age that a header's lifetime is taken from. */
  function ChosenAge(d: Directive): Option<int> { if d.sMaxAge.Some? then d.sMaxAge else d.maxAge }

  /** For ages up to 9223372036 seconds the source is the age itself, so nothing is lost to wrap-around. */
  lemma FollowedAgeIsExact(parse: DurationParser, outcome: Outcome, rule: RuleCacheConfig, headers: map<string, string>)
    requires rule.followCacheControl && "cache-control" in headers
    ensures var d := Reading(Split(headers["cache-control"], ','));
      !d.noCache && !d.noStore && !d.isPrivate && ChosenAge(d).Some? && 0 <= ChosenAge(d).value <= 9223372036
      ==> SourceTTL(parse, rule, outcome, headers) == ChosenAge(d).value * SECOND
  {
    var d := Reading(Split(headers["cache-control"], ','));
    if ChosenAge(d).Some? && 0 <= ChosenAge(d).value <= MAX_INT64 {
      ExactSeconds(ChosenAge(d).value);
    }
  }

  // ---- The lifetime in terms of the header's parts and the configured texts ----

  /** Some part of the header forbids caching. */
  ghost predicate Forbids(parts: seq<string>) {
    exists i | 0 <= i < |parts| :: ToLower(Trim(parts[i])) in {"no-cache", "no-store", "private"}
  }

  /** The part is `name=seconds`, the name in any case and with blanks anywhere around name and value. */
  ghost predicate Says(part: string, name: string, seconds: int) {
    exists k, v :: '=' !in k && Trim(part) == k + "=" + v && Trim(ToLower(k)) == name
      && seconds >= 0 && Atoi(Trim(v)) == Some(seconds)
  }

  ghost predicate NeverSays(parts: seq<string>, name: string) {
    forall i, n | 0 <= i < |parts| :: !Says(parts[i], name, n)
  }

  ghost predicate LastSays(parts: seq<string>, name: string, seconds: int) {
    exists i :: LastAt(parts, name, seconds, i)
  }

  ghost predicate LastAt(parts: seq<string>, name: string, seconds: int, i: int) {
    0 <= i < |parts| && Says(parts[i], name, seconds) && NeverSays(parts[i + 1..], name)
  }

  /** The age that counts: the last valid s-maxage, or without one the last valid max-age. */
  ghost predicate AgeIs(parts: seq<string>, seconds: int) {
    LastSays(parts, "s-maxage", seconds) || (NeverSays(parts, "s-maxage") && LastSays(parts, "max-age", seconds))
  }

  lemma AgeIff(part: string, name: string, n: int)
    ensures Age(part, name) == Some(n) <==> Says(part, name, n)
  {
    var t := Trim(part);
    if Says(part, name, n) {
      var k, v :| '=' !in k && t == k + "=" + v && Trim(ToLower(k)) == name && n >= 0 && Atoi(Trim(v)) == Some(n);
      CutAt(k, '=', v);
    }
    if Age(part, name) == Some(n) {
      var (k, v) := Cut(t, '=').value;
      assert t == k + "=" + v;
    }
  }

  lemma {:induction false} LastAgeIff(parts: seq<string>, name: string)
    ensures match LastAge(parts, name)
      case None => NeverSays(parts, name)
      case Some(n) => LastSays(parts, name, n)
  {
    if parts != [] {
      var init, last := parts[..|parts| - 1], parts[|parts| - 1];
      LastAgeIff(init, name);
      forall n ensures Age(last, name) == Some(n) <==> Says(last, name, n) { AgeIff(last, name, n); }
      if Age(last, name).Some? {
        assert parts[|parts| - 1 + 1..] == [];
        assert LastAt(parts, name, Age(last, name).value, |parts| - 1);
      } else {
        NeverSaysEnd(init, last, name);
        assert init + [last] == parts;
      }
    }
  }

  /** A part at the end that does not say the age changes nothing. */
  lemma NeverSaysEnd(init: seq<string>, last: string, name: string)
    requires forall n :: !Says(last, name, n)
    ensures NeverSays(init, name) ==> NeverSays(init + [last], name)
    ensures forall n | LastSays(init, name, n) :: LastSays(init + [last], name, n)
  {
    forall n | LastSays(init, name, n) ensures LastSays(init + [last], name, n) {
      var i :| LastAt(init, name, n, i);
      var after := init[i + 1..];
      assert (init + [last])[i + 1..] == after + [last];
      assert LastAt(init + [last], name, n, i);
    }
  }

  lemma FlagsForbid(parts: seq<string>)
    ensures var d := Reading(parts); Forbids(parts) <==> d.noCache || d.noStore || d.isPrivate
  {
  }

  /** At most one age counts, and it is the one the reading chooses. */
  lemma ChosenIsAge(parts: seq<string>)
    ensures match ChosenAge(Reading(parts))
      case None => forall n :: !AgeIs(parts, n)
      case Some(n) => n >= 0 && forall m :: AgeIs(parts, m) <==> m == n
  {
    LastAgeIff(parts, "s-maxage");
    LastAgeIff(parts, "max-age");
    OneLast(parts, "s-maxage");
    OneLast(parts, "max-age");
  }

  lemma OneLast(parts: seq<string>, name: string)
    ensures forall m, n | LastSays(parts, name, m) && LastSays(parts, name, n) :: m == n
    ensures forall n | LastSays(parts, name, n) :: n >= 0 && !NeverSays(parts, name)
  {
    forall m, n | LastSays(parts, name, m) && LastSays(parts, name, n) ensures m == n {
      var i, j :| LastAt(parts, name, m, i) && LastAt(parts, name, n, j);
      SilentAfter(parts, name, m, i);
      SilentAfter(parts, name, n, j);
      AgeIff(parts[i], name, m);
      AgeIff(parts[i], name, n);
    }
  }

  lemma SilentAfter(parts: seq<string>, name: string, n: int, i: int)
    requires LastAt(parts, name, n, i)
    ensures forall j, m | i < j < |parts| :: !Says(parts[j], name, m)
  {
    forall j, m | i < j < |parts| ensures !Says(parts[j], name, m) {
      assert parts[i + 1..][j - i - 1] == parts[j];
    }
  }

  /** A configured duration; no text and a text that is no duration are zero. */
  function Configured(parse: DurationParser, text: string): int {
    if text != "" && parse(text).Some? then parse(text).value else 0
  }

  /** The lifetime is the source, cut down by the positive ceilings; a source that is not positive stays as it is. */
  ghost predicate CutTo(ttl: int, source: int, ceilings: set<int>) {
    if source <= 0 then ttl == source else LeastOf(ttl, source, ceilings)
  }

  /** An age in seconds as a lifetime: exact up to 9223372036 seconds, beyond that the 64-bit product wraps around. */
  function AgeLifetime(n: int): int { if n <= 9223372036 then n * SECOND else Wrap64(n * SECOND) }

  ghost predicate Followed(rule: RuleCacheConfig, headers: map<string, string>) {
    rule.followCacheControl && "cache-control" in headers
  }

  /** Every way a lifetime comes about, told by the parts of the backend's header and by the configured texts. */
  ghost predicate LifetimeIs(parse: DurationParser, outcome: Outcome, ceilings: set<int>, rule: RuleCacheConfig,
                             headers: map<string, string>, ttl: int)
  {
    var parts := if "cache-control" in headers then Split(headers["cache-control"], ',') else [];
    if outcome == Error || (Followed(rule, headers) && Forbids(parts)) then ttl == 0
    else if Followed(rule, headers) && exists n :: AgeIs(parts, n) then
      exists n :: AgeIs(parts, n) && CutTo(ttl, AgeLifetime(n), ceilings)
    else CutTo(ttl, Configured(parse, if outcome == Pass then rule.ttl.pass else rule.ttl.fail), ceilings)
  }

  lemma CeilingsCut(parse: DurationParser, outcome: Outcome, serverMax: int, endpoint: TtlConfig,
                    rule: RuleCacheConfig, headers: map<string, string>)
    requires outcome != Error
    ensures CutTo(EffectiveTTL(parse, outcome, serverMax, endpoint, rule, headers),
                  SourceTTL(parse, rule, outcome, headers),
                  {serverMax, Configured(parse, if outcome == Pass then endpoint.pass else endpoint.fail)})
  {
    EffectiveIsMinimum(parse, outcome, serverMax, endpoint, rule, headers);
  }

  /** The lifetime before ceilings. */
  lemma SourceByText(parse: DurationParser, outcome: Outcome, rule: RuleCacheConfig, headers: map<string, string>)
    requires outcome != Error
    ensures var source := SourceTTL(parse, rule, outcome, headers);
      var parts := if "cache-control" in headers then Split(headers["cache-control"], ',') else [];
      && (Followed(rule, headers) && Forbids(parts) ==> source == 0)
      && (Followed(rule, headers) && !Forbids(parts) ==>
            forall n | AgeIs(parts, n) :: source == AgeLifetime(n))
      && (!Followed(rule, headers) || (!Forbids(parts) && forall n :: !AgeIs(parts, n)) ==>
            source == Configured(parse, if outcome == Pass then rule.ttl.pass else rule.ttl.fail))
  {
    if Followed(rule, headers) {
      var parts := Split(headers["cache-control"], ',');
      FlagsForbid(parts);
      ChosenIsAge(parts);
      var chosen := ChosenAge(Reading(parts));
      if chosen.Some? {
        assert AgeIs(parts, chosen.value);
        if chosen.value <= 9223372036 {
          ExactSeconds(chosen.value);
        }
      }
    }
  }

  /**
    A followed header that forbids caching anywhere leaves no lifetime; otherwise its age counts, or where it is not
    followed, absent or silent the text configured for the outcome; and the positive ceilings cut it down.
   */
  lemma EffectiveByText(parse: DurationParser, outcome: Outcome, serverMax: int, endpoint: TtlConfig,
                        rule: RuleCacheConfig, headers: map<string, string>)
    ensures LifetimeIs(
      parse, outcome, {serverMax, Configured(parse, if outcome == Pass then endpoint.pass else endpoint.fail)}, rule,
      headers, EffectiveTTL(parse, outcome, serverMax, endpoint, rule, headers))
  {
    if outcome != Error {
      CeilingsCut(parse, outcome, serverMax, endpoint, rule, headers);
      LifetimeFromSource(
        parse, outcome, {serverMax, Configured(parse, if outcome == Pass then endpoint.pass else endpoint.fail)}, rule,
        headers, EffectiveTTL(parse, outcome, serverMax, endpoint, rule, headers));
    }
  }

  lemma LifetimeFromSource(parse: DurationParser, outcome: Outcome, ceilings: set<int>, rule: RuleCacheConfig,
                           headers: map<string, string>, ttl: int)
    requires outcome != Error && CutTo(ttl, SourceTTL(parse, rule, outcome, headers), ceilings)
    ensures LifetimeIs(parse, outcome, ceilings, rule, headers, ttl)
  {
    SourceByText(parse, outcome, rule, headers);
    var parts := if "cache-control" in headers then Split(headers["cache-control"], ',') else [];
    if Followed(rule, headers) && !Forbids(parts) && exists n :: AgeIs(parts, n) {
      var n :| AgeIs(parts, n);
      assert CutTo(ttl, AgeLifetime(n), ceilings);
    }
  }

  lemma ZeroIsNoCeiling(ttl: int, source: int, a: int)
    requires CutTo(ttl, source, {a, 0})
    ensures CutTo(ttl, source, {a})
  {
  }

  /** Without endpoint durations the server's maximum is the only ceiling. */
  lemma WithoutEndpoint(parse: DurationParser, outcome: Outcome, serverMax: int, rule: RuleCacheConfig,
                        headers: map<string, string>)
    ensures LifetimeIs(parse, outcome, {serverMax}, rule, headers,
                       EffectiveTTL(parse, outcome, serverMax, TtlConfig("", ""), rule, headers))
  {
    EffectiveByText(parse, outcome, serverMax, TtlConfig("", ""), rule, headers);
    var ttl := EffectiveTTL(parse, outcome, serverMax, TtlConfig("", ""), rule, headers);
    forall source | CutTo(ttl, source, {serverMax, 0}) ensures CutTo(ttl, source, {serverMax}) {
      ZeroIsNoCeiling(ttl, source, serverMax);
    }
  }
}
