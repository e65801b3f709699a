/** The admission agent: proxy trust, rewriting or stripping of forwarding headers, and credential collection. */
module Admission {
  import opened Wrappers
  import opened Text
  import opened Forwarded
  import opened ProxyChain
  import opened Credentials

  const FORWARDED := "forwarded"
  const FORWARDED_FOR := "x-forwarded-for"

  /** The endpoint's admission policy together with the library codecs it calls. */
  datatype Policy = Policy(
    trusted: Addr -> bool,
    development: bool,
    required: bool,
    allow: Allow,
    parse: EntryParser,
    show: Addr -> string,
    hostOf: string -> string,
    parseAddr: string -> Option<Addr>,
    decode: string -> Option<string>)

  datatype Refusal = BadRemote | Invalid(error: ForwardedError) | UntrustedChain | UntrustedPeer | NoCredential

  class Request {
    var headers: Headers
    const query: map<string, string>
    const remoteAddr: string

    constructor (headers: Headers, query: map<string, string>, remoteAddr: string)
      ensures this.headers == headers && this.query == query && this.remoteAddr == remoteAddr
    {
      this.headers, this.query, this.remoteAddr := headers, query, remoteAddr;
    }

    function Arrives(): Arrival
      reads this
    {
      Arrival(headers, query, remoteAddr)
    }
  }

  /** What the rest of the pipeline sees of admission. */
  class AdmissionState {
    var authenticated: bool
    var refusal: Option<Refusal>
    var clientIP: string
    var trustedProxy: bool
    var proxyStripped: bool
    var forwardedFor: string
    var forwarded: string
    var credentials: seq<Credential>

    constructor ()
      ensures !authenticated && !trustedProxy && !proxyStripped && refusal == None && credentials == []
    {
      authenticated, trustedProxy, proxyStripped, refusal := false, false, false, None;
      clientIP, forwardedFor, forwarded, credentials := "", "", "", [];
    }

    /** What the proxy check has left in the request and here. */
    function Checked(r: Request): Check
      reads this, r
    {
      Check(r.headers, forwarded, forwardedFor, trustedProxy, proxyStripped, clientIP, refusal)
    }
  }

  // ---- What the two headers say, independent of how they are processed ----

  /** The trimmed first value of a header: what admission takes the header to be. */
  function Seen(headers: Headers, name: string): string { Trim(Get(headers, name)) }

  function PeerAddr(p: Policy, remoteAddr: string): Option<Addr> {
    var host := p.hostOf(remoteAddr);
    if host == "" then None else p.parseAddr(host)
  }

  /** The host of the remote address is an address: the peer. */
  ghost predicate HasPeer(p: Policy, remoteAddr: string) {
    p.hostOf(remoteAddr) != "" && p.parseAddr(p.hostOf(remoteAddr)).Some?
  }

  predicate HopsTrusted(p: Policy, chain: seq<Addr>) {
    forall i | 1 <= i < |chain| :: p.trusted(chain[i])
  }

  ghost predicate ForwardedSays(p: Policy, headers: Headers, chain: seq<Addr>) {
    ForwardedIs(p.parse, Seen(headers, FORWARDED), chain)
  }

  ghost predicate ForwardedForSays(p: Policy, headers: Headers, chain: seq<Addr>) {
    ParsedAs(p.parse, Entries(Seen(headers, FORWARDED_FOR)), chain)
  }

  /** `chain` is the one chain that every non-blank forwarding header of the request names. */
  ghost predicate Names(p: Policy, headers: Headers, chain: seq<Addr>) {
    && chain != []
    && (Seen(headers, FORWARDED) != "" || Seen(headers, FORWARDED_FOR) != "")
    && (Seen(headers, FORWARDED) != "" ==> ForwardedSays(p, headers, chain))
    && (Seen(headers, FORWARDED_FOR) != "" ==> ForwardedForSays(p, headers, chain))
  }

  /** A request whose forwarding headers may be believed. */
  ghost predicate Believable(p: Policy, headers: Headers, remoteAddr: string, chain: seq<Addr>) {
    && Names(p, headers, chain)
    && HopsTrusted(p, chain)
    && HasPeer(p, remoteAddr) && p.trusted(p.parseAddr(p.hostOf(remoteAddr)).value)
  }

  ghost predicate Unbelievable(p: Policy, headers: Headers, remoteAddr: string) {
    forall chain :: !Believable(p, headers, remoteAddr, chain)
  }

  predicate IsProxyHeader(name: string) { "x-forwarded-" <= name || name == FORWARDED }

  /** The one value is a text that reads back to exactly `chain` and is its own normal form. */
  ghost predicate CanonicalForwarded(p: Policy, values: seq<string>, chain: seq<Addr>) {
    |values| == 1 && values[0] != "" && Trimmed(values[0])
      && ReadForwarded(p.parse, values[0]) == Ok(Chain(chain, values[0]))
  }

  ghost predicate CanonicalForwardedFor(p: Policy, values: seq<string>, chain: seq<Addr>) {
    values == [JoinAddrs(p.show, chain)] && ReadForwardedFor(p.parse, JoinAddrs(p.show, chain)) == Ok(chain)
  }

  /**
    Each forwarding header that was not blank says exactly `chain`, in text that reads back to it, and a Forwarded
    header keeps its other pairs; a blank one is gone.
   */
  ghost predicate Rewritten(p: Policy, before: Headers, after: Headers, chain: seq<Addr>) {
    && (FORWARDED in after <==> Seen(before, FORWARDED) != "")
    && (FORWARDED_FOR in after <==> Seen(before, FORWARDED_FOR) != "")
    && (FORWARDED in after ==>
          && CanonicalForwarded(p, after[FORWARDED], chain)
          && Reprints(Elements(Seen(before, FORWARDED)), Elements(after[FORWARDED][0])))
    && (FORWARDED_FOR in after ==> CanonicalForwardedFor(p, after[FORWARDED_FOR], chain))
  }

  /** Only the header `name` may differ. */
  ghost predicate Besides(name: string, before: Headers, after: Headers) {
    forall k | k != name :: (k in after <==> k in before) && (k in after ==> after[k] == before[k])
  }

  /** Some value of a forwarding header, not only the first, is not blank. */
  ghost predicate Residue(headers: Headers) {
    exists name, i | (name == FORWARDED || name == FORWARDED_FOR) && name in headers && 0 <= i < |headers[name]| ::
      Trim(headers[name][i]) != ""
  }

  /** Headers other than the forwarding ones are as they were. */
  ghost predicate OthersKept(before: Headers, after: Headers) {
    forall k | k != "forwarded" && !("x-forwarded-" <= k) :: (k in after <==> k in before)
      && (k in after ==> after[k] == before[k])
  }

  predicate Blank(headers: Headers) { Seen(headers, FORWARDED) == "" && Seen(headers, FORWARDED_FOR) == "" }

  function Strip(headers: Headers): Headers { map k | k in headers && !IsProxyHeader(k) :: headers[k] }

  lemma OneChain(p: Policy, headers: Headers, a: seq<Addr>, b: seq<Addr>)
    requires Names(p, headers, a) && Names(p, headers, b)
    ensures a == b
  {
    ForwardedIff(p.parse, Seen(headers, FORWARDED));
    ForwardedForIff(p.parse, Seen(headers, FORWARDED_FOR));
  }

  /** A request that names a chain is believable iff the peer and the hops after the first are trusted. */
  lemma TrustDecides(p: Policy, headers: Headers, remoteAddr: string, chain: seq<Addr>)
    requires Names(p, headers, chain)
    ensures var peer := PeerAddr(p, remoteAddr);
      if HopsTrusted(p, chain) && peer.Some? && p.trusted(peer.value) then Believable(p, headers, remoteAddr, chain)
      else Unbelievable(p, headers, remoteAddr)
  {
    forall other | Names(p, headers, other) ensures other == chain {
      OneChain(p, headers, other, chain);
    }
  }

  // ---- What admission does, on values ----

  /** What admission reads of a request. */
  datatype Arrival = Arrival(headers: Headers, query: map<string, string>, remoteAddr: string)

  /**
    Both headers after they have been read: each rewritten or removed, and the chain they name or why there is none.
   */
  datatype Reading = Reading(
    headers: Headers, forwarded: string, forwardedFor: string, chain: Result<seq<Addr>, ForwardedError>)

  /** The Forwarded header; [] stands for a blank header, which is removed. */
  function ReadFirst(p: Policy, headers: Headers): Reading {
    var seen, other := Seen(headers, FORWARDED), Seen(headers, FORWARDED_FOR);
    if seen == "" then Reading(headers - {FORWARDED}, "", other, Ok([]))
    else
      match ReadForwarded(p.parse, seen)
      case Err(e) =>
        Reading(headers, seen, other, Err(if e == ChainMissing || e == DirectiveEmpty then e else ChainInvalid))
      case Ok(c) => Reading(headers[FORWARDED := [c.text]], c.text, other, Ok(c.hops))
  }

  /** The X-Forwarded-For header, next to what the other one named. */
  function ReadSecond(p: Policy, r: Reading, first: seq<Addr>): Reading {
    if r.forwardedFor == ""
    then r.(headers := r.headers - {FORWARDED_FOR}, chain := if first == [] then Err(ChainMissing) else Ok(first))
    else
      match ReadForwardedFor(p.parse, r.forwardedFor)
      case Err(_) => r.(chain := Err(ChainInvalid))
      case Ok(hops) =>
        if hops == [] then r.(chain := Err(ChainMissing))
        else
          var text := JoinAddrs(p.show, hops);
          Reading(r.headers[FORWARDED_FOR := [text]], r.forwarded, text,
                  if first == [] || first == hops then Ok(hops) else Err(Mismatch))
  }

  function ReadHeaders(p: Policy, headers: Headers): Reading {
    var r := ReadFirst(p, headers);
    if r.chain.Err? then r else ReadSecond(p, r, r.chain.value)
  }

  /** Why a chain from this peer is not believed; None when it is. */
  function Doubt(p: Policy, peer: Addr, chain: Result<seq<Addr>, ForwardedError>): Option<Refusal> {
    if chain.Err? then Some(Invalid(chain.error))
    else if !HopsTrusted(p, chain.value) then Some(UntrustedChain)
    else if !p.trusted(peer) then Some(UntrustedPeer)
    else None
  }

  /** The outcome of the proxy check. */
  datatype Check = Check(
    headers: Headers, forwarded: string, forwardedFor: string,
    trusted: bool, stripped: bool, clientIP: string, refusal: Option<Refusal>)

  function Unchecked(p: Policy, a: Arrival): Check {
    Check(a.headers, Seen(a.headers, FORWARDED), Seen(a.headers, FORWARDED_FOR), false, false, p.hostOf(a.remoteAddr),
          None)
  }

  /** In development mode the headers are dropped and the run goes on; otherwise the request is refused. */
  function Untrusted(p: Policy, c: Check, why: Refusal): Check {
    if p.development then c.(headers := Strip(c.headers), forwarded := "", forwardedFor := "", stripped := true)
    else c.(refusal := Some(why))
  }

  function CheckHeaders(p: Policy, a: Arrival, peer: Addr): Check {
    var r := ReadHeaders(p, a.headers);
    var c := Unchecked(p, a).(headers := r.headers, forwarded := r.forwarded, forwardedFor := r.forwardedFor);
    match Doubt(p, peer, r.chain)
    case Some(why) => Untrusted(p, c, why)
    case None =>
      if r.chain.Err? || r.chain.value == [] then c
      else c.(trusted := true, clientIP := p.show(r.chain.value[0]))
  }

  /** A request that shows no forwarding header passes unchecked. */
  function CheckProxies(p: Policy, a: Arrival): Check {
    if Blank(a.headers) then Unchecked(p, a)
    else
      match PeerAddr(p, a.remoteAddr)
      case None => Unchecked(p, a).(refusal := Some(BadRemote))
      case Some(peer) => CheckHeaders(p, a, peer)
  }

  /** Everything admission leaves behind. */
  datatype Admitted = Admitted(check: Check, credentials: seq<Credential>, refusal: Option<Refusal>)
  {
    predicate Authenticated() { refusal.None? }
  }

  function Admit(p: Policy, a: Arrival): Admitted {
    var c := CheckProxies(p, a);
    if c.refusal.Some? then Admitted(c, [], c.refusal)
    else
      var credentials := Collect(p.allow, p.decode, c.headers, a.query);
      Admitted(c, credentials, if credentials == [] && p.required then Some(NoCredential) else None)
  }

  // ---- What that means ----

  /** The Forwarded header was read as `chain` and rewritten; [] stands for a blank header, which is removed. */
  ghost predicate ForwardedDone(p: Policy, before: Headers, after: Headers, chain: seq<Addr>) {
    if Seen(before, FORWARDED) == "" then chain == [] && FORWARDED !in after
    else
      && chain != [] && ForwardedSays(p, before, chain)
      && FORWARDED in after && CanonicalForwarded(p, after[FORWARDED], chain)
      && Reprints(Elements(Seen(before, FORWARDED)), Elements(after[FORWARDED][0]))
  }

  ghost predicate ForwardedForDone(p: Policy, before: Headers, after: Headers, chain: seq<Addr>) {
    if Seen(before, FORWARDED_FOR) == "" then chain == [] && FORWARDED_FOR !in after
    else
      && chain != [] && ForwardedForSays(p, before, chain)
      && FORWARDED_FOR in after && CanonicalForwardedFor(p, after[FORWARDED_FOR], chain)
  }

  lemma FirstIsRead(p: Policy, headers: Headers)
    ensures var r := ReadFirst(p, headers);
      && Besides(FORWARDED, headers, r.headers)
      && (r.chain.Ok? ==> ForwardedDone(p, headers, r.headers, r.chain.value))
      && (r.chain.Err? ==> Seen(headers, FORWARDED) != "" && forall chain :: !ForwardedSays(p, headers, chain))
      && r.forwardedFor == Seen(headers, FORWARDED_FOR)
  {
    var seen := Seen(headers, FORWARDED);
    ForwardedIff(p.parse, seen);
    if seen != "" && ReadForwarded(p.parse, seen).Ok? {
      NormalisingIsIdempotent(p.parse, seen);
      RewritingKeepsPairs(p.parse, seen);
    }
  }

  /** The X-Forwarded-For header by itself, when the other one named nothing that differs. */
  lemma SecondIsRead(p: Policy, before: Reading, first: seq<Addr>)
    requires Codec(p.parse, p.show) && before.forwardedFor == Seen(before.headers, FORWARDED_FOR)
    requires first != [] || before.forwardedFor != ""
    ensures var r := ReadSecond(p, before, first);
      && Besides(FORWARDED_FOR, before.headers, r.headers)
      && (r.chain.Err? && r.chain.error != Mismatch ==>
            before.forwardedFor != "" && forall chain | ForwardedForSays(p, before.headers, chain) :: chain == [])
      && (r.chain.Ok? || r.chain.error == Mismatch ==>
            exists hops :: ForwardedForDone(p, before.headers, r.headers, hops)
              && (r.chain.Err? <==> first != [] && hops != [] && first != hops)
              && (r.chain.Ok? ==> r.chain.value == if hops == [] then first else hops))
  {
    ForwardedForIff(p.parse, before.forwardedFor);
    if before.forwardedFor == "" {
      assert ForwardedForDone(p, before.headers, ReadSecond(p, before, first).headers, []);
    } else if ReadForwardedFor(p.parse, before.forwardedFor).Ok? {
      var hops := ReadForwardedFor(p.parse, before.forwardedFor).value;
      if hops != [] {
        ForwardedForRoundTrip(p.parse, p.show, before.forwardedFor);
        assert ForwardedForDone(p, before.headers, ReadSecond(p, before, first).headers, hops);
      }
    }
  }

  /** Rewriting one header leaves what the other is seen to say. */
  lemma SameSeen(p: Policy, before: Headers, after: Headers)
    requires Besides(FORWARDED, before, after)
    ensures Seen(after, FORWARDED_FOR) == Seen(before, FORWARDED_FOR)
    ensures forall c :: ForwardedForSays(p, after, c) <==> ForwardedForSays(p, before, c)
  {
    assert FORWARDED != FORWARDED_FOR;
  }

  lemma BothKept(before: Headers, between: Headers, after: Headers)
    requires Besides(FORWARDED, before, between) && Besides(FORWARDED_FOR, between, after)
    ensures OthersKept(before, after)
  {
    assert "x-forwarded-" <= FORWARDED_FOR;
  }

  /** Both headers read: they name one chain unless both are present and differ. */
  lemma BothRead(p: Policy, before: Headers, between: Headers, after: Headers, a: seq<Addr>, b: seq<Addr>)
    requires Besides(FORWARDED, before, between) && Besides(FORWARDED_FOR, between, after)
    requires ForwardedDone(p, before, between, a) && ForwardedForDone(p, between, after, b)
    requires a != [] || b != []
    ensures a == [] || b == [] || a == b ==>
      var chain := if a != [] then a else b; Names(p, before, chain) && Rewritten(p, before, after, chain)
    ensures a != [] && b != [] && a != b ==> forall chain :: !Names(p, before, chain)
  {
    SameSeen(p, before, between);
    assert FORWARDED != FORWARDED_FOR;
    assert FORWARDED in after <==> FORWARDED in between;
  }

  /** Reading succeeds iff the headers name one chain, and then both are rewritten to it. */
  lemma HeadersAreRead(p: Policy, headers: Headers)
    requires Codec(p.parse, p.show) && !Blank(headers)
    ensures var r := ReadHeaders(p, headers);
      && OthersKept(headers, r.headers)
      && (r.chain.Ok? ==> Names(p, headers, r.chain.value) && Rewritten(p, headers, r.headers, r.chain.value))
      && (r.chain.Err? ==> forall chain :: !Names(p, headers, chain))
  {
    FirstIsRead(p, headers);
    var first := ReadFirst(p, headers);
    SameSeen(p, headers, first.headers);
    if first.chain.Ok? {
      var r := ReadHeaders(p, headers);
      SecondIsRead(p, first, first.chain.value);
      BothKept(headers, first.headers, r.headers);
      if r.chain.Ok? || r.chain.error == Mismatch {
        var hops :| ForwardedForDone(p, first.headers, r.headers, hops)
          && (r.chain.Err? <==> first.chain.value != [] && hops != [] && first.chain.value != hops)
          && (r.chain.Ok? ==> r.chain.value == if hops == [] then first.chain.value else hops);
        BothRead(p, headers, first.headers, r.headers, first.chain.value, hops);
      }
    }
  }

  /** No header is left that could name a hop. */
  ghost predicate Cleared(headers: Headers) { forall k | k in headers :: k != "forwarded" && !("x-forwarded-" <= k) }

  lemma StrippedIsBlank(headers: Headers)
    ensures Cleared(Strip(headers))
    ensures Blank(Strip(headers)) && !Residue(Strip(headers)) && OthersKept(headers, Strip(headers))
  {
    assert "x-forwarded-" <= FORWARDED_FOR;
    assert FORWARDED !in Strip(headers) && FORWARDED_FOR !in Strip(headers);
  }

  /**
    What checking non-blank forwarding headers comes to.  A trusted run is believable, its client is the first hop and
    its headers are rewritten; otherwise the client is the peer, and the headers are gone unless the request is refused.
   */
  ghost predicate Decided(p: Policy, a: Arrival, c: Check) {
    && OthersKept(a.headers, c.headers) && c.refusal != Some(NoCredential)
    && if c.trusted then
         && c.refusal.None? && !c.stripped
         && exists chain :: Believable(p, a.headers, a.remoteAddr, chain)
                                        && Rewritten(p, a.headers, c.headers, chain)
              && c.clientIP == p.show(chain[0])
       else
         && c.clientIP == p.hostOf(a.remoteAddr) && Unbelievable(p, a.headers, a.remoteAddr)
         && (c.refusal.None? <==> p.development && PeerAddr(p, a.remoteAddr).Some?)
         && (c.refusal.None? ==> c.stripped && Cleared(c.headers) && Blank(c.headers) && !Residue(c.headers))
  }

  /** Both headers name a chain, and not the same one. */
  ghost predicate Disagree(p: Policy, headers: Headers) {
    && Seen(headers, FORWARDED) != "" && Seen(headers, FORWARDED_FOR) != ""
    && exists chain, other ::
         ForwardedSays(p, headers, chain) && ForwardedForSays(p, headers, other) && other != [] && chain != other
  }

  /** Why a request is refused, by what it shows: no peer, no one chain, a hop or a peer that is not trusted. */
  ghost predicate Grounds(p: Policy, a: Arrival, why: Refusal) {
    match why
    case BadRemote => !HasPeer(p, a.remoteAddr)
    case Invalid(error) =>
      && HasPeer(p, a.remoteAddr) && (forall chain :: !Names(p, a.headers, chain))
      && (error == Mismatch <==> Disagree(p, a.headers))
    case UntrustedChain =>
      HasPeer(p, a.remoteAddr) && exists chain :: Names(p, a.headers, chain) && !HopsTrusted(p, chain)
    case UntrustedPeer =>
      && HasPeer(p, a.remoteAddr) && !p.trusted(p.parseAddr(p.hostOf(a.remoteAddr)).value)
      && exists chain :: Names(p, a.headers, chain) && HopsTrusted(p, chain)
    case NoCredential => false
  }

  lemma InvalidOnGrounds(p: Policy, headers: Headers, error: ForwardedError)
    requires Codec(p.parse, p.show) && !Blank(headers) && ReadHeaders(p, headers).chain == Err(error)
    ensures (forall chain :: !Names(p, headers, chain)) && (error == Mismatch <==> Disagree(p, headers))
  {
    HeadersAreRead(p, headers);
    if Disagree(p, headers) {
      DisagreeingMismatch(p, headers);
    }
    if error == Mismatch {
      MismatchDisagrees(p, headers);
    }
  }

  lemma DoubtedOnGrounds(p: Policy, a: Arrival, peer: Addr)
    requires Codec(p.parse, p.show) && !Blank(a.headers) && PeerAddr(p, a.remoteAddr) == Some(peer)
    ensures var doubt := Doubt(p, peer, ReadHeaders(p, a.headers).chain);
      doubt.Some? ==> Grounds(p, a, doubt.value)
  {
    var chain := ReadHeaders(p, a.headers).chain;
    if chain.Err? {
      InvalidOnGrounds(p, a.headers, chain.error);
    } else {
      HeadersAreRead(p, a.headers);
      assert Names(p, a.headers, chain.value);
    }
  }

  lemma RefusalIsDoubt(p: Policy, a: Arrival, peer: Addr)
    ensures var c := CheckHeaders(p, a, peer);
      c.refusal.Some? ==> c.refusal == Doubt(p, peer, ReadHeaders(p, a.headers).chain)
  {
  }

  lemma RefusedOnGrounds(p: Policy, a: Arrival)
    requires Codec(p.parse, p.show) && !Blank(a.headers) && CheckProxies(p, a).refusal.Some?
    ensures Grounds(p, a, CheckProxies(p, a).refusal.value)
  {
    var peer := PeerAddr(p, a.remoteAddr);
    if peer.Some? {
      DoubtedOnGrounds(p, a, peer.value);
      RefusalIsDoubt(p, a, peer.value);
    }
  }

  lemma SecondMismatch(p: Policy, r: Reading, first: seq<Addr>)
    ensures ReadSecond(p, r, first).chain == Err(Mismatch) <==>
      && r.forwardedFor != "" && first != []
      && exists hops :: ReadForwardedFor(p.parse, r.forwardedFor) == Ok(hops) && hops != [] && first != hops
  {
  }

  lemma FirstMismatch(p: Policy, headers: Headers)
    ensures var r := ReadFirst(p, headers); var seen := Seen(headers, FORWARDED);
      && r.chain != Err(Mismatch) && r.forwardedFor == Seen(headers, FORWARDED_FOR)
      && (seen == "" ==> r.chain == Ok([]))
      && (seen != "" ==> forall chain :: ForwardedSays(p, headers, chain) <==> r.chain == Ok(chain))
  {
    ForwardedIff(p.parse, Seen(headers, FORWARDED));
  }

  lemma HeadersSplit(p: Policy, headers: Headers)
    ensures var r := ReadFirst(p, headers);
      ReadHeaders(p, headers).chain == if r.chain.Err? then r.chain else ReadSecond(p, r, r.chain.value).chain
  {
  }

  lemma DisagreeingMismatch(p: Policy, headers: Headers)
    requires Disagree(p, headers)
    ensures ReadHeaders(p, headers).chain == Err(Mismatch)
  {
    var chain, other :| ForwardedSays(p, headers, chain) && ForwardedForSays(p, headers, other)
      && other != [] && chain != other;
    HeadersSplit(p, headers);
    FirstMismatch(p, headers);
    ForwardedForIff(p.parse, Seen(headers, FORWARDED_FOR));
    ForwardedChainIsSome(p, headers);
    SecondMismatch(p, ReadFirst(p, headers), chain);
  }

  lemma MismatchDisagrees(p: Policy, headers: Headers)
    requires ReadHeaders(p, headers).chain == Err(Mismatch)
    ensures Disagree(p, headers)
  {
    HeadersSplit(p, headers);
    FirstMismatch(p, headers);
    var r := ReadFirst(p, headers);
    SecondMismatch(p, r, r.chain.value);
    ForwardedForIff(p.parse, Seen(headers, FORWARDED_FOR));
    var hops :| ReadForwardedFor(p.parse, r.forwardedFor) == Ok(hops) && hops != [] && r.chain.value != hops;
    assert ForwardedSays(p, headers, r.chain.value) && ForwardedForSays(p, headers, hops);
  }

  lemma ForwardedChainIsSome(p: Policy, headers: Headers)
    ensures !ForwardedSays(p, headers, [])
  {
    ForwardedIff(p.parse, Seen(headers, FORWARDED));
  }

  lemma HeadersAreChecked(p: Policy, a: Arrival, peer: Addr)
    requires Codec(p.parse, p.show) && !Blank(a.headers) && PeerAddr(p, a.remoteAddr) == Some(peer)
    ensures Decided(p, a, CheckHeaders(p, a, peer))
  {
    HeadersAreRead(p, a.headers);
    var r := ReadHeaders(p, a.headers);
    if r.chain.Ok? {
      TrustDecides(p, a.headers, a.remoteAddr, r.chain.value);
    }
    StrippedIsBlank(r.headers);
  }

  lemma ProxiesAreChecked(p: Policy, a: Arrival)
    requires Codec(p.parse, p.show) && !Blank(a.headers)
    ensures Decided(p, a, CheckProxies(p, a))
  {
    if PeerAddr(p, a.remoteAddr).Some? {
      HeadersAreChecked(p, a, PeerAddr(p, a.remoteAddr).value);
    }
  }

  lemma BlankIsUnbelievable(p: Policy, headers: Headers, remoteAddr: string)
    requires Blank(headers)
    ensures Unbelievable(p, headers, remoteAddr)
  {
  }

  /**
    Proxy trust over every admission run.  The proxy is trusted exactly when the request is believable, and then the
    client is the first hop and both headers are rewritten to the chain.  Otherwise the client is the peer, and in an
    authenticated run nothing that admission reads as a chain is left; a later header value survives iff the first
    values were blank.
   */
  lemma TrustIffBelievable(p: Policy, a: Arrival)
    requires Codec(p.parse, p.show)
    ensures var c := Admit(p, a).check;
      && (c.trusted <==> !Unbelievable(p, a.headers, a.remoteAddr))
      && (c.trusted ==> exists chain :: Believable(p, a.headers, a.remoteAddr, chain)
                                        && Rewritten(p, a.headers, c.headers, chain)
                          && c.clientIP == p.show(chain[0]))
      && (!c.trusted ==> c.clientIP == p.hostOf(a.remoteAddr))
      && OthersKept(a.headers, c.headers)
      && (Blank(a.headers) ==> c.headers == a.headers && !c.stripped && c.refusal.None?)
      && (c.refusal.Some? ==> Grounds(p, a, c.refusal.value)) && (c.stripped ==> Cleared(c.headers))
      && (Admit(p, a).Authenticated() && !c.trusted ==>
            Blank(c.headers) && (Residue(c.headers) <==> Blank(a.headers) && Residue(a.headers)))
  {
    if Blank(a.headers) {
      BlankIsUnbelievable(p, a.headers, a.remoteAddr);
    } else {
      ProxiesAreChecked(p, a);
      if CheckProxies(p, a).refusal.Some? {
        RefusedOnGrounds(p, a);
      }
    }
  }

  lemma PutIsSeen(headers: Headers, name: string, text: string)
    requires Trimmed(text)
    ensures Seen(headers[name := [text]], name) == text && Seen(headers - {name}, name) == ""
    ensures forall k | k != name :: Seen(headers[name := [text]], k) == Seen(headers - {name}, k) == Seen(headers, k)
  {
    TrimFixpoint(text);
  }

  lemma FirstTells(p: Policy, headers: Headers)
    ensures var r := ReadFirst(p, headers);
      r.chain.Ok? ==> r.forwarded == Seen(r.headers, FORWARDED) && r.forwardedFor == Seen(r.headers, FORWARDED_FOR)
  {
    assert FORWARDED != FORWARDED_FOR;
    var seen := Seen(headers, FORWARDED);
    if seen != "" && ReadForwarded(p.parse, seen).Ok? {
      NormalisingIsIdempotent(p.parse, seen);
      PutIsSeen(headers, FORWARDED, ReadForwarded(p.parse, seen).value.text);
    } else {
      PutIsSeen(headers, FORWARDED, "");
    }
  }

  lemma SecondTells(p: Policy, headers: Headers)
    requires Codec(p.parse, p.show)
    ensures var r := ReadHeaders(p, headers);
      r.chain.Ok? ==> r.forwarded == Seen(r.headers, FORWARDED) && r.forwardedFor == Seen(r.headers, FORWARDED_FOR)
  {
    assert FORWARDED != FORWARDED_FOR;
    FirstTells(p, headers);
    var r := ReadFirst(p, headers);
    if r.chain.Ok? && r.forwardedFor != "" {
      var hops := ReadForwardedFor(p.parse, r.forwardedFor);
      if hops.Ok? && hops.value != [] {
        ForwardedForRoundTrip(p.parse, p.show, r.forwardedFor);
        TrimFixpoint(JoinAddrs(p.show, hops.value));
      }
    }
  }

  lemma HeadersTell(p: Policy, a: Arrival, peer: Addr)
    requires Codec(p.parse, p.show) && CheckHeaders(p, a, peer).refusal.None?
    ensures Told(CheckHeaders(p, a, peer))
  {
    SecondTells(p, a.headers);
    StrippedIsBlank(ReadHeaders(p, a.headers).headers);
  }

  /** What the rest of the pipeline is told of the two headers is what they now say. */
  predicate Told(c: Check) {
    c.forwarded == Seen(c.headers, FORWARDED) && c.forwardedFor == Seen(c.headers, FORWARDED_FOR)
  }

  lemma StateTellsHeaders(p: Policy, a: Arrival)
    requires Codec(p.parse, p.show) && CheckProxies(p, a).refusal.None?
    ensures Told(CheckProxies(p, a))
  {
    if !Blank(a.headers) && PeerAddr(p, a.remoteAddr).Some? {
      HeadersTell(p, a, PeerAddr(p, a.remoteAddr).value);
    }
  }

  /** The forwarding headers of a request stop it: it shows some, cannot be believed, and is not a development run. */
  ghost predicate Stopped(p: Policy, a: Arrival) {
    && !Blank(a.headers) && Unbelievable(p, a.headers, a.remoteAddr)
    && !(p.development && HasPeer(p, a.remoteAddr))
  }

  /** The headers that credentials are read from. */
  function HeadersLeft(p: Policy, a: Arrival): Headers { CheckProxies(p, a).headers }

  /** The request carries a credential of a kind the endpoint allows. */
  ghost predicate HasCredential(p: Policy, a: Arrival) {
    exists c :: Carried(p.allow, p.decode, HeadersLeft(p, a), a.query, c)
  }

  /**
    Who is authenticated: exactly the requests that their forwarding headers do not stop and that carry a credential
    the endpoint allows, or need none; a request that is let through so far but carries none is challenged.  What is
    handed on is every such credential and nothing else.
   */
  lemma AuthenticatedIff(p: Policy, a: Arrival)
    requires Codec(p.parse, p.show)
    ensures var admitted := Admit(p, a);
      && (admitted.Authenticated() <==> !Stopped(p, a) && (HasCredential(p, a) || !p.required))
      && (admitted.refusal == Some(NoCredential) <==> !Stopped(p, a) && !HasCredential(p, a) && p.required)
      && forall c :: c in admitted.credentials <==>
           !Stopped(p, a) && Carried(p.allow, p.decode, HeadersLeft(p, a), a.query, c)
  {
    FoundIff(p.allow, p.decode, HeadersLeft(p, a), a.query);
    forall c ensures c in Collect(p.allow, p.decode, HeadersLeft(p, a), a.query) <==>
        Carried(p.allow, p.decode, HeadersLeft(p, a), a.query, c) {
      CollectedIff(p.allow, p.decode, HeadersLeft(p, a), a.query, c);
    }
    RefusedIff(p, a);
  }

  lemma RefusedIff(p: Policy, a: Arrival)
    requires Codec(p.parse, p.show)
    ensures CheckProxies(p, a).refusal.Some? <==> Stopped(p, a)
    ensures CheckProxies(p, a).refusal != Some(NoCredential)
  {
    if Blank(a.headers) {
      BlankIsUnbelievable(p, a.headers, a.remoteAddr);
    } else {
      ProxiesAreChecked(p, a);
    }
  }

  /** Only the first value counts: an authenticated run hands on a chain that is hidden in a later value. */
  lemma LaterValuesEscape(p: Policy, query: map<string, string>, remoteAddr: string)
    requires !p.required
    ensures var a := Arrival(map[FORWARDED_FOR := ["", "10.0.0.1"]], query, remoteAddr);
      Admit(p, a).Authenticated() && !Admit(p, a).check.trusted && Residue(Admit(p, a).check.headers)
  {
    var headers: Headers := map[FORWARDED_FOR := ["", "10.0.0.1"]];
    TrimFixpoint("10.0.0.1");
    assert Trim(headers[FORWARDED_FOR][1]) != "";
    assert Blank(headers);
  }

  // ---- The agent ----

  class Agent {
    const policy: Policy

    constructor (policy: Policy)
      ensures this.policy == policy
    {
      this.policy := policy;
    }

    method StripForwardedHeaders(r: Request)
      modifies r
      ensures r.headers == Strip(old(r.headers))
    {
      var names := r.headers.Keys;
      while names != {}
        invariant names <= old(r.headers).Keys
        invariant r.headers == map k | k in old(r.headers) && (k in names || !IsProxyHeader(k)) :: old(r.headers)[k]
        decreases |names|
      {
        var name :| name in names;
        if IsProxyHeader(name) {
          r.headers := r.headers - {name};
        }
        names := names - {name};
      }
    }

    /** Reads both headers and rewrites each to its canonical text; fails unless they name one chain. */
    method PrepareForwardedMetadata(r: Request, out: AdmissionState) returns (res: Result<seq<Addr>, ForwardedError>)
      requires out.forwarded == Seen(r.headers, FORWARDED) && out.forwardedFor == Seen(r.headers, FORWARDED_FOR)
      modifies r, out`forwarded, out`forwardedFor
      ensures Reading(r.headers, out.forwarded, out.forwardedFor, res) == ReadHeaders(policy, old(r.headers))
    {
      var canonical: seq<Addr> := [];
      if out.forwarded != "" {
        var parsed := ParseForwarded(policy.parse, out.forwarded);
        if parsed.Err? {
          var said := parsed.error == ChainMissing || parsed.error == DirectiveEmpty;
          return Err(if said then parsed.error else ChainInvalid);
        }
        canonical := parsed.value.hops;
        out.forwarded := parsed.value.text;
        r.headers := r.headers[FORWARDED := [out.forwarded]];
      } else {
        r.headers := r.headers - {FORWARDED};
      }

      if out.forwardedFor != "" {
        var parsed := ParseForwardedChain(policy.parse, out.forwardedFor);
        if parsed.Err? {
          return Err(ChainInvalid);
        }
        if parsed.value == [] {
          return Err(ChainMissing);
        }
        out.forwardedFor := JoinAddrs(policy.show, parsed.value);
        r.headers := r.headers[FORWARDED_FOR := [out.forwardedFor]];
        if canonical == [] {
          canonical := parsed.value;
        } else if canonical != parsed.value {
          return Err(Mismatch);
        }
      } else {
        r.headers := r.headers - {FORWARDED_FOR};
      }
      return if canonical == [] then Err(ChainMissing) else Ok(canonical);
    }

    /** In development mode the headers are dropped and the run goes on; otherwise the request is refused. */
    method HandleUntrustedProxy(r: Request, out: AdmissionState, refusal: Refusal) returns (goOn: bool)
      requires !out.proxyStripped && out.refusal.None?
      modifies r, out
      ensures goOn == policy.development
      ensures out.Checked(r) == Untrusted(policy, old(out.Checked(r)), refusal)
      ensures !goOn ==> !out.authenticated
      ensures out.credentials == old(out.credentials)
    {
      if policy.development {
        out.proxyStripped := true;
        StripForwardedHeaders(r);
        out.forwardedFor, out.forwarded := "", "";
        return true;
      }
      out.authenticated, out.refusal, out.proxyStripped := false, Some(refusal), false;
      return false;
    }

    /** The proxy half of Execute: decide on trust, rewrite or strip, or refuse the request. */
    method CheckProxy(r: Request, out: AdmissionState)
      requires out.Checked(r) == Unchecked(policy, r.Arrives())
      modifies r, out
      ensures out.Checked(r) == CheckProxies(policy, old(r.Arrives()))
      ensures out.refusal.Some? ==> !out.authenticated
      ensures out.credentials == old(out.credentials)
    {
      if out.forwardedFor == "" && out.forwarded == "" {
        return;
      }
      var peer := PeerAddr(policy, r.remoteAddr);
      if peer.None? {
        out.authenticated, out.refusal := false, Some(BadRemote);
        return;
      }
      CheckChain(r, out, peer.value);
    }

    /** Reads the chain of a request from this peer and acts on it. */
    method CheckChain(r: Request, out: AdmissionState, peer: Addr)
      requires out.Checked(r) == Unchecked(policy, r.Arrives())
      modifies r, out
      ensures out.Checked(r) == CheckHeaders(policy, old(r.Arrives()), peer)
      ensures out.refusal.Some? ==> !out.authenticated
      ensures out.credentials == old(out.credentials)
    {
      var read := PrepareForwardedMetadata(r, out);
      var doubt := Doubt(policy, peer, read);
      if doubt.Some? {
        var _ := HandleUntrustedProxy(r, out, doubt.value);
      } else if read.value != [] {
        out.trustedProxy, out.clientIP := true, policy.show(read.value[0]);
      }
    }

    method CollectCredentials(r: Request, out: AdmissionState)
      requires out.refusal.None?
      modifies out`credentials, out`authenticated, out`refusal
      ensures out.credentials == Collect(policy.allow, policy.decode, r.headers, r.query)
      ensures out.authenticated <==> out.credentials != [] || !policy.required
      ensures out.refusal == if out.authenticated then None else Some(NoCredential)
    {
      out.credentials := Collect(policy.allow, policy.decode, r.headers, r.query);
      out.authenticated := true;
      if out.credentials == [] && policy.required {
        out.authenticated, out.refusal := false, Some(NoCredential);
      }
    }

    method Execute(r: Request, out: AdmissionState)
      modifies r, out
      ensures var admitted := Admit(policy, old(r.Arrives()));
        && out.Checked(r) == admitted.check.(refusal := admitted.refusal)
        && out.credentials == admitted.credentials && out.authenticated == admitted.Authenticated()
    {
      out.trustedProxy, out.proxyStripped, out.refusal := false, false, None;
      out.forwardedFor, out.forwarded := Trim(Get(r.headers, FORWARDED_FOR)), Trim(Get(r.headers, FORWARDED));
      out.clientIP, out.credentials := policy.hostOf(r.remoteAddr), [];
      CheckProxy(r, out);
      if out.refusal.None? {
        CollectCredentials(r, out);
      }
    }
  }
}
