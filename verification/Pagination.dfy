/**
  The backend agent: send the rendered request, then follow `rel="next"` links until there is none,
  a link repeats, or the page limit is reached.  The network is arbitrary: the n-th request sent may
  get any response at all, or fail.
 */
module Pagination {
  import opened Wrappers
  import opened Text
  import opened Links

  datatype Rendered = Rendered(
    verb: string, url: string, headers: map<string, string>, query: map<string, string>, body: string)

  datatype Backend = Backend(url: string, verb: string, accepted: set<int>, linkHeader: bool, maxPages: int)
  {
    predicate Configured() { url != "" }

    predicate Accepts(status: int) { accepted == {} || status in accepted }
  }

  datatype HttpRequest = HttpRequest(verb: string, url: string, headers: map<string, string>, body: string)

  datatype HttpResponse = HttpResponse(status: int, headers: map<string, string>, links: seq<string>, body: string)

  /** The library and network calls the agent makes. */
  datatype Web = Web(
    /** url.Parse followed by http.NewRequest: the URL as it will be sent, None on error. */
    parse: string -> Option<string>,
    /** Adds the query parameters the URL does not already carry. */
    withQuery: (string, map<string, string>) -> string,
    resolve: Resolver,
    /** The n-th request sent; None covers transport, read, close and JSON decoding errors. */
    send: (nat, HttpRequest) -> Option<HttpResponse>)

  datatype Page = Page(url: string, status: int, headers: map<string, string>, body: string, accepted: bool)

  datatype BackendState = BackendState(
    requested: bool, status: int, headers: map<string, string>, body: string, error: string,
    accepted: bool, pages: seq<Page>)

  /** One request that was answered: the link that was followed, what was sent and what came back. */
  datatype Exchange = Exchange(link: string, request: HttpRequest, response: HttpResponse)

  /** A whole conversation: the answered requests, how many were sent, and whether it ended in an error. */
  datatype Fetched = Fetched(exchanges: seq<Exchange>, sent: nat, failed: bool)

  function PageOf(b: Backend, x: Exchange): Page {
    Page(x.request.url, x.response.status, x.response.headers, x.response.body, b.Accepts(x.response.status))
  }

  function PagesOf(b: Backend, xs: seq<Exchange>): (pages: seq<Page>)
    ensures |pages| == |xs| && forall i | 0 <= i < |xs| :: pages[i] == PageOf(b, xs[i])
  {
    seq(|xs|, i requires 0 <= i < |xs| => PageOf(b, xs[i]))
  }

  /** Headers whose value is blank are not sent. */
  function WithoutBlanks(r: Rendered): Rendered {
    r.(headers := map k | k in r.headers && Trim(r.headers[k]) != "" :: r.headers[k])
  }

  /** The request for a followed link; headers and body go with the first page only. */
  function RequestFor(w: Web, r: Rendered, url: string, first: bool): HttpRequest {
    HttpRequest(r.verb, if r.query == map[] then url else w.withQuery(url, r.query),
                if first then r.headers else map[], if first then r.body else "")
  }

  /** The link an exchange hands on to the next page, trimmed; "" when pagination is off or there is none. */
  function Onward(w: Web, b: Backend, x: Exchange): string {
    if b.linkHeader then Trim(NextLink(w.resolve, x.request.url, x.response.links)) else ""
  }

  /** How one page leads to the next; what holds of every conversation holds for any such function. */
  type Leads = Exchange -> string

  function LeadsOf(w: Web, b: Backend): Leads { x => Onward(w, b, x) }

  /** The rest of a conversation: `link` is the trimmed link to follow, `call` the number of requests sent before. */
  function Fetch(w: Web, r: Rendered, next: Leads, link: string, visited: set<string>, left: nat, first: bool,
                 call: nat): Fetched
    decreases left
  {
    if left == 0 || link == "" || link in visited then Fetched([], 0, false)
    else
      match w.parse(link)
      case None => Fetched([], 0, true)
      case Some(url) =>
        var request := RequestFor(w, r, url, first);
        match w.send(call, request)
        case None => Fetched([], 1, true)
        case Some(response) =>
          var x := Exchange(link, request, response);
          var rest := Fetch(w, r, next, next(x), visited + {link}, left - 1, false, call + 1);
          Fetched([x] + rest.exchanges, 1 + rest.sent, rest.failed)
  }

  function PageLimit(b: Backend): nat { if b.maxPages <= 0 then 1 else b.maxPages }

  function FetchAll(w: Web, r: Rendered, b: Backend, call: nat): Fetched {
    Fetch(w, WithoutBlanks(r), LeadsOf(w, b), Trim(r.url), {}, PageLimit(b), true, call)
  }

  /** Whether some page had an accepted status. */
  predicate AnyAccepted(pages: seq<Page>) {
    pages != [] && (pages[|pages| - 1].accepted || AnyAccepted(pages[..|pages| - 1]))
  }

  /** What a conversation leaves in the backend state; an error keeps everything but a page already accepted. */
  function Conclude(b: Backend, before: BackendState, f: Fetched): BackendState {
    var pages := PagesOf(b, f.exchanges);
    if f.failed then before.(accepted := before.accepted || AnyAccepted(pages))
    else if pages == [] then before
    else
      var last := pages[|pages| - 1];
      before.(requested := true, pages := pages, status := last.status, headers := last.headers,
              body := last.body, accepted := last.accepted)
  }

  // ---- What every conversation satisfies, against any network ----

  ghost predicate Follows(next: Leads, prev: Exchange, x: Exchange) {
    x.link == next(prev)
  }

  /** Each exchange follows the next link of the one before, and no link is followed twice. */
  ghost predicate Chained(next: Leads, start: string, visited: set<string>, xs: seq<Exchange>) {
    && (xs != [] ==> xs[0].link == start)
    && (forall i | 0 <= i < |xs| :: xs[i].link != "" && xs[i].link !in visited)
    && (forall i | 0 <= i < |xs| - 1 :: Follows(next, xs[i], xs[i + 1]))
    && (forall i, j | 0 <= i < j < |xs| :: xs[i].link != xs[j].link)
  }

  /** The requests are numbered from `call` and each answer is the network's answer to that request. */
  ghost predicate Answered(w: Web, call: nat, xs: seq<Exchange>) {
    forall i | 0 <= i < |xs| :: w.send(call + i, xs[i].request) == Some(xs[i].response)
  }

  /** A conversation that did not fail stops only for a reason: the limit, no link, or a link already followed. */
  ghost predicate Complete(next: Leads, start: string, visited: set<string>, left: nat, xs: seq<Exchange>) {
    var onward := if xs == [] then start else next(xs[|xs| - 1]);
    |xs| == left || onward == "" || onward in visited || exists i | 0 <= i < |xs| :: xs[i].link == onward
  }

  lemma ChainedCons(next: Leads, start: string, visited: set<string>, x: Exchange, rest: seq<Exchange>)
    requires x.link == start && x.link != "" && x.link !in visited
    requires Chained(next, next(x), visited + {x.link}, rest)
    ensures Chained(next, start, visited, [x] + rest)
  {
    var xs := [x] + rest;
    assert forall i | 1 <= i < |xs| :: xs[i] == rest[i - 1];
    if rest != [] {
      assert rest[0].link != "";
      assert Follows(next, x, rest[0]);
    }
    forall i | 0 <= i < |xs| - 1 ensures Follows(next, xs[i], xs[i + 1]) {
      if i > 0 {
        assert Follows(next, rest[i - 1], rest[i]);
      }
    }
  }

  /** A conversation with an answer is that exchange followed by the conversation its link leads to. */
  lemma FetchCons(w: Web, r: Rendered, next: Leads, link: string, visited: set<string>, left: nat, first: bool,
                  call: nat)
    requires Fetch(w, r, next, link, visited, left, first, call).exchanges != []
    ensures var f := Fetch(w, r, next, link, visited, left, first, call); var x := f.exchanges[0];
      && left > 0 && x.link == link && x.link != "" && x.link !in visited
      && w.send(call, x.request) == Some(x.response)
      && var rest := Fetch(w, r, next, next(x), visited + {x.link}, left - 1, false, call + 1);
         f == Fetched([x] + rest.exchanges, 1 + rest.sent, rest.failed)
  {
  }

  lemma {:induction false} FetchCounts(w: Web, r: Rendered, next: Leads, link: string, visited: set<string>, left: nat,
                                       first: bool, call: nat)
    ensures var f := Fetch(w, r, next, link, visited, left, first, call);
      f.sent <= left && |f.exchanges| <= f.sent <= |f.exchanges| + 1 && (!f.failed ==> f.sent == |f.exchanges|)
    decreases left
  {
    var f := Fetch(w, r, next, link, visited, left, first, call);
    if f.exchanges != [] {
      FetchCons(w, r, next, link, visited, left, first, call);
      var x := f.exchanges[0];
      FetchCounts(w, r, next, next(x), visited + {x.link}, left - 1, false, call + 1);
    }
  }

  lemma {:induction false} FetchChained(w: Web, r: Rendered, next: Leads, link: string, visited: set<string>,
                                        left: nat, first: bool, call: nat)
    ensures Chained(next, link, visited, Fetch(w, r, next, link, visited, left, first, call).exchanges)
    decreases left
  {
    var f := Fetch(w, r, next, link, visited, left, first, call);
    if f.exchanges != [] {
      FetchCons(w, r, next, link, visited, left, first, call);
      var x := f.exchanges[0];
      FetchChained(w, r, next, next(x), visited + {x.link}, left - 1, false, call + 1);
      var rest := Fetch(w, r, next, next(x), visited + {x.link}, left - 1, false, call + 1);
      ChainedCons(next, link, visited, x, rest.exchanges);
    }
  }

  lemma {:induction false} FetchAnswered(w: Web, r: Rendered, next: Leads, link: string, visited: set<string>,
                                         left: nat, first: bool, call: nat)
    ensures Answered(w, call, Fetch(w, r, next, link, visited, left, first, call).exchanges)
    decreases left
  {
    var f := Fetch(w, r, next, link, visited, left, first, call);
    if f.exchanges != [] {
      FetchCons(w, r, next, link, visited, left, first, call);
      var x := f.exchanges[0];
      FetchAnswered(w, r, next, next(x), visited + {x.link}, left - 1, false, call + 1);
      AnsweredCons(w, call, x, Fetch(w, r, next, next(x), visited + {x.link}, left - 1, false, call + 1).exchanges);
    }
  }

  lemma {:induction false} FetchComplete(w: Web, r: Rendered, next: Leads, link: string, visited: set<string>,
                                         left: nat, first: bool, call: nat)
    requires !Fetch(w, r, next, link, visited, left, first, call).failed
    ensures Complete(next, link, visited, left, Fetch(w, r, next, link, visited, left, first, call).exchanges)
    decreases left
  {
    var f := Fetch(w, r, next, link, visited, left, first, call);
    if f.exchanges != [] {
      FetchCons(w, r, next, link, visited, left, first, call);
      var x := f.exchanges[0];
      FetchComplete(w, r, next, next(x), visited + {x.link}, left - 1, false, call + 1);
      var rest := Fetch(w, r, next, next(x), visited + {x.link}, left - 1, false, call + 1);
      CompleteCons(next, link, visited, left, x, rest.exchanges);
    }
  }

  lemma AnsweredCons(w: Web, call: nat, x: Exchange, rest: seq<Exchange>)
    requires w.send(call, x.request) == Some(x.response) && Answered(w, call + 1, rest)
    ensures Answered(w, call, [x] + rest)
  {
    var xs := [x] + rest;
    forall i | 0 <= i < |xs| ensures w.send(call + i, xs[i].request) == Some(xs[i].response) {
      if i > 0 {
        assert xs[i] == rest[i - 1];
        assert w.send(call + 1 + (i - 1), rest[i - 1].request) == Some(rest[i - 1].response);
      }
    }
  }

  lemma CompleteCons(next: Leads, start: string, visited: set<string>, left: nat, x: Exchange, rest: seq<Exchange>)
    requires left > 0
    requires Complete(next, next(x), visited + {x.link}, left - 1, rest)
    ensures Complete(next, start, visited, left, [x] + rest)
  {
    var xs := [x] + rest;
    assert xs[|xs| - 1] == if rest == [] then x else rest[|rest| - 1];
    assert xs[0] == x;
    assert forall i | 0 <= i < |rest| :: xs[i + 1] == rest[i];
  }

  // ---- What is sent ----

  /**
    The request that following `link` comes to: the method and query of the rendered request, its non-blank headers
    and its body with the first page only.
   */
  ghost predicate IsRequest(w: Web, r: Rendered, link: string, first: bool, request: HttpRequest) {
    && w.parse(link).Some?
    && request.verb == r.verb
    && request.url == (if r.query == map[] then w.parse(link).value else w.withQuery(w.parse(link).value, r.query))
    && (first ==>
          && request.body == r.body
          && (forall k :: k in request.headers <==> k in r.headers && Trim(r.headers[k]) != "")
          && (forall k | k in request.headers :: request.headers[k] == r.headers[k]))
    && (!first ==> request.headers == map[] && request.body == "")
  }

  lemma RequestIsSent(w: Web, r: Rendered, link: string, first: bool)
    requires w.parse(link).Some?
    ensures IsRequest(w, r, link, first, RequestFor(w, WithoutBlanks(r), w.parse(link).value, first))
  {
  }

  /** Every request of a conversation is the one its link comes to. */
  ghost predicate AllSent(w: Web, r: Rendered, first: bool, xs: seq<Exchange>) {
    forall i | 0 <= i < |xs| :: IsRequest(w, r, xs[i].link, first && i == 0, xs[i].request)
  }

  lemma {:induction false} FetchSends(w: Web, r: Rendered, next: Leads, link: string, visited: set<string>, left: nat,
                                      first: bool, call: nat)
    ensures AllSent(w, r, first, Fetch(w, WithoutBlanks(r), next, link, visited, left, first, call).exchanges)
    decreases left
  {
    var f := Fetch(w, WithoutBlanks(r), next, link, visited, left, first, call);
    if f.exchanges != [] {
      FetchCons(w, WithoutBlanks(r), next, link, visited, left, first, call);
      var x := f.exchanges[0];
      FetchSends(w, r, next, next(x), visited + {x.link}, left - 1, false, call + 1);
      RequestIsSent(w, r, link, first);
      var rest := Fetch(w, WithoutBlanks(r), next, next(x), visited + {x.link}, left - 1, false, call + 1).exchanges;
      SentCons(w, r, first, x, rest);
    }
  }

  lemma SentCons(w: Web, r: Rendered, first: bool, x: Exchange, rest: seq<Exchange>)
    requires IsRequest(w, r, x.link, first, x.request) && AllSent(w, r, false, rest)
    ensures AllSent(w, r, first, [x] + rest)
  {
    var xs := [x] + rest;
    forall i | 0 <= i < |xs| ensures IsRequest(w, r, xs[i].link, first && i == 0, xs[i].request) {
      if i > 0 {
        assert xs[i] == rest[i - 1];
        assert IsRequest(w, r, rest[i - 1].link, false && i - 1 == 0, rest[i - 1].request);
      }
    }
  }

  /** Why a conversation fails: the next link cannot be parsed, or the request it comes to is not answered. */
  ghost predicate Breaks(w: Web, r: Rendered, link: string, first: bool, at: nat, sent: bool) {
    && link != ""
    && (if sent then exists request :: IsRequest(w, r, link, first, request) && w.send(at, request) == None
        else w.parse(link).None?)
  }

  /** The link that comes after all exchanges. */
  function Pending(next: Leads, start: string, xs: seq<Exchange>): string {
    if xs == [] then start else next(xs[|xs| - 1])
  }

  lemma {:induction false} FetchBreaks(w: Web, r: Rendered, next: Leads, link: string, visited: set<string>, left: nat,
                                       first: bool, call: nat)
    requires Fetch(w, WithoutBlanks(r), next, link, visited, left, first, call).failed
    ensures var f := Fetch(w, WithoutBlanks(r), next, link, visited, left, first, call); var n := |f.exchanges|;
      Breaks(w, r, Pending(next, link, f.exchanges), first && n == 0, call + n, f.sent == n + 1)
    decreases left
  {
    var f := Fetch(w, WithoutBlanks(r), next, link, visited, left, first, call);
    if f.exchanges != [] {
      FetchCons(w, WithoutBlanks(r), next, link, visited, left, first, call);
      var x := f.exchanges[0];
      FetchBreaks(w, r, next, next(x), visited + {x.link}, left - 1, false, call + 1);
      var rest := Fetch(w, WithoutBlanks(r), next, next(x), visited + {x.link}, left - 1, false, call + 1);
      assert Pending(next, link, f.exchanges) == Pending(next, next(x), rest.exchanges);
    } else if w.parse(link).Some? {
      RequestIsSent(w, r, link, first);
    }
  }

  /**
    The link that follows a page: the next link of its Link headers, resolved against the URL it was requested from.
   */
  ghost predicate LeadsOn(w: Web, b: Backend, next: Leads) {
    forall x :: next(x) == if b.linkHeader then Trim(NextLink(w.resolve, x.request.url, x.response.links)) else ""
  }

  lemma LeadsAreNextLinks(w: Web, b: Backend)
    ensures LeadsOn(w, b, LeadsOf(w, b))
  {
  }

  /**
    Against any backend: at most max(1, maxPages) requests are sent; each is the rendered request for its link, with
    the non-blank headers and the body on the first page and neither on any other; no link is followed twice, and each
    later page is the next link of the page before.
   */
  lemma PaginationIsSafe(w: Web, r: Rendered, b: Backend, call: nat)
    ensures var f, next := FetchAll(w, r, b, call), LeadsOf(w, b);
      && LeadsOn(w, b, next)
      && f.sent <= (if b.maxPages > 1 then b.maxPages else 1)
      && AllSent(w, r, true, f.exchanges)
      && Chained(next, Trim(r.url), {}, f.exchanges)
      && Answered(w, call, f.exchanges)
  {
    var next, start, limit := LeadsOf(w, b), Trim(r.url), PageLimit(b);
    LeadsAreNextLinks(w, b);
    FetchCounts(w, WithoutBlanks(r), next, start, {}, limit, true, call);
    FetchChained(w, WithoutBlanks(r), next, start, {}, limit, true, call);
    FetchAnswered(w, WithoutBlanks(r), next, start, {}, limit, true, call);
    FetchSends(w, r, next, start, {}, limit, true, call);
  }

  /**
    A conversation that does not fail ends at the limit, without a link or at a link already followed; it fails only
    where a link cannot be parsed or a request is not answered, and is empty only without a URL.
   */
  lemma PaginationEnds(w: Web, r: Rendered, b: Backend, call: nat)
    ensures var f, next, start := FetchAll(w, r, b, call), LeadsOf(w, b), Trim(r.url); var n := |f.exchanges|;
      && (!f.failed ==>
            f.sent == n && Complete(next, start, {}, if b.maxPages > 1 then b.maxPages else 1, f.exchanges))
      && (f.failed ==> Breaks(w, r, Pending(next, start, f.exchanges), n == 0, call + n, f.sent == n + 1))
      && (n == 0 && !f.failed <==> Trim(r.url) == "")
  {
    var next, start, limit := LeadsOf(w, b), Trim(r.url), PageLimit(b);
    FetchCounts(w, WithoutBlanks(r), next, start, {}, limit, true, call);
    if FetchAll(w, r, b, call).failed {
      FetchBreaks(w, r, next, start, {}, limit, true, call);
    } else {
      FetchComplete(w, WithoutBlanks(r), next, start, {}, limit, true, call);
    }
  }

  // ---- What is kept of a conversation ----

  predicate AcceptedStatus(b: Backend, status: int) { b.accepted == {} || status in b.accepted }

  lemma {:induction false} AnyAcceptedIff(pages: seq<Page>)
    ensures AnyAccepted(pages) <==> exists i :: 0 <= i < |pages| && pages[i].accepted
  {
    if pages != [] {
      var init := pages[..|pages| - 1];
      AnyAcceptedIff(init);
      assert forall i | 0 <= i < |init| :: init[i] == pages[i];
      if AnyAccepted(init) {
        var i :| 0 <= i < |init| && init[i].accepted;
        assert pages[i].accepted;
      }
    }
  }

  /** A page is one exchange: where it was requested from and what came back. */
  ghost predicate IsPage(b: Backend, x: Exchange, page: Page) {
    && page.url == x.request.url && page.status == x.response.status && page.headers == x.response.headers
    && page.body == x.response.body && page.accepted == AcceptedStatus(b, x.response.status)
  }

  /**
    After a conversation that did not fail, the state holds every page in order and is that of the last one; without a
    page, or after a failure, it is as before, except that a page already accepted still counts.
   */
  lemma ConclusionHolds(b: Backend, before: BackendState, f: Fetched)
    ensures var after := Conclude(b, before, f); var n := |f.exchanges|;
      && (!f.failed && n > 0 ==>
            && after.requested && |after.pages| == n
            && (forall i | 0 <= i < n :: IsPage(b, f.exchanges[i], after.pages[i]))
            && after.status == f.exchanges[n - 1].response.status
            && after.headers == f.exchanges[n - 1].response.headers
            && after.body == f.exchanges[n - 1].response.body && after.accepted == AcceptedStatus(b, after.status)
            && after.error == before.error)
      && (!f.failed && n == 0 ==> after == before)
      && (f.failed ==>
            && after.(accepted := before.accepted) == before
            && (after.accepted <==>
                  before.accepted || exists i :: 0 <= i < n && AcceptedStatus(b, f.exchanges[i].response.status)))
  {
    var pages := PagesOf(b, f.exchanges);
    AnyAcceptedIff(pages);
    assert forall i | 0 <= i < |pages| :: pages[i].accepted == AcceptedStatus(b, f.exchanges[i].response.status);
  }

  // ---- The loop ----

  ghost function Resume(done: seq<Exchange>, rest: Fetched): Fetched {
    Fetched(done + rest.exchanges, |done| + rest.sent, rest.failed)
  }

  datatype Reply = Unparsable | NoAnswer | Answer(exchange: Exchange, onward: string)

  /** What parsing and sending one link comes to. */
  ghost predicate IsReply(w: Web, r: Rendered, next: Leads, link: string, first: bool, at: nat, reply: Reply) {
    match w.parse(link)
    case None => reply == Unparsable
    case Some(url) =>
      match w.send(at, RequestFor(w, r, url, first))
      case None => reply == NoAnswer
      case Some(response) =>
        var x := Exchange(link, RequestFor(w, r, url, first), response);
        reply == Answer(x, next(x))
  }

  /** The whole conversation `f` is what is done so far and then the rest. */
  ghost predicate Remains(w: Web, r: Rendered, next: Leads, f: Fetched, done: seq<Exchange>,
                          link: string, visited: set<string>, left: nat, first: bool, at: nat) {
    f == Resume(done, Fetch(w, r, next, link, visited, left, first, at))
  }

  /** One more answered request moves an exchange from the rest of the conversation to what is done. */
  lemma ResumeStep(w: Web, r: Rendered, next: Leads, f: Fetched, done: seq<Exchange>,
                   link: string, visited: set<string>, left: nat, first: bool, at: nat, reply: Reply)
    requires Remains(w, r, next, f, done, link, visited, left, first, at)
    requires left > 0 && link != "" && link !in visited
    requires reply.Answer? && IsReply(w, r, next, link, first, at, reply)
    ensures Remains(w, r, next, f, done + [reply.exchange], reply.onward, visited + {link}, left - 1, false, at + 1)
  {
    var x, rest := reply.exchange, Fetch(w, r, next, reply.onward, visited + {link}, left - 1, false, at + 1);
    assert Fetch(w, r, next, link, visited, left, first, at)
      == Fetched([x] + rest.exchanges, 1 + rest.sent, rest.failed);
    assert done + ([x] + rest.exchanges) == done + [x] + rest.exchanges;
  }

  /** One page of the loop: parse the link, send the request, read off the next link. */
  method Follow(w: Web, r: Rendered, b: Backend, link: string, first: bool, at: nat) returns (reply: Reply)
    ensures IsReply(w, r, LeadsOf(w, b), link, first, at, reply)
  {
    var url := w.parse(link);
    if url.None? {
      return Unparsable;
    }
    var request := RequestFor(w, r, url.value, first);
    var response := w.send(at, request);
    if response.None? {
      return NoAnswer;
    }
    var onward := "";
    if b.linkHeader {
      onward := NextLinkFromHeader(w.resolve, request.url, response.value.links);
      onward := Trim(onward);
    }
    return Answer(Exchange(link, request, response.value), onward);
  }

  lemma Begins(w: Web, r: Rendered, next: Leads, link: string, left: nat, call: nat)
    ensures Remains(w, r, next, Fetch(w, r, next, link, {}, left, true, call), [], link, {}, left, true, call)
  {
    var f := Fetch(w, r, next, link, {}, left, true, call);
    assert [] + f.exchanges == f.exchanges;
  }

  lemma Stops(w: Web, r: Rendered, next: Leads, f: Fetched, done: seq<Exchange>,
              link: string, visited: set<string>, left: nat, first: bool, at: nat)
    requires Remains(w, r, next, f, done, link, visited, left, first, at)
    requires left == 0 || link == "" || link in visited
    ensures f == Fetched(done, |done|, false)
  {
    assert done + [] == done;
  }

  lemma Fails(w: Web, r: Rendered, next: Leads, f: Fetched, done: seq<Exchange>,
              link: string, visited: set<string>, left: nat, first: bool, at: nat, reply: Reply)
    requires Remains(w, r, next, f, done, link, visited, left, first, at)
    requires left > 0 && link != "" && link !in visited
    requires !reply.Answer? && IsReply(w, r, next, link, first, at, reply)
    ensures f == Fetched(done, if reply.Unparsable? then |done| else |done| + 1, true)
  {
    assert done + [] == done;
  }

  /** One turn of the loop: an answer moves the conversation on, anything else ends it. */
  method Turn(w: Web, r: Rendered, b: Backend, ghost f: Fetched, ghost done: seq<Exchange>,
              link: string, ghost visited: set<string>, ghost left: nat, first: bool, at: nat) returns (reply: Reply)
    requires Remains(w, r, LeadsOf(w, b), f, done, link, visited, left, first, at)
    requires left > 0 && link != "" && link !in visited
    ensures reply.Answer? ==>
      Remains(w, r, LeadsOf(w, b), f, done + [reply.exchange], reply.onward, visited + {link}, left - 1, false, at + 1)
    ensures !reply.Answer? ==> f == Fetched(done, if reply.Unparsable? then |done| else |done| + 1, true)
  {
    reply := Follow(w, r, b, link, first, at);
    if reply.Answer? {
      ResumeStep(w, r, LeadsOf(w, b), f, done, link, visited, left, first, at, reply);
    } else {
      Fails(w, r, LeadsOf(w, b), f, done, link, visited, left, first, at, reply);
    }
  }

  /** The loop: follow links, collecting what was answered, until the conversation ends. */
  method Converse(w: Web, r: Rendered, b: Backend, call: nat)
    returns (exchanges: seq<Exchange>, sent: nat, failed: bool)
    ensures Fetch(w, r, LeadsOf(w, b), Trim(r.url), {}, PageLimit(b), true, call) == Fetched(exchanges, sent, failed)
  {
    var link, visited: set<string>, first, left, at := Trim(r.url), {}, true, PageLimit(b), call;
    ghost var f := Fetch(w, r, LeadsOf(w, b), link, {}, left, true, call);
    Begins(w, r, LeadsOf(w, b), link, left, call);
    exchanges, sent := [], 0;
    while left > 0
      invariant sent == |exchanges|
      invariant Remains(w, r, LeadsOf(w, b), f, exchanges, link, visited, left, first, at)
    {
      if link == "" || link in visited {
        break;
      }
      var reply := Turn(w, r, b, f, exchanges, link, visited, left, first, at);
      if !reply.Answer? {
        return exchanges, if reply.Unparsable? then sent else sent + 1, true;
      }
      exchanges, visited, first := exchanges + [reply.exchange], visited + {link}, false;
      link, sent, left, at := reply.onward, sent + 1, left - 1, at + 1;
    }
    Stops(w, r, LeadsOf(w, b), f, exchanges, link, visited, left, first, at);
    failed := false;
  }
}
