/** Finding the `rel="next"` reference of a Link header (section 5 of RFC 5988). */
module Links {
  import opened Wrappers
  import opened Text

  const NEXT := "rel=\"next\""

  /** Resolves a reference against the URL of the current page; None when it cannot be parsed. */
  type Resolver = (string, string) -> Option<string>

  /** What one comma part of the header offers as the next page. */
  function Target(resolve: Resolver, base: string, part: string): Option<string> { TargetOf(resolve, base, Trim(part)) }

  function TargetOf(resolve: Resolver, base: string, segment: string): Option<string> {
    if segment == "" || !Contains(segment, NEXT) then None
    else
      var start, end := Find(segment, '<'), Find(segment, '>');
      if start == |segment| || end == |segment| || start >= end then None
      else
        var reference := Trim(segment[start + 1..end]);
        if reference == "" then None else resolve(base, reference)
  }

  function FirstTarget(resolve: Resolver, base: string, parts: seq<string>): Option<string> {
    if parts == [] then None
    else if Target(resolve, base, parts[0]).Some? then Target(resolve, base, parts[0])
    else FirstTarget(resolve, base, parts[1..])
  }

  function AllParts(values: seq<string>): seq<string> {
    if values == [] then [] else Split(values[0], ',') + AllParts(values[1..])
  }

  /** The next link of a response, "" when there is none. */
  function NextLink(resolve: Resolver, base: string, values: seq<string>): string {
    match FirstTarget(resolve, base, AllParts(values))
    case None => ""
    case Some(url) => url
  }

  lemma {:induction false} FirstTargetAppend(resolve: Resolver, base: string, a: seq<string>, b: seq<string>)
    ensures FirstTarget(resolve, base, a + b) ==
            if FirstTarget(resolve, base, a).Some? then FirstTarget(resolve, base, a) else FirstTarget(resolve, base, b)
  {
    if a == [] {
      assert a + b == b;
    } else {
      FirstTargetAppend(resolve, base, a[1..], b);
      assert (a + b)[1..] == a[1..] + b;
    }
  }

  /** The nested loops of the source, with their early return. */
  method NextLinkFromHeader(resolve: Resolver, base: string, values: seq<string>) returns (url: string)
    ensures url == NextLink(resolve, base, values)
  {
    assert values[0..] == values;
    for i := 0 to |values|
      invariant FirstTarget(resolve, base, AllParts(values)) == FirstTarget(resolve, base, AllParts(values[i..]))
    {
      var parts := Split(values[i], ',');
      assert values[i..][1..] == values[i + 1..];
      FirstTargetAppend(resolve, base, parts, AllParts(values[i + 1..]));
      assert parts[0..] == parts;
      for j := 0 to |parts|
        invariant FirstTarget(resolve, base, parts) == FirstTarget(resolve, base, parts[j..])
      {
        assert parts[j..][1..] == parts[j + 1..];
        var target := Target(resolve, base, parts[j]);
        if target.Some? {
          return target.value;
        }
      }
    }
    return "";
  }

  /** The first angle brackets of the segment, in that order. */
  ghost predicate Bracketed(segment: string, start: int, end: int) {
    && 0 <= start < end < |segment| && segment[start] == '<' && segment[end] == '>'
    && '<' !in segment[..start] && '>' !in segment[..end]
  }

  /** The segment is a marked link, and the reference, not blank, is what stands in its first angle brackets. */
  ghost predicate Refers(segment: string, reference: string) {
    && Contains(segment, NEXT) && reference != ""
    && exists start, end :: Bracketed(segment, start, end) && reference == Trim(segment[start + 1..end])
  }

  lemma FoundAt(s: string, c: char, i: nat)
    requires i < |s| && s[i] == c && c !in s[..i]
    ensures Find(s, c) == i
  {
    FindIsFirst(s[..i], c, s[i + 1..]);
    assert s == s[..i] + [c] + s[i + 1..];
  }

  /** Any comma part, printed or not, offers exactly what its reference resolves to. */
  lemma TargetIff(resolve: Resolver, base: string, segment: string, url: string)
    ensures TargetOf(resolve, base, segment) == Some(url) <==>
      exists reference :: Refers(segment, reference) && resolve(base, reference) == Some(url)
  {
    if TargetOf(resolve, base, segment) == Some(url) {
      assert Bracketed(segment, Find(segment, '<'), Find(segment, '>'));
    }
    forall reference | Refers(segment, reference) && resolve(base, reference) == Some(url)
      ensures TargetOf(resolve, base, segment) == Some(url) {
      var start, end :| Bracketed(segment, start, end) && reference == Trim(segment[start + 1..end]);
      FoundAt(segment, '<', start);
      FoundAt(segment, '>', end);
    }
  }

  // ---- Printed links read back ----

  datatype Link = Link(url: string, rel: string)

  function Print(l: Link): string { "<" + l.url + ">; rel=\"" + l.rel + "\"" }

  function PrintEach(links: seq<Link>): seq<string> {
    if links == [] then [] else [Print(links[0])] + PrintEach(links[1..])
  }

  predicate Bare(s: string) { ',' !in s && '<' !in s && '>' !in s && '"' !in s }

  predicate Printable(l: Link) {
    && l.url != "" && Bare(l.url) && Bare(l.rel)
    && forall c | c in l.url :: !IsSpace(c)
  }

  /** The first link that is the next one and can be resolved. */
  function FirstNext(resolve: Resolver, base: string, links: seq<Link>): Option<string> {
    if links == [] then None
    else if links[0].rel == "next" && resolve(base, links[0].url).Some? then resolve(base, links[0].url)
    else FirstNext(resolve, base, links[1..])
  }

  /** The quotes pin the relation: the marker occurs in a printed link only as its whole relation. */
  lemma MarkerIffNext(l: Link)
    requires Printable(l)
    ensures Contains(Print(l), NEXT) <==> l.rel == "next"
  {
    var s := Print(l);
    var open := |l.url| + 8;
    var close := open + 1 + |l.rel|;
    assert s[open] == '"' && s[close] == '"' && |s| == close + 1;
    assert s[open + 1..close] == l.rel;
    forall k | 0 <= k < |s| && s[k] == '"' ensures k == open || k == close {
      if k != open && k != close {
        NoOtherQuote(l, k);
      }
    }
    if Contains(s, NEXT) {
      var i :| 0 <= i <= |s| - |NEXT| && NEXT <= s[i..];
      assert s[i..][4] == '"' && s[i..][9] == '"';
      assert s[i + 4] == '"' && s[i + 9] == '"';
      assert i + 4 == open && i + 9 == close;
      assert s[i..][5..9] == "next";
      assert s[i..][5..9] == s[i + 5..i + 9];
    }
    if l.rel == "next" {
      assert s[open - 4..] == NEXT;
    }
  }

  lemma NoOtherQuote(l: Link, k: nat)
    requires Printable(l) && k < |Print(l)|
    requires k != |l.url| + 8 && k != |l.url| + 9 + |l.rel|
    ensures Print(l)[k] != '"'
  {
    var s := Print(l);
    if 1 <= k <= |l.url| {
      assert s[k] == l.url[k - 1];
    } else if |l.url| + 9 <= k < |l.url| + 9 + |l.rel| {
      assert s[k] == l.rel[k - |l.url| - 9];
    }
  }

  lemma PrintedBrackets(l: Link)
    requires Printable(l)
    ensures Find(Print(l), '<') == 0 && Find(Print(l), '>') == |l.url| + 1
    ensures Print(l)[1..|l.url| + 1] == l.url
  {
    var s := Print(l);
    var rest := "; rel=\"" + l.rel + "\"";
    assert s == ("<" + l.url) + ['>'] + rest;
    FindIsFirst("<" + l.url, '>', rest);
  }

  lemma PrintedTarget(resolve: Resolver, base: string, l: Link)
    requires Printable(l)
    ensures TargetOf(resolve, base, Print(l)) == if l.rel == "next" then resolve(base, l.url) else None
  {
    MarkerIffNext(l);
    PrintedBrackets(l);
    UrlIsTrimmed(l);
  }

  lemma UrlIsTrimmed(l: Link)
    requires Printable(l)
    ensures Trim(l.url) == l.url
  {
    assert l.url[0] in l.url && l.url[|l.url| - 1] in l.url;
    TrimFixpoint(l.url);
  }

  lemma {:induction false} PrintedItems(links: seq<Link>)
    requires forall l | l in links :: Printable(l)
    ensures Items(PrintEach(links), ',')
  {
    if links != [] {
      PrintedItems(links[1..]);
      assert links[0] in links;
      assert Bare(links[0].url) && Bare(links[0].rel);
    }
  }

  lemma {:induction false} SpelledLinks(resolve: Resolver, base: string, parts: seq<string>, links: seq<Link>)
    requires forall l | l in links :: Printable(l)
    requires Spells(parts, PrintEach(links))
    ensures FirstTarget(resolve, base, parts) == FirstNext(resolve, base, links)
  {
    if links != [] {
      assert PrintEach(links)[1..] == PrintEach(links[1..]);
      SpelledLinks(resolve, base, parts[1..], links[1..]);
      assert links[0] in links;
      PrintedTarget(resolve, base, links[0]);
    }
  }

  lemma {:induction false} SpellsItself(texts: seq<string>, sep: char)
    requires Items(texts, sep)
    ensures Spells(texts, texts)
  {
    if texts != [] {
      TrimFixpoint(texts[0]);
      SpellsItself(texts[1..], sep);
    }
  }

  /** Printed with or without a blank after the comma, the header spells the links. */
  lemma PrintedSpells(links: seq<Link>, pad: string)
    requires links != [] && (forall l | l in links :: Printable(l)) && (pad == "" || pad == " ")
    ensures Spells(Split(Join(PrintEach(links), "," + pad), ','), PrintEach(links))
  {
    PrintedItems(links);
    if pad == "" {
      ItemsFree(PrintEach(links), ',');
      SplitJoinExact(PrintEach(links), ',');
      SpellsItself(PrintEach(links), ',');
      assert "," + pad == [','];
    } else {
      SplitJoinSpells(PrintEach(links), ',');
      assert [','] + " " == "," + pad;
    }
  }

  lemma PrintedValue(resolve: Resolver, base: string, links: seq<Link>, pad: string)
    requires (forall l | l in links :: Printable(l)) && (pad == "" || pad == " ")
    ensures FirstTarget(resolve, base, Split(Join(PrintEach(links), "," + pad), ',')) == FirstNext(resolve, base, links)
  {
    if links == [] {
      assert Split("", ',') == [""] && [""][1..] == [];
      assert Target(resolve, base, "").None?;
      assert FirstTarget(resolve, base, [""]) == FirstTarget(resolve, base, [""][1..]);
    } else {
      PrintedSpells(links, pad);
      SpelledLinks(resolve, base, Split(Join(PrintEach(links), "," + pad), ','), links);
    }
  }

  /** Each header value is a printed list of links, with or without a blank after its commas. */
  ghost predicate Carries(values: seq<string>, lists: seq<seq<Link>>) {
    && |values| == |lists|
    && forall i | 0 <= i < |lists| ::
         && (forall l | l in lists[i] :: Printable(l))
         && (values[i] == Join(PrintEach(lists[i]), ",") || values[i] == Join(PrintEach(lists[i]), ", "))
  }

  function Flatten(lists: seq<seq<Link>>): seq<Link> {
    if lists == [] then [] else lists[0] + Flatten(lists[1..])
  }

  lemma {:induction false} FirstNextAppend(resolve: Resolver, base: string, a: seq<Link>, b: seq<Link>)
    ensures FirstNext(resolve, base, a + b) ==
            if FirstNext(resolve, base, a).Some? then FirstNext(resolve, base, a) else FirstNext(resolve, base, b)
  {
    if a == [] {
      assert a + b == b;
    } else {
      FirstNextAppend(resolve, base, a[1..], b);
      assert (a + b)[1..] == a[1..] + b;
    }
  }

  lemma {:induction false} CarriedTarget(resolve: Resolver, base: string, values: seq<string>, lists: seq<seq<Link>>)
    requires Carries(values, lists)
    ensures FirstTarget(resolve, base, AllParts(values)) == FirstNext(resolve, base, Flatten(lists))
  {
    if values != [] {
      CarriedTarget(resolve, base, values[1..], lists[1..]);
      var pad := if values[0] == Join(PrintEach(lists[0]), ",") then "" else " ";
      assert "," + pad == (if pad == "" then "," else ", ");
      PrintedValue(resolve, base, lists[0], pad);
      FirstTargetAppend(resolve, base, Split(values[0], ','), AllParts(values[1..]));
      FirstNextAppend(resolve, base, lists[0], Flatten(lists[1..]));
    }
  }

  /**
    Of any number of Link headers, each a printed list, the next page is the first link, over all of them in order,
    whose relation is `next` and that resolves; without one there is none.
   */
  lemma LinkRoundTrip(resolve: Resolver, base: string, values: seq<string>, lists: seq<seq<Link>>)
    requires Carries(values, lists)
    ensures var first := FirstNext(resolve, base, Flatten(lists));
      NextLink(resolve, base, values) == if first.Some? then first.value else ""
  {
    CarriedTarget(resolve, base, values, lists);
  }
}
