/**
  The parts of Go's `strings` package that PassCtrl relies on, over ASCII text:
  trimming, lower-casing, splitting on one character and joining.
 */
module Text {
  import opened Wrappers

  predicate IsSpace(c: char) {
    c == ' ' || c == '\t' || c == '\n' || c == '\r' || c == 11 as char || c == 12 as char
  }

  /** No white space at either edge; this is what trimming establishes. */
  predicate Trimmed(s: string) {
    s == "" || (!IsSpace(s[0]) && !IsSpace(s[|s| - 1]))
  }

  /** strings.TrimSpace */
  function Trim(s: string): (t: string)
    ensures Trimmed(t)
  {
    if s == "" then s
    else if IsSpace(s[0]) then Trim(s[1..])
    else if IsSpace(s[|s| - 1]) then Trim(s[..|s| - 1])
    else s
  }

  lemma {:induction false} TrimWithin(s: string, c: char)
    requires c !in s
    ensures c !in Trim(s)
  {
    if s != "" {
      if IsSpace(s[0]) {
        TrimWithin(s[1..], c);
      } else if IsSpace(s[|s| - 1]) {
        TrimWithin(s[..|s| - 1], c);
      }
    }
  }

  lemma TrimFixpoint(s: string)
    requires Trimmed(s)
    ensures Trim(s) == s
  {
  }

  lemma TrimPadded(s: string)
    requires Trimmed(s)
    ensures Trim(" " + s) == s
  {
    assert (" " + s)[1..] == s;
    TrimFixpoint(s);
  }

  predicate Blanks(s: string) { forall i | 0 <= i < |s| :: IsSpace(s[i]) }

  lemma TrimLead(c: char, s: string)
    requires IsSpace(c)
    ensures Trim([c] + s) == Trim(s)
  {
    assert ([c] + s)[1..] == s;
  }

  /** Only a text of nothing but blanks is trimmed away. */
  lemma {:induction false} TrimBlank(s: string)
    ensures Trim(s) == "" <==> Blanks(s)
  {
    if s != "" && IsSpace(s[0]) {
      TrimBlank(s[1..]);
      assert s == [s[0]] + s[1..];
    } else if s != "" && IsSpace(s[|s| - 1]) {
      TrimBlank(s[..|s| - 1]);
      assert s == s[..|s| - 1] + [s[|s| - 1]];
    }
  }

  lemma {:induction false} TrimTail(s: string, c: char)
    requires IsSpace(c)
    ensures Trim(s + [c]) == Trim(s)
  {
    if s == "" {
      assert s + [c] == [c] && [c][1..] == "";
    } else if IsSpace(s[0]) {
      TrimTail(s[1..], c);
      assert (s + [c])[1..] == s[1..] + [c];
    } else {
      assert (s + [c])[..|s|] == s;
    }
  }

  /** Trimming takes away exactly the blanks around a trimmed text. */
  lemma {:induction false} TrimMiddle(before: string, s: string, after: string)
    requires Blanks(before) && Trimmed(s) && Blanks(after)
    ensures Trim(before + s + after) == s
    decreases |before|, |after|
  {
    if before != "" {
      TrimMiddle(before[1..], s, after);
      TrimLead(before[0], before[1..] + s + after);
      assert before + s + after == [before[0]] + (before[1..] + s + after);
    } else if after != "" {
      var init, last := after[..|after| - 1], after[|after| - 1];
      TrimMiddle(before, s, init);
      TrimTail(before + s + init, last);
      assert before + s + after == (before + s + init) + [last];
    } else {
      assert before + s + after == s;
      TrimFixpoint(s);
    }
  }

  function LowerChar(c: char): char {
    if 'A' <= c <= 'Z' then c + 32 as char else c
  }

  /** strings.ToLower */
  function ToLower(s: string): (t: string)
    ensures |t| == |s|
    ensures forall i | 0 <= i < |s| :: t[i] == LowerChar(s[i])
  {
    seq(|s|, i requires 0 <= i < |s| => LowerChar(s[i]))
  }

  lemma ToLowerIdempotent(s: string)
    ensures ToLower(ToLower(s)) == ToLower(s)
  {
  }

  lemma ToLowerKeeps(s: string, c: char)
    requires !('A' <= c <= 'Z') && !('a' <= c <= 'z')
    ensures c in ToLower(s) <==> c in s
  {
    if c in s {
      var i :| 0 <= i < |s| && s[i] == c;
      assert ToLower(s)[i] == c;
    }
  }

  lemma ToLowerTrimmed(s: string)
    ensures Trimmed(ToLower(s)) <==> Trimmed(s)
  {
  }

  /** The first index of `c`, or the length when `c` does not occur. */
  function Find(s: string, c: char): (i: nat)
    ensures i <= |s|
    ensures c !in s[..i]
    ensures i < |s| ==> s[i] == c
    ensures i == |s| <==> c !in s
  {
    if s == "" then 0
    else if s[0] == c then 0
    else
      var i := 1 + Find(s[1..], c);
      assert s[..i] == [s[0]] + s[1..][..i - 1];
      assert s == [s[0]] + s[1..];
      i
  }

  lemma {:induction false} FindIsFirst(p: string, c: char, rest: string)
    requires c !in p
    ensures Find(p + [c] + rest, c) == |p|
  {
    if p != "" {
      FindIsFirst(p[1..], c, rest);
      assert (p + [c] + rest)[1..] == p[1..] + [c] + rest;
    }
  }

  /** strings.SplitN(s, sep, 2): None when there is no separator. */
  function Cut(s: string, sep: char): (kv: Option<(string, string)>)
    ensures kv.None? <==> sep !in s
    ensures kv.Some? ==> s == kv.value.0 + [sep] + kv.value.1 && sep !in kv.value.0
  {
    var i := Find(s, sep);
    if i == |s| then None else Some((s[..i], s[i + 1..]))
  }

  lemma CutAt(p: string, sep: char, rest: string)
    requires sep !in p
    ensures Cut(p + [sep] + rest, sep) == Some((p, rest))
  {
    FindIsFirst(p, sep, rest);
    var s := p + [sep] + rest;
    assert s[..|p|] == p && s[|p| + 1..] == rest;
  }

  /** strings.Split on a one-character separator; "" splits to [""]. */
  function Split(s: string, sep: char): (parts: seq<string>)
    ensures |parts| >= 1
    ensures forall p | p in parts :: sep !in p
    decreases |s|
  {
    var i := Find(s, sep);
    if i == |s| then [s] else [s[..i]] + Split(s[i + 1..], sep)
  }

  lemma {:induction false} SplitWithin(s: string, sep: char, c: char)
    requires c !in s
    ensures forall p | p in Split(s, sep) :: c !in p
    decreases |s|
  {
    var i := Find(s, sep);
    if i < |s| {
      SplitWithin(s[i + 1..], sep, c);
    }
  }

  /** strings.Join */
  function Join(parts: seq<string>, sep: string): string {
    if |parts| == 0 then ""
    else if |parts| == 1 then parts[0]
    else parts[0] + sep + Join(parts[1..], sep)
  }

  lemma SplitAt(p: string, sep: char, rest: string)
    requires sep !in p
    ensures Split(p + [sep] + rest, sep) == [p] + Split(rest, sep)
  {
    FindIsFirst(p, sep, rest);
    var s := p + [sep] + rest;
    assert s[..|p|] == p && s[|p| + 1..] == rest;
  }

  function PadEach(parts: seq<string>, pad: string): (r: seq<string>)
    ensures |r| == |parts|
  {
    if parts == [] then [] else [pad + parts[0]] + PadEach(parts[1..], pad)
  }

  /**
    Splitting undoes joining: every part but the first keeps the padding that the
    join put after each separator, and the first keeps whatever text led the join.
   */
  lemma {:induction false} SplitJoin(lead: string, parts: seq<string>, sep: char, pad: string)
    requires |parts| >= 1
    requires forall p | p in parts :: sep !in p
    requires sep !in pad && sep !in lead
    ensures Split(lead + Join(parts, [sep] + pad), sep) == [lead + parts[0]] + PadEach(parts[1..], pad)
    decreases |parts|
  {
    var head := lead + parts[0];
    if |parts| == 1 {
      assert Join(parts, [sep] + pad) == parts[0];
      assert Find(head, sep) == |head|;
    } else {
      var rest := Join(parts[1..], [sep] + pad);
      assert lead + Join(parts, [sep] + pad) == head + [sep] + (pad + rest);
      SplitAt(head, sep, pad + rest);
      SplitJoin(pad, parts[1..], sep, pad);
    }
  }

  lemma {:induction false} PadEachEmpty(parts: seq<string>)
    ensures PadEach(parts, "") == parts
  {
    if parts != [] {
      PadEachEmpty(parts[1..]);
      assert "" + parts[0] == parts[0];
    }
  }

  /** With a bare separator, splitting is the exact inverse of joining. */
  lemma SplitJoinExact(parts: seq<string>, sep: char)
    requires |parts| >= 1
    requires forall p | p in parts :: sep !in p
    ensures Split(Join(parts, [sep]), sep) == parts
  {
    SplitJoin("", parts, sep, "");
    PadEachEmpty(parts[1..]);
    assert [sep] + "" == [sep];
    assert "" + Join(parts, [sep]) == Join(parts, [sep]);
    assert "" + parts[0] == parts[0];
  }

  /** `raw` lists `texts` up to white space around each item. */
  predicate Spells(raw: seq<string>, texts: seq<string>)
    decreases |raw|
  {
    if raw == [] || texts == [] then raw == [] && texts == []
    else Trim(raw[0]) == texts[0] && Spells(raw[1..], texts[1..])
  }

  /** Every item is trimmed and free of the separator, so a printed list can be read back. */
  predicate Items(texts: seq<string>, sep: char) {
    texts == [] || (Trimmed(texts[0]) && sep !in texts[0] && Items(texts[1..], sep))
  }

  lemma {:induction false} PadEachSpells(texts: seq<string>, sep: char)
    requires Items(texts, sep)
    ensures Spells(PadEach(texts, " "), texts)
  {
    if texts != [] {
      PadEachSpells(texts[1..], sep);
      TrimPadded(texts[0]);
    }
  }

  lemma {:induction false} ItemsFree(texts: seq<string>, sep: char)
    requires Items(texts, sep)
    ensures forall t | t in texts :: sep !in t
  {
    if texts != [] {
      ItemsFree(texts[1..], sep);
    }
  }

  /** A list printed with `sep` and one blank between items reads back as the same items. */
  lemma SplitJoinSpells(texts: seq<string>, sep: char)
    requires |texts| >= 1 && sep != ' '
    requires Items(texts, sep)
    ensures Spells(Split(Join(texts, [sep] + " "), sep), texts)
  {
    ItemsFree(texts, sep);
    SplitJoin("", texts, sep, " ");
    assert "" + Join(texts, [sep] + " ") == Join(texts, [sep] + " ");
    assert "" + texts[0] == texts[0];
    TrimFixpoint(texts[0]);
    PadEachSpells(texts[1..], sep);
  }

  /** strings.Contains: some position starts an occurrence of `pat`. */
  predicate Contains(s: string, pat: string) {
    exists i | 0 <= i <= |s| - |pat| :: pat <= s[i..]
  }
}
