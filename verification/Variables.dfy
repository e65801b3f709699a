/**
  The text of the exported variables, whose hash takes part in a strict rule's key: one assignment
  `rule.variable=value|` per variable, rules and variables in sorted order, values as JSON text.
 */
module Variables {
  import opened Text
  import opened Order

  /** One exported variable. */
  datatype Assignment = Assignment(rule: string, name: string, value: string)

  function Print(a: Assignment): string { a.rule + "." + a.name + "=" + a.value + "|" }

  function PrintAll(list: seq<Assignment>): string {
    if list == [] then "" else Print(list[0]) + PrintAll(list[1..])
  }

  ghost function RuleAssignments(rule: string, names: seq<string>, vars: map<string, string>): seq<Assignment>
    requires forall n | n in names :: n in vars
  {
    if names == [] then []
    else [Assignment(rule, names[0], vars[names[0]])] + RuleAssignments(rule, names[1..], vars)
  }

  ghost function AssignmentsOf(rule: string, vars: map<string, string>): seq<Assignment> {
    ListingKeys(vars);
    RuleAssignments(rule, Listing(vars.Keys), vars)
  }

  ghost function Assignments(names: seq<string>, rules: map<string, map<string, string>>): seq<Assignment>
    requires forall n | n in names :: n in rules
  {
    if names == [] then [] else AssignmentsOf(names[0], rules[names[0]]) + Assignments(names[1..], rules)
  }

  ghost function AllAssignments(rules: map<string, map<string, string>>): seq<Assignment> {
    ListingKeys(rules);
    Assignments(Listing(rules.Keys), rules)
  }

  /** The text that is hashed. */
  ghost function VarsText(rules: map<string, map<string, string>>): string { PrintAll(AllAssignments(rules)) }

  // ---- The loops write that text ----

  lemma Regroup<T>(x: seq<T>, y: seq<T>, z: seq<T>)
    ensures x + (y + z) == x + y + z
  {
  }

  lemma {:induction false} PrintAppend(a: seq<Assignment>, b: seq<Assignment>)
    ensures PrintAll(a + b) == PrintAll(a) + PrintAll(b)
  {
    if a == [] {
      assert a + b == b;
    } else {
      PrintAppend(a[1..], b);
      assert (a + b)[0] == a[0] && (a + b)[1..] == a[1..] + b;
      Regroup(Print(a[0]), PrintAll(a[1..]), PrintAll(b));
    }
  }

  lemma PrintOne(a: Assignment)
    ensures PrintAll([a]) == Print(a)
  {
    assert [a][1..] == [];
  }

  method WriteRule(rule: string, vars: map<string, string>) returns (text: string)
    ensures text == PrintAll(AssignmentsOf(rule, vars))
  {
    var keys := KeysInAnyOrder(vars);
    var names := Sort(keys);
    SortIsListing(keys, vars.Keys);
    ListingKeys(vars);
    text := WriteNamed(rule, names, vars);
  }

  /** What has been written, followed by the rest, is everything. */
  ghost predicate Written(all: seq<Assignment>, done: seq<Assignment>, rest: seq<Assignment>, text: string) {
    all == done + rest && text == PrintAll(done)
  }

  lemma WriteMore(all: seq<Assignment>, done: seq<Assignment>, more: seq<Assignment>, rest: seq<Assignment>,
                  text: string)
    requires Written(all, done, more + rest, text)
    ensures Written(all, done + more, rest, text + PrintAll(more))
  {
    PrintAppend(done, more);
    Regroup(done, more, rest);
  }

  lemma WrittenAll(all: seq<Assignment>, done: seq<Assignment>, text: string)
    requires Written(all, done, [], text)
    ensures text == PrintAll(all)
  {
    assert done + [] == done;
  }

  method WriteNamed(rule: string, names: seq<string>, vars: map<string, string>) returns (text: string)
    requires forall n | n in names :: n in vars
    ensures text == PrintAll(RuleAssignments(rule, names, vars))
  {
    text := "";
    ghost var all, done: seq<Assignment> := RuleAssignments(rule, names, vars), [];
    assert names[0..] == names && [] + all == all;
    for i := 0 to |names|
      invariant Written(all, done, RuleAssignments(rule, names[i..], vars), text)
    {
      assert names[i..][1..] == names[i + 1..];
      var a := Assignment(rule, names[i], vars[names[i]]);
      PrintOne(a);
      WriteMore(all, done, [a], RuleAssignments(rule, names[i + 1..], vars), text);
      text := text + Print(a);
      done := done + [a];
    }
    WrittenAll(all, done, text);
  }

  /** HashUpstreamVariables, up to the hash. */
  method WriteVariables(rules: map<string, map<string, string>>) returns (text: string)
    ensures text == VarsText(rules)
  {
    var keys := KeysInAnyOrder(rules);
    var names := Sort(keys);
    SortIsListing(keys, rules.Keys);
    ListingKeys(rules);
    text := WriteRules(names, rules);
  }

  method WriteRules(names: seq<string>, rules: map<string, map<string, string>>) returns (text: string)
    requires forall n | n in names :: n in rules
    ensures text == PrintAll(Assignments(names, rules))
  {
    text := "";
    ghost var all, done: seq<Assignment> := Assignments(names, rules), [];
    assert names[0..] == names && [] + all == all;
    for i := 0 to |names|
      invariant Written(all, done, Assignments(names[i..], rules), text)
    {
      assert names[i..][1..] == names[i + 1..];
      ghost var more := AssignmentsOf(names[i], rules[names[i]]);
      var written := WriteRule(names[i], rules[names[i]]);
      WriteMore(all, done, more, Assignments(names[i + 1..], rules), text);
      text := text + written;
      done := done + more;
    }
    WrittenAll(all, done, text);
  }

  // ---- When the text determines the variables ----

  /** No value followed by the separator starts another: true of JSON texts, whose end can be told. */
  ghost predicate SelfDelimiting(json: string -> bool) {
    forall x, y | json(x) && json(y) && x + "|" <= y + "|" :: x == y
  }

  lemma Shorter(x: string, s: string, y: string, t: string)
    requires x + "|" + s == y + "|" + t
    ensures |x| <= |y| ==> x + "|" <= y + "|"
  {
    var whole := x + "|" + s;
    assert forall i | 0 <= i < |x| + 1 :: (x + "|")[i] == whole[i];
    assert forall i | 0 <= i < |y| + 1 :: (y + "|")[i] == whole[i];
  }

  lemma SameValue(json: string -> bool, x: string, s: string, y: string, t: string)
    requires SelfDelimiting(json) && json(x) && json(y) && x + "|" + s == y + "|" + t
    ensures x == y && s == t
  {
    Shorter(x, s, y, t);
    Shorter(y, t, x, s);
    assert s == (x + "|" + s)[|x| + 1..] && t == (y + "|" + t)[|y| + 1..];
  }

  function Dotted(rule: string, name: string): string { rule + "." + name }

  lemma Unfolded(a: Assignment, s: string)
    ensures Print(a) + s == Dotted(a.rule, a.name) + ['='] + (a.value + "|" + s)
  {
  }

  lemma SameAssignment(json: string -> bool, a: Assignment, s: string, b: Assignment, t: string)
    requires SelfDelimiting(json) && json(a.value) && json(b.value) && Print(a) + s == Print(b) + t
    requires '=' !in Dotted(a.rule, a.name) && '=' !in Dotted(b.rule, b.name)
    ensures Dotted(a.rule, a.name) == Dotted(b.rule, b.name) && a.value == b.value && s == t
  {
    Unfolded(a, s);
    Unfolded(b, t);
    CutAt(Dotted(a.rule, a.name), '=', a.value + "|" + s);
    CutAt(Dotted(b.rule, b.name), '=', b.value + "|" + t);
    SameValue(json, a.value, s, b.value, t);
  }

  lemma {:induction false} RuleMembers(rule: string, names: seq<string>, vars: map<string, string>, a: Assignment)
    requires forall n | n in names :: n in vars
    ensures a in RuleAssignments(rule, names, vars) <==> a.rule == rule && a.name in names && a.value == vars[a.name]
  {
    if names != [] {
      RuleMembers(rule, names[1..], vars, a);
    }
  }

  lemma {:induction false} NamedMembers(names: seq<string>, rules: map<string, map<string, string>>, a: Assignment)
    requires forall n | n in names :: n in rules
    ensures a in Assignments(names, rules) <==>
            a.rule in names && a.name in rules[a.rule] && a.value == rules[a.rule][a.name]
  {
    if names != [] {
      NamedMembers(names[1..], rules, a);
      var vars := rules[names[0]];
      ListingKeys(vars);
      RuleMembers(names[0], Listing(vars.Keys), vars, a);
    }
  }

  /** The assignments are exactly the variables. */
  lemma Members(rules: map<string, map<string, string>>, a: Assignment)
    ensures a in AllAssignments(rules) <==>
            a.rule in rules && a.name in rules[a.rule] && a.value == rules[a.rule][a.name]
  {
    ListingKeys(rules);
    NamedMembers(Listing(rules.Keys), rules, a);
  }

  /** With the same assignments, every rule of one map is in the other with at least the same variables. */
  lemma Within(m: map<string, map<string, string>>, n: map<string, map<string, string>>, r: string)
    requires AllAssignments(m) == AllAssignments(n) && r in m && m[r] != map[]
    ensures r in n && forall x | x in m[r] :: x in n[r] && m[r][x] == n[r][x]
  {
    forall x | x in m[r] ensures r in n && x in n[r] && m[r][x] == n[r][x] {
      Members(m, Assignment(r, x, m[r][x]));
      Members(n, Assignment(r, x, m[r][x]));
    }
    assert m[r].Keys != {};
    var y :| y in m[r].Keys;
  }

  lemma SameRule(m: map<string, map<string, string>>, n: map<string, map<string, string>>, r: string)
    requires AllAssignments(m) == AllAssignments(n) && r in m && m[r] != map[] && (r in n ==> n[r] != map[])
    ensures r in n && m[r] == n[r]
  {
    Within(m, n, r);
    Within(n, m, r);
    assert m[r].Keys == n[r].Keys;
  }

  lemma SameVariables(m: map<string, map<string, string>>, n: map<string, map<string, string>>)
    requires AllAssignments(m) == AllAssignments(n)
    requires (forall r | r in m :: m[r] != map[]) && forall r | r in n :: n[r] != map[]
    ensures m == n
  {
    forall r | r in m ensures r in n && m[r] == n[r] {
      SameRule(m, n, r);
    }
    forall r | r in n ensures r in m {
      SameRule(n, m, r);
    }
    SameMap(m, n);
  }

  lemma SameMap<V>(m: map<string, V>, n: map<string, V>)
    requires (forall r | r in m :: r in n && m[r] == n[r]) && forall r | r in n :: r in m
    ensures m == n
  {
    assert m.Keys == n.Keys;
  }

  /** Which variables which rules may export. */
  type Exported = (string, string) -> bool

  ghost predicate Fits(json: string -> bool, exported: Exported, rule: string, vars: map<string, string>) {
    forall n | n in vars :: exported(rule, n) && json(vars[n])
  }

  /** Variables that may be exported, with JSON values; no rule has exported an empty set. */
  ghost predicate Over(json: string -> bool, exported: Exported, rules: map<string, map<string, string>>) {
    forall r | r in rules :: rules[r] != map[] && Fits(json, exported, r, rules[r])
  }

  ghost predicate NoEquals(exported: Exported) {
    forall r, n | exported(r, n) :: '=' !in r && '=' !in n
  }

  /** No two variables have the same dotted name. */
  ghost predicate DotsTell(exported: Exported) {
    forall r, n, r', n' | exported(r, n) && exported(r', n') && Dotted(r, n) == Dotted(r', n') :: r == r' && n == n'
  }

  /** Different variables have different texts. */
  ghost predicate TextTells(json: string -> bool, exported: Exported) {
    forall m, n | Over(json, exported, m) && Over(json, exported, n) && VarsText(m) == VarsText(n) :: m == n
  }

  ghost predicate Allowed(json: string -> bool, exported: Exported, list: seq<Assignment>) {
    forall a | a in list :: exported(a.rule, a.name) && json(a.value)
  }

  lemma {:induction false} PrintInjective(json: string -> bool, exported: Exported, a: seq<Assignment>,
                                          b: seq<Assignment>)
    requires SelfDelimiting(json) && NoEquals(exported) && DotsTell(exported)
    requires Allowed(json, exported, a) && Allowed(json, exported, b) && PrintAll(a) == PrintAll(b)
    ensures a == b
  {
    if a != [] && b != [] {
      SameAssignment(json, a[0], PrintAll(a[1..]), b[0], PrintAll(b[1..]));
      PrintInjective(json, exported, a[1..], b[1..]);
      assert a == [a[0]] + a[1..] && b == [b[0]] + b[1..];
    }
  }

  lemma AllAllowed(json: string -> bool, exported: Exported, m: map<string, map<string, string>>)
    requires Over(json, exported, m)
    ensures Allowed(json, exported, AllAssignments(m))
  {
    forall a | a in AllAssignments(m) ensures exported(a.rule, a.name) && json(a.value) {
      Members(m, a);
      assert Fits(json, exported, a.rule, m[a.rule]);
    }
  }

  /** Where dotted names tell the variables apart, so does their text. */
  lemma TextInjective(json: string -> bool, exported: Exported,
                      m: map<string, map<string, string>>, n: map<string, map<string, string>>)
    requires SelfDelimiting(json) && NoEquals(exported) && DotsTell(exported)
    requires Over(json, exported, m) && Over(json, exported, n) && VarsText(m) == VarsText(n)
    ensures m == n
  {
    AllAllowed(json, exported, m);
    AllAllowed(json, exported, n);
    PrintInjective(json, exported, AllAssignments(m), AllAssignments(n));
    SameVariables(m, n);
  }

  lemma OneIsOver(json: string -> bool, exported: Exported, a: Assignment)
    requires exported(a.rule, a.name) && json(a.value)
    ensures Over(json, exported, map[a.rule := map[a.name := a.value]])
  {
    assert map[a.name := a.value] != map[] by {
      assert a.name in map[a.name := a.value];
    }
  }

  /**
    The text tells all variables over a set of exports apart if and only if no two exports have the same dotted name.
   */
  lemma TextTellsIff(json: string -> bool, exported: Exported, value: string)
    requires SelfDelimiting(json) && NoEquals(exported) && json(value)
    ensures TextTells(json, exported) <==> DotsTell(exported)
  {
    if DotsTell(exported) {
      forall m, n | Over(json, exported, m) && Over(json, exported, n) && VarsText(m) == VarsText(n) ensures m == n {
        TextInjective(json, exported, m, n);
      }
    } else {
      var r, n, r', n' :|
        exported(r, n) && exported(r', n') && Dotted(r, n) == Dotted(r', n') && !(r == r' && n == n');
      SameDots(r, n, r', n');
      DottedCollide(json, exported, Assignment(r, n, value), Assignment(r', n', value));
    }
  }

  lemma SameDotsPrint(a: Assignment, b: Assignment)
    requires Dotted(a.rule, a.name) == Dotted(b.rule, b.name) && a.value == b.value
    ensures Print(a) == Print(b)
  {
  }

  lemma DottedCollide(json: string -> bool, exported: Exported, a: Assignment, b: Assignment)
    requires exported(a.rule, a.name) && exported(b.rule, b.name) && json(a.value) && a.value == b.value
    requires a.rule != b.rule && Dotted(a.rule, a.name) == Dotted(b.rule, b.name)
    ensures !TextTells(json, exported)
  {
    var m, n := map[a.rule := map[a.name := a.value]], map[b.rule := map[b.name := b.value]];
    OneIsOver(json, exported, a);
    OneIsOver(json, exported, b);
    OneAssignment(a);
    OneAssignment(b);
    SameDotsPrint(a, b);
    DifferentRules(a.rule, b.rule, map[a.name := a.value], map[b.name := b.value]);
    assert Over(json, exported, m) && Over(json, exported, n) && VarsText(m) == VarsText(n);
  }

  /** Two names that differ but have the same dotted name belong to different rules. */
  lemma SameDots(r: string, n: string, r': string, n': string)
    requires Dotted(r, n) == Dotted(r', n') && !(r == r' && n == n')
    ensures r != r'
  {
    assert n == Dotted(r, n)[|r| + 1..] && n' == Dotted(r', n')[|r'| + 1..];
  }

  // ---- The variables of one rule in the text ----

  /** What one rule contributes to the text. */
  ghost function Block(rule: string, vars: map<string, string>): string { PrintAll(AssignmentsOf(rule, vars)) }

  /** `all` is `names` with `x` put in at position `i`. */
  ghost predicate PutIn(x: string, names: seq<string>, all: seq<string>, i: nat) {
    i <= |names| && all == names[..i] + [x] + names[i..]
  }

  lemma PutInLater(head: string, x: string, rest: seq<string>, all: seq<string>, i: nat)
    requires PutIn(x, rest, all, i)
    ensures PutIn(x, [head] + rest, [head] + all, i + 1)
  {
    var names := [head] + rest;
    assert names[..i + 1] == [head] + rest[..i] && names[i + 1..] == rest[i..];
  }

  lemma PutInFirst(x: string, names: seq<string>)
    ensures PutIn(x, names, [x] + names, 0)
  {
    assert names[..0] == [] && names[0..] == names;
  }

  lemma InsertLater(x: string, names: seq<string>)
    requires Sorted(names) && names != [] && !Below(x, names[0])
    ensures Sorted(names[1..]) && Insert(x, names) == [names[0]] + Insert(x, names[1..])
    ensures names == [names[0]] + names[1..]
  {
  }

  lemma InsertFirst(x: string, names: seq<string>)
    requires Sorted(names) && (names == [] || Below(x, names[0]))
    ensures Insert(x, names) == [x] + names
  {
  }

  lemma {:induction false} Placed(x: string, names: seq<string>) returns (i: nat)
    requires Sorted(names)
    ensures PutIn(x, names, Insert(x, names), i)
  {
    if names == [] || Below(x, names[0]) {
      InsertFirst(x, names);
      PutInFirst(x, names);
      i := 0;
    } else {
      InsertLater(x, names);
      var j := Placed(x, names[1..]);
      PutInLater(names[0], x, names[1..], Insert(x, names[1..]), j);
      i := j + 1;
    }
  }

  lemma ListingInsert(s: set<string>, x: string)
    requires x !in s
    ensures Listing(s + {x}) == Insert(x, Listing(s))
  {
    assert multiset(s + {x}) == multiset(s) + multiset{x};
    SortedIsUnique(Listing(s + {x}), Insert(x, Listing(s)));
  }

  lemma {:induction false} AssignmentsAppend(a: seq<string>, b: seq<string>, rules: map<string, map<string, string>>)
    requires forall n | n in a + b :: n in rules
    ensures (forall n | n in a :: n in rules) && forall n | n in b :: n in rules
    ensures Assignments(a + b, rules) == Assignments(a, rules) + Assignments(b, rules)
  {
    assert forall n | n in a :: n in a + b;
    assert forall n | n in b :: n in a + b;
    if a == [] {
      assert a + b == b;
    } else {
      assert (a + b)[0] == a[0] && (a + b)[1..] == a[1..] + b;
      AssignmentsAppend(a[1..], b, rules);
      Regroup(AssignmentsOf(a[0], rules[a[0]]), Assignments(a[1..], rules), Assignments(b, rules));
    }
  }

  lemma {:induction false} AssignmentsAgree(names: seq<string>, m: map<string, map<string, string>>,
                                            n: map<string, map<string, string>>)
    requires forall x | x in names :: x in m && x in n && m[x] == n[x]
    ensures Assignments(names, m) == Assignments(names, n)
  {
    if names != [] {
      AssignmentsAgree(names[1..], m, n);
    }
  }

  lemma PrintPlaced(front: seq<string>, x: string, back: seq<string>, rules: map<string, map<string, string>>)
    requires (forall n | n in front :: n in rules) && x in rules && forall n | n in back :: n in rules
    ensures forall n | n in front + [x] + back :: n in rules
    ensures PrintAll(Assignments(front + [x] + back, rules))
            == PrintAll(Assignments(front, rules)) + Block(x, rules[x]) + PrintAll(Assignments(back, rules))
  {
    AssignmentsAppend(front + [x], back, rules);
    AssignmentsAppend(front, [x], rules);
    PrintAppend(Assignments(front + [x], rules), Assignments(back, rules));
    PrintAppend(Assignments(front, rules), Assignments([x], rules));
    OneRule(x, rules);
  }

  lemma OneRule(x: string, rules: map<string, map<string, string>>)
    requires x in rules
    ensures Assignments([x], rules) == AssignmentsOf(x, rules[x])
  {
    assert Assignments([x][1..], rules) == [];
  }

  lemma Halves(x: string, names: seq<string>, all: seq<string>, i: nat) returns (front: seq<string>, back: seq<string>)
    requires PutIn(x, names, all, i)
    ensures names == front + back && all == front + [x] + back
  {
    front, back := names[..i], names[i..];
  }

  /**
    The text is the block of one rule between what comes before and after it, and neither of these depends on the
    variables of that rule.
   */
  lemma BlockSplit(m: map<string, map<string, string>>, x: string) returns (pre: string, post: string)
    requires x !in m
    ensures VarsText(m) == pre + post
    ensures forall vars :: VarsText(m[x := vars]) == pre + Block(x, vars) + post
  {
    var names := Listing(m.Keys);
    var i := Placed(x, names);
    var front, back := Halves(x, names, Insert(x, names), i);
    SplitOld(m, front, back);
    pre, post := PrintAll(Assignments(front, m)), PrintAll(Assignments(back, m));
    forall vars ensures VarsText(m[x := vars]) == pre + Block(x, vars) + post {
      SplitNew(m, x, vars, front, back);
    }
  }

  lemma SplitOld(m: map<string, map<string, string>>, front: seq<string>, back: seq<string>)
    requires Listing(m.Keys) == front + back
    ensures (forall n | n in front :: n in m) && forall n | n in back :: n in m
    ensures VarsText(m) == PrintAll(Assignments(front, m)) + PrintAll(Assignments(back, m))
  {
    ListingKeys(m);
    AssignmentsAppend(front, back, m);
    PrintAppend(Assignments(front, m), Assignments(back, m));
  }

  lemma SplitNew(m: map<string, map<string, string>>, x: string, vars: map<string, string>,
                 front: seq<string>, back: seq<string>)
    requires x !in m && Insert(x, Listing(m.Keys)) == front + [x] + back
    requires (forall n | n in front :: n in m) && forall n | n in back :: n in m
    ensures VarsText(m[x := vars])
            == PrintAll(Assignments(front, m)) + Block(x, vars) + PrintAll(Assignments(back, m))
  {
    var more := m[x := vars];
    assert more.Keys == m.Keys + {x};
    assert more[x] == vars;
    SplitWith(m, more, x, front, back);
  }

  lemma SplitWith(m: map<string, map<string, string>>, more: map<string, map<string, string>>, x: string,
                  front: seq<string>, back: seq<string>)
    requires x !in m && x in more && more.Keys == m.Keys + {x} && forall n | n in m :: more[n] == m[n]
    requires Insert(x, Listing(m.Keys)) == front + [x] + back
    requires (forall n | n in front :: n in m) && forall n | n in back :: n in m
    ensures VarsText(more) == PrintAll(Assignments(front, m)) + Block(x, more[x]) + PrintAll(Assignments(back, m))
  {
    ListingInsert(m.Keys, x);
    PrintPlaced(front, x, back, more);
    AssignmentsAgree(front, m, more);
    AssignmentsAgree(back, m, more);
  }

  lemma BlockNotEmpty(x: string, vars: map<string, string>)
    requires vars != map[]
    ensures Block(x, vars) != ""
  {
    assert vars.Keys != {};
    var n :| n in vars.Keys;
    ListingKeys(vars);
    RuleMembers(x, Listing(vars.Keys), vars, Assignment(x, n, vars[n]));
  }

  /** Variables of a rule that had none make the text longer, whatever they are called. */
  lemma NewRuleShows(m: map<string, map<string, string>>, x: string, vars: map<string, string>)
    requires x !in m && vars != map[]
    ensures VarsText(m[x := vars]) != VarsText(m)
  {
    var pre, post := BlockSplit(m, x);
    BlockNotEmpty(x, vars);
    assert |VarsText(m[x := vars])| > |VarsText(m)|;
  }

  lemma {:induction false} SameBlockList(json: string -> bool, x: string, a: seq<Assignment>, b: seq<Assignment>)
    requires SelfDelimiting(json) && PrintAll(a) == PrintAll(b)
    requires forall y | y in a :: y.rule == x && '=' !in y.name && json(y.value)
    requires forall y | y in b :: y.rule == x && '=' !in y.name && json(y.value)
    ensures a == b
  {
    if a != [] && b != [] {
      SameInRule(json, x, a[0], PrintAll(a[1..]), b[0], PrintAll(b[1..]));
      SameBlockList(json, x, a[1..], b[1..]);
      assert a == [a[0]] + a[1..] && b == [b[0]] + b[1..];
    }
  }

  lemma SameInRule(json: string -> bool, x: string, a: Assignment, s: string, b: Assignment, t: string)
    requires SelfDelimiting(json) && json(a.value) && json(b.value) && Print(a) + s == Print(b) + t
    requires a.rule == x && b.rule == x && '=' !in a.name && '=' !in b.name
    ensures a == b && s == t
  {
    var u, v := a.value + "|" + s, b.value + "|" + t;
    AfterRule(a, s);
    AfterRule(b, t);
    CutAt(a.name, '=', u);
    CutAt(b.name, '=', v);
    SameValue(json, a.value, s, b.value, t);
  }

  lemma AfterRule(a: Assignment, s: string)
    ensures (Print(a) + s)[|a.rule| + 1..] == a.name + ['='] + (a.value + "|" + s)
  {
  }

  /** The names hold no '=' and the values are JSON. */
  ghost predicate ReadableVars(json: string -> bool, vars: map<string, string>) {
    forall n | n in vars :: '=' !in n && json(vars[n])
  }

  /** Within one rule the block tells readable variables apart, whatever the rule is called. */
  lemma BlockInjective(json: string -> bool, x: string, v: map<string, string>, w: map<string, string>)
    requires SelfDelimiting(json) && ReadableVars(json, v) && ReadableVars(json, w) && Block(x, v) == Block(x, w)
    ensures v == w
  {
    BlockLegible(json, x, v);
    BlockLegible(json, x, w);
    SameBlockList(json, x, AssignmentsOf(x, v), AssignmentsOf(x, w));
    SameBlockVars(x, v, w);
  }

  lemma SameBlockVars(x: string, v: map<string, string>, w: map<string, string>)
    requires AssignmentsOf(x, v) == AssignmentsOf(x, w)
    ensures v == w
  {
    forall n | n in v ensures n in w && v[n] == w[n] {
      BlockMember(x, v, Assignment(x, n, v[n]));
      BlockMember(x, w, Assignment(x, n, v[n]));
    }
    forall n | n in w ensures n in v {
      BlockMember(x, v, Assignment(x, n, w[n]));
      BlockMember(x, w, Assignment(x, n, w[n]));
    }
    SameMap(v, w);
  }

  lemma BlockMember(x: string, v: map<string, string>, a: Assignment)
    ensures a in AssignmentsOf(x, v) <==> a.rule == x && a.name in v && a.value == v[a.name]
  {
    ListingKeys(v);
    RuleMembers(x, Listing(v.Keys), v, a);
  }

  lemma BlockLegible(json: string -> bool, x: string, v: map<string, string>)
    requires ReadableVars(json, v)
    ensures forall a | a in AssignmentsOf(x, v) :: a.rule == x && '=' !in a.name && json(a.value)
  {
    forall a | a in AssignmentsOf(x, v) ensures a.rule == x && '=' !in a.name && json(a.value) {
      BlockMember(x, v, a);
    }
  }

  /** Changing the variables of a rule that already had some changes the text, where they can be read. */
  lemma ChangedRuleShows(json: string -> bool, m: map<string, map<string, string>>, x: string,
                         vars: map<string, string>)
    requires SelfDelimiting(json) && x in m && ReadableVars(json, m[x]) && ReadableVars(json, vars)
    requires VarsText(m[x := vars]) == VarsText(m)
    ensures m[x := vars] == m
  {
    var pre, post := BlockSplit(m - {x}, x);
    Reinserted(m, x, vars);
    Reinserted(m, x, m[x]);
    BlockBetween(pre, Block(x, vars), Block(x, m[x]), post);
    BlockInjective(json, x, vars, m[x]);
  }

  lemma Reinserted<V>(m: map<string, V>, x: string, v: V)
    ensures (m - {x})[x := v] == m[x := v] && (x in m && v == m[x] ==> m[x := v] == m)
  {
    assert ((m - {x})[x := v]).Keys == m[x := v].Keys;
    if x in m && v == m[x] {
      assert m[x := v].Keys == m.Keys;
    }
  }

  lemma BlockBetween(pre: string, a: string, b: string, post: string)
    requires pre + a + post == pre + b + post
    ensures a == b
  {
    var whole := pre + a + post;
    assert |a| == |b|;
    assert a == whole[|pre|..|pre| + |a|] && b == whole[|pre|..|pre| + |a|];
  }

  // ---- Dots in names collide ----

  lemma OneAssignment(a: Assignment)
    ensures VarsText(map[a.rule := map[a.name := a.value]]) == Print(a)
  {
    var vars := map[a.name := a.value];
    var rules := map[a.rule := vars];
    assert multiset([a.name]) == multiset(vars.Keys) && multiset([a.rule]) == multiset(rules.Keys);
    SortedIsUnique(Listing(vars.Keys), [a.name]);
    SortedIsUnique(Listing(rules.Keys), [a.rule]);
    var none: seq<Assignment> := [];
    assert RuleAssignments(a.rule, [a.name][1..], vars) == none && Assignments([a.rule][1..], rules) == none;
    assert [a] + none == [a];
    assert AssignmentsOf(a.rule, vars) == [a] && AllAssignments(rules) == [a];
    PrintOne(a);
  }

  lemma SamePrint(a: string, b: string, c: string, value: string)
    ensures Print(Assignment(a, b + "." + c, value)) == Print(Assignment(a + "." + b, c, value))
  {
    assert a + "." + (b + "." + c) == (a + "." + b) + "." + c;
  }

  /** Rule `a` exporting `b.c` and rule `a.b` exporting `c` share a text, for any names and any value. */
  lemma DotsCollide(a: string, b: string, c: string, value: string)
    ensures map[a := map[b + "." + c := value]] != map[a + "." + b := map[c := value]]
    ensures VarsText(map[a := map[b + "." + c := value]]) == VarsText(map[a + "." + b := map[c := value]])
  {
    OneAssignment(Assignment(a, b + "." + c, value));
    OneAssignment(Assignment(a + "." + b, c, value));
    SamePrint(a, b, c, value);
    assert |a + "." + b| > |a|;
    DifferentRules(a, a + "." + b, map[b + "." + c := value], map[c := value]);
  }

  lemma DifferentRules(r: string, s: string, m: map<string, string>, n: map<string, string>)
    requires r != s
    ensures map[r := m] != map[s := n]
  {
    assert r in map[r := m] && r !in map[s := n];
  }
}
