/**
  What brace expansion means: a word built from literals, [ ] classes and { } groups
  expands to the product of its parts, every choice once and in order.
 */
module BraceMeaning {
  import opened Braces

  datatype Item = Lit(c: char) | Class(body: string) | Group(alts: Alts)
  datatype Pattern = End | Then(item: Item, rest: Pattern)
  datatype Alts = Last(p: Pattern) | Or(p: Pattern, others: Alts)

  /** Outside groups only { is special; the scans do not look at the rest. */
  predicate WellFormed(p: Pattern) {
    p.End? || (WellFormedItem(p.item) && WellFormed(p.rest))
  }

  predicate WellFormedItem(x: Item) {
    match x
    case Lit(c) => c != '{'
    case Class(body) => ']' !in body && '{' !in body
    case Group(alts) => InnerAlts(alts)
  }

  /** Inside groups a comma, a brace and an open bracket mean something. */
  predicate Inner(p: Pattern) {
    p.End? || (InnerItem(p.item) && Inner(p.rest))
  }

  predicate InnerItem(x: Item) {
    match x
    case Lit(c) => c !in "{}[,"
    case Class(body) => ']' !in body && '{' !in body
    case Group(alts) => InnerAlts(alts)
  }

  predicate InnerAlts(alts: Alts) {
    Inner(alts.p) && (alts.Or? ==> InnerAlts(alts.others))
  }

  lemma {:induction false} InnerIsWellFormed(p: Pattern)
    requires Inner(p)
    ensures WellFormed(p)
  {
    if p.Then? {
      InnerIsWellFormed(p.rest);
    }
  }

  // ----- Printing

  function Print(p: Pattern): string {
    match p { case End => "" case Then(x, rest) => PrintItem(x) + Print(rest) }
  }

  function PrintItem(x: Item): string {
    match x
    case Lit(c) => [c]
    case Class(body) => "[" + body + "]"
    case Group(alts) => "{" + PrintAlts(alts) + "}"
  }

  function PrintAlts(alts: Alts): string {
    match alts
    case Last(p) => Print(p)
    case Or(p, others) => Print(p) + "," + PrintAlts(others)
  }

  // ----- Meaning

  function Prefixed(x: string, ys: seq<string>): (r: seq<string>)
    ensures |r| == |ys| && forall i :: 0 <= i < |ys| ==> r[i] == x + ys[i]
  {
    seq(|ys|, i requires 0 <= i < |ys| => x + ys[i])
  }

  /** Every word of the first list before every word of the second, the first varying slowest. */
  function Product(xs: seq<string>, ys: seq<string>): seq<string> {
    if xs == [] then [] else Prefixed(xs[0], ys) + Product(xs[1..], ys)
  }

  function Denote(p: Pattern): seq<string> {
    match p { case End => [""] case Then(x, rest) => Product(DenoteItem(x), Denote(rest)) }
  }

  function DenoteItem(x: Item): seq<string> {
    match x
    case Lit(c) => [[c]]
    case Class(body) => ["[" + body + "]"]
    case Group(alts) => DenoteAlts(alts)
  }

  function DenoteAlts(alts: Alts): seq<string> {
    match alts
    case Last(p) => Denote(p)
    case Or(p, others) => Denote(p) + DenoteAlts(others)
  }

  // ----- Laws of the product

  lemma {:induction false} ProductConcat(a: seq<string>, b: seq<string>, ys: seq<string>)
    ensures Product(a + b, ys) == Product(a, ys) + Product(b, ys)
    decreases |a|
  {
    if a == [] {
      assert a + b == b;
    } else {
      assert (a + b)[1..] == a[1..] + b;
      ProductConcat(a[1..], b, ys);
    }
  }

  lemma PrefixedTwice(x: string, y: string, zs: seq<string>)
    ensures Prefixed(x + y, zs) == Prefixed(x, Prefixed(y, zs))
  {
    assert forall i :: 0 <= i < |zs| ==> x + y + zs[i] == x + (y + zs[i]);
  }

  lemma {:induction false} PrefixedProduct(x: string, ys: seq<string>, zs: seq<string>)
    ensures Product(Prefixed(x, ys), zs) == Prefixed(x, Product(ys, zs))
    decreases |ys|
  {
    if ys != [] {
      assert Prefixed(x, ys)[1..] == Prefixed(x, ys[1..]);
      PrefixedProduct(x, ys[1..], zs);
      PrefixedTwice(x, ys[0], zs);
    }
  }

  lemma {:induction false} ProductAssoc(xs: seq<string>, ys: seq<string>, zs: seq<string>)
    ensures Product(Product(xs, ys), zs) == Product(xs, Product(ys, zs))
    decreases |xs|
  {
    if xs != [] {
      ProductAssoc(xs[1..], ys, zs);
      ProductConcat(Prefixed(xs[0], ys), Product(xs[1..], ys), zs);
      PrefixedProduct(xs[0], ys, zs);
    }
  }

  lemma ProductOne(x: string, ys: seq<string>)
    ensures Product([x], ys) == Prefixed(x, ys)
    ensures Prefixed("", ys) == ys
  {
    assert Product([x][1..], ys) == [];
    assert forall i :: 0 <= i < |ys| ==> "" + ys[i] == ys[i];
  }

  // ----- Patterns one after the other

  function Append(p: Pattern, q: Pattern): Pattern {
    match p { case End => q case Then(x, rest) => Then(x, Append(rest, q)) }
  }

  lemma {:induction false} AppendLaws(p: Pattern, q: Pattern)
    ensures Denote(Append(p, q)) == Product(Denote(p), Denote(q))
    ensures Print(Append(p, q)) == Print(p) + Print(q)
    ensures Groups(Append(p, q)) == Groups(p) + Groups(q)
    ensures WellFormed(p) && WellFormed(q) ==> WellFormed(Append(p, q))
  {
    match p
    case End =>
      ProductOne("", Denote(q));
    case Then(x, rest) =>
      AppendLaws(rest, q);
      ProductAssoc(DenoteItem(x), Denote(rest), Denote(q));
  }

  /** The groups of a pattern, at every depth. */
  function Groups(p: Pattern): nat {
    match p { case End => 0 case Then(x, rest) => GroupsItem(x) + Groups(rest) }
  }

  function GroupsItem(x: Item): nat {
    match x { case Group(alts) => 1 + GroupsAlts(alts) case _ => 0 }
  }

  function GroupsAlts(alts: Alts): nat {
    Groups(alts.p) + if alts.Or? then GroupsAlts(alts.others) else 0
  }

  // ----- The scans pass over printed text

  /** The text `u` stands in `s` at `k`. */
  predicate At(s: string, k: nat, u: string) {
    k + |u| <= |s| && s[k..k + |u|] == u
  }

  lemma AtSplit(s: string, k: nat, u: string, v: string)
    requires At(s, k, u + v)
    ensures At(s, k, u) && At(s, k + |u|, v)
  {
    assert s[k..k + |u|] == s[k..k + |u + v|][..|u|];
    assert s[k + |u|..k + |u| + |v|] == s[k..k + |u + v|][|u|..];
  }

  /** What the scans do from `k` to `k'`: nothing that counts. */
  ghost predicate Passes(s: string, k: nat, k': nat, depth: nat) {
    && k <= k' <= |s| && Close(s, k, depth) == Close(s, k', depth)
    && forall pl: nat, pe: nat :: pl <= k && k' <= pe < |s|
         ==> Alternatives(s, pl, k, depth, pe) == Alternatives(s, pl, k', depth, pe)
  }

  lemma PassOrdinary(s: string, k: nat, depth: nat)
    requires k < |s| && (s[k] !in "{}[," || (s[k] == ',' && depth > 0))
    ensures Passes(s, k, k + 1, depth)
  {
  }

  lemma PassClass(s: string, k: nat, n: nat, depth: nat)
    requires k < n < |s| && s[k] == '[' && s[n] == ']' && ']' !in s[k + 1..n]
    ensures Passes(s, k, n + 1, depth)
  {
    IndexAt(s, ']', k + 1, n);
  }

  lemma PassGroup(s: string, k: nat, n: nat, depth: nat)
    requires k < n < |s| && s[k] == '{' && s[n] == '}' && Passes(s, k + 1, n, depth + 1)
    ensures Passes(s, k, n + 1, depth)
  {
    forall pl: nat, pe: nat | pl <= k && n + 1 <= pe < |s|
      ensures Alternatives(s, pl, k, depth, pe) == Alternatives(s, pl, n + 1, depth, pe)
    {
      assert Alternatives(s, pl, k, depth, pe) == Alternatives(s, pl, k + 1, depth + 1, pe);
    }
  }

  lemma PassOn(s: string, k: nat, m: nat, n: nat, depth: nat)
    requires Passes(s, k, m, depth) && Passes(s, m, n, depth)
    ensures Passes(s, k, n, depth)
  {
  }

  lemma {:induction false} ScanPattern(s: string, k: nat, p: Pattern, depth: nat)
    requires Inner(p) && At(s, k, Print(p))
    ensures Passes(s, k, k + |Print(p)|, depth)
    decreases p
  {
    if p.Then? {
      var m := k + |PrintItem(p.item)|;
      AtSplit(s, k, PrintItem(p.item), Print(p.rest));
      ScanItem(s, k, p.item, depth);
      ScanPattern(s, m, p.rest, depth);
      PassOn(s, k, m, m + |Print(p.rest)|, depth);
    }
  }

  lemma {:induction false} ScanItem(s: string, k: nat, x: Item, depth: nat)
    requires InnerItem(x) && At(s, k, PrintItem(x))
    ensures Passes(s, k, k + |PrintItem(x)|, depth)
    decreases x
  {
    match x
    case Lit(c) =>
      assert s[k] == s[k..k + 1][0];
      PassOrdinary(s, k, depth);
    case Class(body) =>
      Enclosed(s, k, '[', body, ']');
      PassClass(s, k, k + 1 + |body|, depth);
    case Group(alts) =>
      Enclosed(s, k, '{', PrintAlts(alts), '}');
      ScanAlts(s, k + 1, alts, depth + 1);
      PassGroup(s, k, k + 1 + |PrintAlts(alts)|, depth);
  }

  lemma Enclosed(s: string, k: nat, open: char, u: string, close: char)
    requires At(s, k, [open] + u + [close])
    ensures s[k] == open && At(s, k + 1, u) && s[k + 1 + |u|] == close
  {
    AtSplit(s, k, [open] + u, [close]);
    AtSplit(s, k, [open], u);
    assert s[k] == s[k..k + 1][0] && s[k + 1 + |u|] == s[k + 1 + |u|..k + 2 + |u|][0];
  }

  lemma {:induction false} ScanAlts(s: string, k: nat, alts: Alts, depth: nat)
    requires depth > 0 && InnerAlts(alts) && At(s, k, PrintAlts(alts))
    ensures Passes(s, k, k + |PrintAlts(alts)|, depth)
    decreases alts
  {
    match alts
    case Last(p) => ScanPattern(s, k, p, depth);
    case Or(p, others) =>
      var m := k + |Print(p)|;
      AtComma(s, k, p, others);
      ScanPattern(s, k, p, depth);
      PassOrdinary(s, m, depth);
      PassOn(s, k, m, m + 1, depth);
      ScanAlts(s, m + 1, others, depth);
      PassOn(s, k, m + 1, m + 1 + |PrintAlts(others)|, depth);
  }

  lemma AtComma(s: string, k: nat, p: Pattern, others: Alts)
    requires At(s, k, PrintAlts(Or(p, others)))
    ensures var m := k + |Print(p)|;
            At(s, k, Print(p)) && s[m] == ',' && At(s, m + 1, PrintAlts(others))
  {
    var m := k + |Print(p)|;
    AtSplit(s, k, Print(p) + ",", PrintAlts(others));
    AtSplit(s, k, Print(p), ",");
    assert s[m] == s[m..m + 1][0];
  }

  function PrintEach(alts: Alts): seq<string> {
    [Print(alts.p)] + if alts.Or? then PrintEach(alts.others) else []
  }

  /** The scans of a printed group find its end and its alternatives. */
  lemma {:induction false} GroupAlternatives(s: string, k: nat, alts: Alts, pe: nat)
    requires InnerAlts(alts) && At(s, k, PrintAlts(alts))
    requires pe == k + |PrintAlts(alts)| < |s| && s[pe] == '}'
    ensures Close(s, k, 0) == Ok(pe) && Alternatives(s, k, k, 0, pe) == PrintEach(alts)
    decreases alts
  {
    var m := k + |Print(alts.p)|;
    if alts.Or? {
      AtComma(s, k, alts.p, alts.others);
      GroupAlternatives(s, m + 1, alts.others, pe);
    }
    ScanPattern(s, k, alts.p, 0);
    assert Alternatives(s, k, k, 0, pe) == Alternatives(s, k, m, 0, pe);
    assert Alternatives(s, k, m, 0, pe) == [s[k..m]] + Alternatives(s, m + 1, m + 1, 0, pe);
    assert s[k..m] == Print(alts.p);
  }

  // ----- The leftmost group

  lemma {:induction false} NoGroups(p: Pattern)
    requires WellFormed(p) && Groups(p) == 0
    ensures '{' !in Print(p) && Denote(p) == [Print(p)]
  {
    if p.Then? {
      NoGroups(p.rest);
      ProductOne(PrintItem(p.item), Denote(p.rest));
    }
  }

  function FirstGroup(p: Pattern): (r: (Pattern, Alts, Pattern))
    requires Groups(p) > 0
    ensures p == Append(r.0, Then(Group(r.1), r.2)) && Groups(r.0) == 0
    ensures Groups(p) == 1 + GroupsAlts(r.1) + Groups(r.2)
    ensures WellFormed(p) ==> WellFormed(r.0) && InnerAlts(r.1) && WellFormed(r.2)
  {
    if p.item.Group? then (End, p.item.alts, p.rest)
    else
      assert GroupsItem(p.item) == 0;
      var (pre, alts, post) := FirstGroup(p.rest);
      (Then(p.item, pre), alts, post)
  }

  lemma GroupAt(s: string, x: string, u: string, v: string)
    requires s == x + ("{" + u + "}" + v)
    ensures At(s, |x| + 1, u) && s[|x| + 1 + |u|] == '}'
  {
  }

  lemma GroupEnds(s: string, x: string, u: string, v: string)
    requires s == x + ("{" + u + "}" + v)
    ensures s[|x|] == '{' && s[..|x|] == x && s[|x| + 1 + |u| + 1..] == v
  {
  }

  lemma BracedText(s: string, x: string, b: nat, v: string, each: seq<string>)
    requires |x| < b < |s| && '{' !in x && s[..|x|] == x && s[|x|] == '{' && s[b + 1..] == v
    requires Close(s, |x| + 1, 0) == Ok(b) && Alternatives(s, |x| + 1, |x| + 1, 0, b) == each
    ensures Braced(s) == Ok(Around(x, each, v))
  {
    assert s[0..|x|] == x;
    IndexAt(s, '{', 0, |x|);
  }

  lemma BracedGroup(s: string, x: string, u: string, v: string, each: seq<string>)
    requires s == x + ("{" + u + "}" + v) && '{' !in x && s != "{}"
    requires Close(s, |x| + 1, 0) == Ok(|x| + 1 + |u|)
    requires Alternatives(s, |x| + 1, |x| + 1, 0, |x| + 1 + |u|) == each
    ensures Needs(s) && Braced(s) == Ok(Around(x, each, v))
  {
    GroupEnds(s, x, u, v);
    BracedText(s, x, |x| + 1 + |u|, v, each);
  }

  /** Replacing the leftmost group of a printed pattern puts each alternative in its place. */
  lemma BracedPrint(pre: Pattern, alts: Alts, post: Pattern, s: string)
    requires WellFormed(pre) && Groups(pre) == 0 && InnerAlts(alts)
    requires s == Print(pre) + ("{" + PrintAlts(alts) + "}" + Print(post)) && s != "{}"
    ensures Needs(s) && Braced(s) == Ok(Around(Print(pre), PrintEach(alts), Print(post)))
  {
    NoGroups(pre);
    var x, u, v := Print(pre), PrintAlts(alts), Print(post);
    GroupAt(s, x, u, v);
    GroupAlternatives(s, |x| + 1, alts, |x| + 1 + |u|);
    BracedGroup(s, x, u, v, PrintEach(alts));
  }

  // ----- Words that come down to {}

  /** Some choice of alternatives leaves nothing of the pattern. */
  predicate Vanishes(p: Pattern) {
    p.End? || (VanishesItem(p.item) && Vanishes(p.rest))
  }

  predicate VanishesItem(x: Item) {
    x.Group? && VanishesAlts(x.alts)
  }

  predicate VanishesAlts(alts: Alts) {
    Vanishes(alts.p) || (alts.Or? && VanishesAlts(alts.others))
  }

  /** The last item is {}, or a group with an alternative like this, and all before it can vanish. */
  predicate Lone(p: Pattern) {
    p.Then? &&
    if p.rest.End? then p.item.Group? && (p.item.alts == Last(End) || LoneAlts(p.item.alts))
    else VanishesItem(p.item) && Lone(p.rest)
  }

  predicate LoneAlts(alts: Alts) {
    Lone(alts.p) || (alts.Or? && LoneAlts(alts.others))
  }

  const EMPTY_GROUP: Pattern := Then(Group(Last(End)), End)

  lemma {:induction false} AppendEnd(p: Pattern)
    ensures Append(p, End) == p
  {
    if p.Then? {
      AppendEnd(p.rest);
    }
  }

  lemma {:induction false} LoneAppend(a: Pattern, post: Pattern)
    requires post != End
    ensures Lone(Append(a, post)) <==> Vanishes(a) && Lone(post)
  {
    if a.Then? {
      LoneAppend(a.rest, post);
      assert Append(a.rest, post).Then?;
    }
  }

  /** With one of the alternatives in the place of their group, the word can come down to {}. */
  predicate LoneAny(pre: Pattern, alts: Alts, post: Pattern)
    decreases alts
  {
    Lone(Append(pre, Append(alts.p, post))) || (alts.Or? && LoneAny(pre, alts.others, post))
  }

  lemma {:induction false} LoneAnyAlone(alts: Alts)
    ensures LoneAny(End, alts, End) == LoneAlts(alts)
    decreases alts
  {
    AppendEnd(alts.p);
    if alts.Or? {
      LoneAnyAlone(alts.others);
    }
  }

  lemma {:induction false} LoneAnyBefore(alts: Alts, post: Pattern)
    requires post != End
    ensures LoneAny(End, alts, post) <==> VanishesAlts(alts) && Lone(post)
    decreases alts
  {
    LoneAppend(alts.p, post);
    if alts.Or? {
      LoneAnyBefore(alts.others, post);
    }
  }

  /** What does not start with a group stays. */
  lemma {:induction false} LoneAnyBehind(pre: Pattern, alts: Alts, post: Pattern)
    requires pre.Then? && !pre.item.Group?
    ensures !LoneAny(pre, alts, post) && !Lone(Append(pre, Then(Group(alts), post)))
    decreases alts
  {
    if alts.Or? {
      LoneAnyBehind(pre, alts.others, post);
    }
  }

  /** Replacing the leftmost group keeps whether the word can come down to {}. */
  lemma LoneStep(pre: Pattern, alts: Alts, post: Pattern)
    requires Groups(pre) == 0 && Append(pre, Then(Group(alts), post)) != EMPTY_GROUP
    ensures Lone(Append(pre, Then(Group(alts), post))) == LoneAny(pre, alts, post)
  {
    if pre.Then? {
      assert GroupsItem(pre.item) == 0;
      LoneAnyBehind(pre, alts, post);
    } else if post.End? {
      LoneAnyAlone(alts);
    } else {
      LoneAnyBefore(alts, post);
    }
  }

  lemma PrintsNothing(p: Pattern, alts: Alts)
    ensures Print(p) == "" <==> p == End
    ensures PrintAlts(alts) == "" <==> alts == Last(End)
  {
    assert p.Then? ==> |PrintItem(p.item)| > 0;
    assert alts.p.Then? ==> |PrintItem(alts.p.item)| > 0;
  }

  lemma PrintsEmptyGroup(p: Pattern)
    requires WellFormed(p)
    ensures Print(p) == "{}" <==> p == EMPTY_GROUP
  {
    if p.Then? {
      assert |PrintItem(p.item)| > 0 && Print(p)[0] == PrintItem(p.item)[0];
      if p.item.Group? {
        PrintsNothing(p.rest, p.item.alts);
        assert |Print(p)| == 2 + |PrintAlts(p.item.alts)| + |Print(p.rest)|;
        assert "{" + "" + "}" + "" == "{}";
      }
    }
  }

  // ----- The main result

  /** A printed pattern expands to its product, or to words with {} among them. */
  ghost predicate ComesOut(p: Pattern) {
    var r := Expand(Print(p));
    r.Ok? && if Lone(p) then "{}" in r.value else r.value == Denote(p)
  }

  ghost predicate EachComesOut(pre: Pattern, alts: Alts, post: Pattern) {
    var r := ExpandAll(Around(Print(pre), PrintEach(alts), Print(post)));
    r.Ok? && if LoneAny(pre, alts, post) then "{}" in r.value
             else r.value == Product(Denote(pre), Product(DenoteAlts(alts), Denote(post)))
  }

  lemma {:induction false} Expansion(p: Pattern)
    requires WellFormed(p)
    ensures ComesOut(p)
    decreases 2 * Groups(p)
  {
    PrintsEmptyGroup(p);
    if Groups(p) == 0 {
      NoGroups(p);
      NoGroupsNotLone(p);
    } else if p != EMPTY_GROUP {
      var (pre, alts, post) := FirstGroup(p);
      AppendLaws(pre, Then(Group(alts), post));
      BracedPrint(pre, alts, post, Print(p));
      ExpandStep(Print(p));
      LoneStep(pre, alts, post);
      ExpandEach(pre, alts, post);
    } else {
      assert Print(p) == "{}" && !Needs("{}");
      assert "{}" in ["{}"] && Lone(p);
    }
  }

  lemma {:induction false} NoGroupsNotLone(p: Pattern)
    requires Groups(p) == 0
    ensures !Lone(p)
  {
  }

  lemma {:induction false} ExpandEach(pre: Pattern, alts: Alts, post: Pattern)
    requires WellFormed(pre) && InnerAlts(alts) && WellFormed(post) && Groups(pre) == 0
    ensures EachComesOut(pre, alts, post)
    decreases 2 * (GroupsAlts(alts) + Groups(post)) + 1, alts
  {
    var x, q := Print(pre), Append(alts.p, post);
    InnerIsWellFormed(alts.p);
    AppendLaws(alts.p, post);
    AppendLaws(pre, q);
    Expansion(Append(pre, q));
    if alts.Or? {
      ExpandEach(pre, alts.others, post);
      AroundCons(x, Print(alts.p), PrintEach(alts.others), Print(post));
      ProductMore(pre, alts, post);
    } else {
      AroundCons(x, Print(alts.p), [], Print(post));
      var one := Expand(Print(Append(pre, q)));
      assert one.value + [] == one.value;
    }
  }

  /** The products of the alternatives, one after the other. */
  lemma ProductMore(pre: Pattern, alts: Alts, post: Pattern)
    requires alts.Or? && WellFormed(pre) && Groups(pre) == 0
    ensures Product(Denote(pre), Product(DenoteAlts(alts), Denote(post)))
            == Product(Denote(pre), Product(Denote(alts.p), Denote(post)))
               + Product(Denote(pre), Product(DenoteAlts(alts.others), Denote(post)))
  {
    var x := Print(pre);
    NoGroups(pre);
    ProductConcat(Denote(alts.p), DenoteAlts(alts.others), Denote(post));
    var first, rest := Product(Denote(alts.p), Denote(post)), Product(DenoteAlts(alts.others), Denote(post));
    ProductOne(x, first);
    ProductOne(x, rest);
    ProductOne(x, first + rest);
    PrefixedConcat(x, first, rest);
  }

  ghost predicate BraceFree(ws: seq<string>) {
    forall i :: 0 <= i < |ws| ==> '{' !in ws[i]
  }

  lemma {:induction false} ProductBraceFree(xs: seq<string>, ys: seq<string>)
    requires BraceFree(xs) && BraceFree(ys)
    ensures BraceFree(Product(xs, ys))
    decreases |xs|
  {
    if xs != [] {
      ProductBraceFree(xs[1..], ys);
    }
  }

  lemma {:induction false} DenoteBraceFree(p: Pattern)
    requires WellFormed(p)
    ensures BraceFree(Denote(p))
    decreases p
  {
    if p.Then? {
      DenoteBraceFree(p.rest);
      if p.item.Group? {
        AltsBraceFree(p.item.alts);
      }
      ProductBraceFree(DenoteItem(p.item), Denote(p.rest));
    }
  }

  lemma {:induction false} AltsBraceFree(alts: Alts)
    requires InnerAlts(alts)
    ensures BraceFree(DenoteAlts(alts))
    decreases alts
  {
    InnerIsWellFormed(alts.p);
    DenoteBraceFree(alts.p);
    if alts.Or? {
      AltsBraceFree(alts.others);
    }
  }

  /** A printed pattern expands to its product exactly if it cannot come down to {}. */
  lemma ExpandIsProduct(p: Pattern)
    requires WellFormed(p)
    ensures Expand(Print(p)) == Ok(Denote(p)) <==> !Lone(p)
    ensures Lone(p) ==> Expand(Print(p)).Ok? && "{}" in Expand(Print(p)).value
  {
    Expansion(p);
    DenoteBraceFree(p);
    if Lone(p) {
      var ws := Expand(Print(p)).value;
      var i :| 0 <= i < |ws| && ws[i] == "{}";
      assert "{}"[0] == '{';
    }
  }

  /** The plainest case: of two empty groups the second is left. */
  lemma TwoEmptyGroups()
    ensures Expand("{}{}") == Ok(["{}"])
  {
    var s, one := "{}{}", ["{}"];
    assert Braced(s) == Ok(one) by {
      assert s[..0] == "" && s[1..1] == "" && s[2..] == "{}";
      assert Alternatives(s, 1, 1, 0, 1) == [""];
      assert "" + "" + "{}" == "{}";
      assert Around("", [""], "{}") == one;
    }
    ExpandStep(s);
    assert one[1..] == [] && ["{}"] + [] == ["{}"];
  }

  lemma AroundCons(pre: string, x: string, alts: seq<string>, post: string)
    ensures Around(pre, [x] + alts, post)[0] == pre + (x + post)
    ensures Around(pre, [x] + alts, post)[1..] == Around(pre, alts, post)
  {
    assert pre + x + post == pre + (x + post);
  }

  lemma PrefixedConcat(x: string, a: seq<string>, b: seq<string>)
    ensures Prefixed(x, a + b) == Prefixed(x, a) + Prefixed(x, b)
  {
  }
}
