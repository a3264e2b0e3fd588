/**
  That the table-driven parser accepts every sentence of its grammar.  A third certificate
  says where each nonterminal may start, and which tokens may follow it: from every such
  state the tables lead along the right-hand side of each of its rules, and at the end of
  it they reduce by that rule on every token that may follow.
 */
module LrComplete {
  import opened Numbers
  import opened LrMachine
  import opened LrGrammar

  /** The states where a nonterminal starts, the tokens behind it, and the tokens where it starts. */
  datatype Guide = Guide(starts: (int, int) -> bool, follows: (int, int) -> bool, begins: (int, int) -> bool)

  // ----- The certificate

  /** The state on top of s behind the nonterminal numbered a. */
  function GotoOf(tb: Tables, s: int, a: int): int {
    if s == 0 && a == 0 then YYFINAL
    else match tb.Entry(tb.gindex(a), s)
      case Some(to) => to
      case None => tb.dgoto(a)
  }

  /** In state s the parser reduces by rule r, at once or on every token that may follow. */
  ghost predicate Reduces(tb: Tables, h: Guide, s: int, r: int) {
    || tb.defred(s) == r
    || (&& tb.defred(s) == 0
        && forall c :: c >= 0 && h.follows(tb.lhs(r), c) ==> tb.Shift(s, c).None? && tb.Reduction(s, c) == Some(r))
  }

  /** From state s on, the tables go along the right-hand side of rule r from its symbol j. */
  ghost predicate Walk(tb: Tables, g: Grammar, h: Guide, s: int, r: int, j: nat)
    requires j <= |g.rhs(r)|
    decreases |g.rhs(r)| - j
  {
    if j == |g.rhs(r)| then Reduces(tb, h, s, r)
    else
      var x := g.rhs(r)[j];
      if x >= 0 then tb.defred(s) == 0 && tb.Shift(s, x).Some? && Walk(tb, g, h, tb.Shift(s, x).value, r, j + 1)
      else h.starts(s, -1 - x) && Walk(tb, g, h, GotoOf(tb, s, -1 - x), r, j + 1)
  }

  /** The state to which the tables go over symbol x. */
  function Moved(tb: Tables, h: Guide, s: int, x: int): Option<int> {
    if x >= 0 then (if tb.defred(s) == 0 then tb.Shift(s, x) else None)
    else if h.starts(s, -1 - x) then Some(GotoOf(tb, s, -1 - x))
    else None
  }

  /** The state on top of s behind the first j of these. */
  function At(s: int, states: seq<int>, j: nat): int
    requires j <= |states|
  {
    if j == 0 then s else states[j - 1]
  }

  /** Along these states the tables go over the right-hand side of rule r, and reduce it. */
  ghost predicate Trail(tb: Tables, g: Grammar, h: Guide, s: int, r: int, states: seq<int>) {
    && |states| == |g.rhs(r)|
    && (forall i :: 0 <= i < |states| ==> Moved(tb, h, At(s, states, i), g.rhs(r)[i]) == Some(At(s, states, i + 1)))
    && Reduces(tb, h, At(s, states, |states|), r)
  }

  lemma {:induction false} TrailWalks(tb: Tables, g: Grammar, h: Guide, s: int, r: int, states: seq<int>, j: nat)
    requires Trail(tb, g, h, s, r, states) && j <= |states|
    ensures Walk(tb, g, h, At(s, states, j), r, j)
    decreases |states| - j
  {
    if j < |states| {
      TrailWalks(tb, g, h, s, r, states, j + 1);
      assert Moved(tb, h, At(s, states, j), g.rhs(r)[j]) == Some(At(s, states, j + 1));
    }
  }

  /** Token c may stand where symbol x starts. */
  predicate MayCome(h: Guide, x: int, c: int) {
    if x >= 0 then c == x else h.begins(-1 - x, c)
  }

  /** Token c may stand behind the first j symbols of rule r. */
  predicate MayComeAt(g: Grammar, h: Guide, r: int, j: nat, c: int)
    requires j <= |g.rhs(r)|
  {
    if j == |g.rhs(r)| then h.follows(g.lhs(r), c) else MayCome(h, g.rhs(r)[j], c)
  }

  /** What may follow a nonterminal in a rule is in its set, and the end of the input does not follow a first symbol. */
  predicate FollowsAt(g: Grammar, h: Guide, r: int, j: nat, c: int)
    requires j < |g.rhs(r)|
  {
    var x := g.rhs(r)[j];
    x < 0 && MayComeAt(g, h, r, j + 1, c) ==> h.follows(-1 - x, c) && (x == Nonterminal(0) ==> c != 0)
  }

  ghost predicate RuleGuided(g: Grammar, h: Guide, r: int) {
    && (forall c :: MayComeAt(g, h, r, 0, c) ==> h.begins(g.lhs(r), c))
    && (forall j, c :: 0 <= j < |g.rhs(r)| ==> FollowsAt(g, h, r, j, c))
  }

  ghost predicate Guided(tb: Tables, under: Under, g: Grammar, h: Guide) {
    && Certified(tb, under) && g.rules == tb.rules && g.lhs == tb.lhs && h.starts(0, 0) && h.follows(0, 0)
    && (forall r :: 0 < r < g.rules ==> g.lhs(r) >= 0 && tb.len(r) == |g.rhs(r)| && RuleGuided(g, h, r))
    && (forall s, r :: 0 < r < g.rules && h.starts(s, g.lhs(r)) ==> Walk(tb, g, h, s, r, 0))
  }

  // ----- What comes next

  /** The first token, or the end of the input. */
  function First(s: seq<int>): int {
    if s == [] then 0 else s[0]
  }

  predicate Positive(s: seq<int>) {
    forall i :: 0 <= i < |s| ==> s[i] > 0
  }

  lemma PositiveParts(a: seq<int>, b: seq<int>, c: seq<int>)
    requires Positive(a + b + c)
    ensures Positive(a) && Positive(b + c) && a + b + c == a + (b + c)
  {
    assert forall i :: 0 <= i < |a| ==> a[i] == (a + b + c)[i];
    assert forall i :: 0 <= i < |b + c| ==> (b + c)[i] == (a + b + c)[|a| + i];
  }

  /** The children of a node from the j-th on. */
  ghost predicate Kids(g: Grammar, r: int, kids: seq<Tree>, j: nat) {
    && j <= |kids| == |g.rhs(r)|
    && forall i :: j <= i < |kids| ==> IsTree(g, kids[i]) && Root(g, kids[i]) == g.rhs(r)[i]
  }

  lemma NodeKids(g: Grammar, t: Tree)
    requires IsTree(g, t) && t.Node?
    ensures 0 < t.rule < g.rules && Kids(g, t.rule, t.kids, 0) && Yield(t) == Yields(t.kids[0..])
  {
    assert t.kids[0..] == t.kids;
  }

  lemma FirstKid(kids: seq<Tree>, j: nat)
    requires j < |kids|
    ensures Yields(kids[j..]) == Yield(kids[j]) + Yields(kids[j + 1..])
  {
    assert kids[j..][0] == kids[j] && kids[j..][1..] == kids[j + 1..];
  }

  /** Where all leaves are tokens, a symbol that is none has an inner node. */
  lemma IsInner(g: Grammar, t: Tree)
    requires IsTree(g, t) && Root(g, t) < 0 && Positive(Yield(t))
    ensures t.Node?
  {
    if t.Leaf? {
      assert Yield(t)[0] == t.token;
    }
  }

  ghost predicate Rules(g: Grammar, h: Guide) {
    forall r :: 0 < r < g.rules ==> g.lhs(r) >= 0 && RuleGuided(g, h, r)
  }

  lemma {:induction false} TreeBegins(g: Grammar, h: Guide, t: Tree, rest: seq<int>)
    requires Rules(g, h) && IsTree(g, t) && t.Node? && Positive(Yield(t) + rest)
    requires h.follows(g.lhs(t.rule), First(rest))
    ensures h.begins(g.lhs(t.rule), First(Yield(t) + rest))
    decreases t, 1
  {
    NodeKids(g, t);
    KidsBegin(g, h, t.rule, t.kids, 0, rest, t);
    assert RuleGuided(g, h, t.rule);
  }

  /** What comes next behind the first j children of a node. */
  lemma {:induction false} KidsBegin(g: Grammar, h: Guide, r: int, kids: seq<Tree>, j: nat, rest: seq<int>, t: Tree)
    requires Rules(g, h) && 0 < r < g.rules && Kids(g, r, kids, j) && t == Node(r, kids)
    requires Positive(Yields(kids[j..]) + rest) && h.follows(g.lhs(r), First(rest))
    ensures MayComeAt(g, h, r, j, First(Yields(kids[j..]) + rest))
    decreases t, 0, |kids| - j
  {
    if j == |kids| {
      assert kids[j..] == [] && [] + rest == rest;
    } else {
      var y, ys := Yield(kids[j]), Yields(kids[j + 1..]);
      FirstKid(kids, j);
      PositiveParts(y, ys, rest);
      KidsBegin(g, h, r, kids, j + 1, rest, t);
      var x := g.rhs(r)[j];
      assert Root(g, kids[j]) == x && IsTree(g, kids[j]);
      if x < 0 {
        IsInner(g, kids[j]);
        BehindKid(g, h, r, j, First(ys + rest));
        assert x == Nonterminal(g.lhs(kids[j].rule));
        TreeBegins(g, h, kids[j], ys + rest);
      } else {
        NotInner(g, h, kids[j]);
      }
    }
  }

  lemma BehindKid(g: Grammar, h: Guide, r: int, j: nat, c: int)
    requires Rules(g, h) && 0 < r < g.rules && j < |g.rhs(r)| && g.rhs(r)[j] < 0 && MayComeAt(g, h, r, j + 1, c)
    ensures h.follows(-1 - g.rhs(r)[j], c) && (g.rhs(r)[j] == Nonterminal(0) ==> c != 0)
  {
    assert RuleGuided(g, h, r);
    assert FollowsAt(g, h, r, j, c);
  }

  lemma NotInner(g: Grammar, h: Guide, t: Tree)
    requires Rules(g, h) && IsTree(g, t) && Root(g, t) >= 0
    ensures t == Leaf(Root(g, t)) && Yield(t) == [Root(g, t)]
  {
  }

  // ----- Steps of a parse

  /** A parse with its input: yylval, the tokens left and the number of the step. */
  datatype Conf<V> = Conf(m: Machine<V>, lval: V, toks: seq<(int, V)>, n: nat)

  /** What is still to be parsed. */
  function Pending<V>(c: Conf<V>): seq<int> {
    Ahead(c.m.token) + Codes(c.toks)
  }

  /** A parse without an error so far. */
  ghost predicate Ready<V>(tb: Tables, under: Under, c: Conf<V>) {
    && Inv(tb, under, c.m) && c.m.errflag == 0 && c.m.nerrs == 0
    && (c.m.token == 0 ==> c.toks == []) && Positive(Codes(c.toks))
  }

  function StepOf<V>(tb: Tables, ghost under: Under, c: Conf<V>, act: nat -> (bool, V)): (o: Outcome<V>)
    requires Certified(tb, under) && Inv(tb, under, c.m)
    ensures InvOutcome(tb, under, o)
  {
    Step(tb, under, c.m, Given(tb, c.m, c.lval, c.toks, act(c.n)))
  }

  function NextOf<V>(tb: Tables, c: Conf<V>, o: Outcome<V>): Conf<V>
    requires c.m.stack != []
  {
    if Reads(tb, c.m, o) then
      Conf(o.m, ValueOf(c.lval, c.toks), if c.toks == [] then [] else c.toks[1..], Following(c.n))
    else Conf(o.m, c.lval, c.toks, Following(c.n))
  }

  ghost predicate Stands<V>(tb: Tables, under: Under, c: Conf<V>, stack: seq<int>, pending: seq<int>) {
    Ready(tb, under, c) && c.m.stack == stack && Pending(c) == pending
  }

  /** The token that a step sees. */
  function Seen<V>(c: Conf<V>): int {
    Lookahead(c.m.token, if c.toks == [] then 0 else c.toks[0].0)
  }

  lemma SeenIsFirst<V>(tb: Tables, under: Under, c: Conf<V>)
    requires Ready(tb, under, c)
    ensures Seen(c) == First(Pending(c))
  {
    if c.m.token <= 0 && c.toks != [] {
      assert Codes(c.toks)[0] == c.toks[0].0;
    }
  }

  /** After the token has been read it is pending still. */
  lemma PendingRead<V>(tb: Tables, under: Under, c: Conf<V>, toks: seq<(int, V)>)
    requires Ready(tb, under, c) && c.m.token < 0 && toks == if c.toks == [] then [] else c.toks[1..]
    ensures Ahead(Seen(c)) + Codes(toks) == Pending(c) && Positive(Codes(toks)) && (Seen(c) == 0 ==> toks == [])
    ensures Pending(c) != [] ==> Codes(toks) == Pending(c)[1..]
  {
    SeenIsFirst(tb, under, c);
    if c.toks != [] {
      assert Codes(c.toks) == [c.toks[0].0] + Codes(toks);
      assert forall i :: 0 <= i < |Codes(toks)| ==> Codes(toks)[i] == Codes(c.toks)[i + 1];
    }
  }

  lemma ShiftStep<V>(tb: Tables, under: Under, c: Conf<V>, act: nat -> (bool, V), x: int, rest: seq<int>, to: int)
    requires Certified(tb, under) && Ready(tb, under, c) && Pending(c) == [x] + rest && x > 0
    requires tb.defred(Top(c.m.stack)) == 0 && tb.Shift(Top(c.m.stack), x) == Some(to)
    ensures var o := StepOf(tb, under, c, act);
            o.Overflow? || (o.Running? && Stands(tb, under, NextOf(tb, c, o), c.m.stack + [to], rest))
  {
    SeenIsFirst(tb, under, c);
    assert ([x] + rest)[1..] == rest;
    var o := StepOf(tb, under, c, act);
    assert o.Overflow? || (o.Running? && o.m.stack == c.m.stack + [to] && o.m.token == -1);
    if c.m.token < 0 {
      PendingRead(tb, under, c, if c.toks == [] then [] else c.toks[1..]);
    }
  }

  /** The step of a reduction that does not fail, once the token has been looked at if that is needed. */
  lemma ReduceStep<V>(tb: Tables, under: Under, h: Guide, c: Conf<V>, act: nat -> (bool, V), r: int)
    returns (m: Machine<V>)
    requires Certified(tb, under) && Ready(tb, under, c) && !act(c.n).0 && 0 < r < tb.rules
    requires Reduces(tb, h, Top(c.m.stack), r) && h.follows(tb.lhs(r), First(Pending(c)))
    ensures m == c.m || (tb.defred(Top(c.m.stack)) == 0 && m == c.m.(token := Seen(c)))
    ensures Fits(tb, m, r)
    ensures StepOf(tb, under, c, act) == Land(tb, Pop(m, tb.len(r)), r, Given(tb, c.m, c.lval, c.toks, act(c.n)))
  {
    SeenIsFirst(tb, under, c);
    var s := Top(c.m.stack);
    m := if tb.defred(s) == r then c.m else c.m.(token := Seen(c));
    assert tb.defred(s) == r || tb.Reduction(s, Seen(c)) == Some(r);
    assert RuleFits(tb, under, s, r);
    RuleFitsStack(tb, under, m, r);
  }

  /** The stack is that of the base with the right-hand side of a rule on it. */
  predicate OnBase(stack: seq<int>, base: seq<int>, n: int) {
    base != [] && |stack| == |base| + n && base <= stack
  }

  lemma NextIsGotoOf(tb: Tables, t: int, r: int)
    ensures tb.Next(t, r) == GotoOf(tb, t, tb.lhs(r))
  {
  }

  lemma LandOnBase<V>(tb: Tables, m: Machine<V>, r: int, inp: Input<V>, base: seq<int>)
    requires Fits(tb, m, r) && OnBase(m.stack, base, tb.len(r))
    ensures var o, t := Land(tb, Pop(m, tb.len(r)), r, inp), Top(base);
            var home := t == 0 && tb.lhs(r) == 0;
            o.Overflow? ||
            (&& o.m.stack == base + [GotoOf(tb, t, tb.lhs(r))] && o.m.errflag == m.errflag && o.m.nerrs == m.nerrs
             && o.m.token == (if home then Lookahead(m.token, inp.next) else m.token)
             && (if home && o.m.token == 0 then o.Accepted? else o.Running?))
  {
    NextIsGotoOf(tb, Top(base), r);
    assert m.stack[..|m.stack| - tb.len(r)] == base;
  }

  /** What is pending behind a step that has kept the token, or read it. */
  lemma StillPending<V>(tb: Tables, under: Under, c: Conf<V>, o: Outcome<V>, rest: seq<int>)
    requires Ready(tb, under, c) && Pending(c) == rest && Inv(tb, under, o.m) && o.m.errflag == 0 && o.m.nerrs == 0
    requires if Reads(tb, c.m, o) then o.m.token == Seen(c) else o.m.token == c.m.token
    ensures Stands(tb, under, NextOf(tb, c, o), o.m.stack, rest)
  {
    if Reads(tb, c.m, o) {
      PendingRead(tb, under, c, if c.toks == [] then [] else c.toks[1..]);
    }
  }

  lemma ReduceRun<V>(tb: Tables, under: Under, h: Guide, c: Conf<V>, act: nat -> (bool, V), r: int, base: seq<int>,
                     rest: seq<int>)
    requires Certified(tb, under) && Stands(tb, under, c, c.m.stack, rest) && !act(c.n).0 && 0 < r < tb.rules
    requires Reduces(tb, h, Top(c.m.stack), r) && h.follows(tb.lhs(r), First(rest))
    requires OnBase(c.m.stack, base, tb.len(r))
    ensures var o := StepOf(tb, under, c, act);
            || o.Overflow?
            || (if Top(base) == 0 && tb.lhs(r) == 0 && rest == [] then o.Accepted? && o.m.nerrs == 0
                else o.Running? && Stands(tb, under, NextOf(tb, c, o), base + [GotoOf(tb, Top(base), tb.lhs(r))], rest))
  {
    var m := ReduceStep(tb, under, h, c, act, r);
    var inp := Given(tb, c.m, c.lval, c.toks, act(c.n));
    LandOnBase(tb, m, r, inp, base);
    var o := StepOf(tb, under, c, act);
    SeenIsFirst(tb, under, c);
    if !o.Overflow? {
      StillPending(tb, under, c, o, rest);
      FirstIsZero(tb, under, c, rest);
    }
  }

  lemma FirstIsZero<V>(tb: Tables, under: Under, c: Conf<V>, rest: seq<int>)
    requires Ready(tb, under, c) && Pending(c) == rest
    ensures First(rest) == 0 <==> rest == []
  {
    if rest != [] && c.m.token <= 0 {
      assert rest == Codes(c.toks);
    }
  }

  // ----- Runs of a parse

  /** One step less. */
  function Less(k: nat): nat
    requires k > 0
  {
    k - 1
  }

  /** k steps lead from c to d. */
  ghost predicate Leads<V>(tb: Tables, under: Under, act: nat -> (bool, V), c: Conf<V>, d: Conf<V>, k: nat)
    requires Certified(tb, under) && Inv(tb, under, c.m)
    decreases k
  {
    if k == 0 then d == c
    else
      var o := StepOf(tb, under, c, act);
      o.Running? && Leads(tb, under, act, NextOf(tb, c, o), d, Less(k))
  }

  ghost predicate IsNext<V>(tb: Tables, under: Under, act: nat -> (bool, V), c: Conf<V>, b: Conf<V>)
    requires Certified(tb, under) && Inv(tb, under, c.m)
  {
    var o := StepOf(tb, under, c, act);
    o.Running? && b == NextOf(tb, c, o) && Inv(tb, under, b.m)
  }

  lemma LeadsFirst<V>(tb: Tables, under: Under, act: nat -> (bool, V), c: Conf<V>, d: Conf<V>, k: nat)
    returns (b: Conf<V>)
    requires Certified(tb, under) && Inv(tb, under, c.m) && k > 0 && Leads(tb, under, act, c, d, k)
    ensures IsNext(tb, under, act, c, b) && Leads(tb, under, act, b, d, Less(k))
  {
    b := NextOf(tb, c, StepOf(tb, under, c, act));
  }

  lemma LeadsMore<V>(tb: Tables, under: Under, act: nat -> (bool, V), c: Conf<V>, b: Conf<V>, e: Conf<V>, n: nat)
    requires Certified(tb, under) && Inv(tb, under, c.m) && n > 0
    requires IsNext(tb, under, act, c, b) && Leads(tb, under, act, b, e, Less(n))
    ensures Leads(tb, under, act, c, e, n)
  {
  }

  lemma LeadsSame<V>(tb: Tables, under: Under, act: nat -> (bool, V), c: Conf<V>, e: Conf<V>, l: nat, n: nat)
    requires Certified(tb, under) && Inv(tb, under, c.m) && l == n && Leads(tb, under, act, c, e, l)
    ensures Leads(tb, under, act, c, e, n)
  {
  }

  lemma {:induction false} LeadsOn<V>(tb: Tables, under: Under, act: nat -> (bool, V), c: Conf<V>, d: Conf<V>, k: nat,
                                      e: Conf<V>, l: nat, n: nat)
    requires Certified(tb, under) && Inv(tb, under, c.m) && Inv(tb, under, d.m) && n == k + l
    requires Leads(tb, under, act, c, d, k) && Leads(tb, under, act, d, e, l)
    ensures Leads(tb, under, act, c, e, n)
    decreases k
  {
    if k == 0 {
      LeadsSame(tb, under, act, c, e, l, n);
    } else {
      var b := LeadsFirst(tb, under, act, c, d, k);
      LeadsOn(tb, under, act, b, d, Less(k), e, l, Less(n));
      LeadsMore(tb, under, act, c, b, e, n);
    }
  }

  lemma LeadsOne<V>(tb: Tables, under: Under, act: nat -> (bool, V), c: Conf<V>)
    requires Certified(tb, under) && Inv(tb, under, c.m) && StepOf(tb, under, c, act).Running?
    ensures Leads(tb, under, act, c, NextOf(tb, c, StepOf(tb, under, c, act)), 1)
  {
    var d := NextOf(tb, c, StepOf(tb, under, c, act));
    assert Leads(tb, under, act, d, d, 0);
  }

  /** From c the parse comes to d, where the stack is full or this is on it and that is pending. */
  ghost predicate Comes<V>(tb: Tables, under: Under, act: nat -> (bool, V), c: Conf<V>, d: Conf<V>, k: nat,
                           stack: seq<int>, pending: seq<int>)
    requires Certified(tb, under) && Inv(tb, under, c.m)
  {
    && Inv(tb, under, d.m) && Leads(tb, under, act, c, d, k)
    && (StepOf(tb, under, d, act).Overflow? || Stands(tb, under, d, stack, pending))
  }

  ghost predicate Willing<V>(act: nat -> (bool, V)) {
    forall n :: !act(n).0
  }

  /** The end of a right-hand side: the stack is full, or the whole of it is on the stack and can be reduced. */
  ghost predicate AtEnd<V>(tb: Tables, under: Under, h: Guide, act: nat -> (bool, V), d: Conf<V>, r: int,
                           base: seq<int>, rest: seq<int>)
    requires Certified(tb, under)
  {
    && Inv(tb, under, d.m)
    && (StepOf(tb, under, d, act).Overflow? ||
        (&& Stands(tb, under, d, d.m.stack, rest) && OnBase(d.m.stack, base, tb.len(r))
         && Reduces(tb, h, Top(d.m.stack), r)))
  }

  /** The state behind symbol x on top of s. */
  function Behind(tb: Tables, s: int, x: int): int
    requires x >= 0 ==> tb.Shift(s, x).Some?
  {
    if x >= 0 then tb.Shift(s, x).value else GotoOf(tb, s, -1 - x)
  }

  lemma WalkOn(tb: Tables, g: Grammar, h: Guide, s: int, r: int, j: nat)
    requires j < |g.rhs(r)| && Walk(tb, g, h, s, r, j)
    ensures var x := g.rhs(r)[j];
            && (x >= 0 ==> tb.defred(s) == 0 && tb.Shift(s, x).Some?) && (x < 0 ==> h.starts(s, -1 - x))
            && Walk(tb, g, h, Behind(tb, s, x), r, j + 1)
  {
  }

  lemma LeafRuns<V>(tb: Tables, under: Under, act: nat -> (bool, V), c: Conf<V>, x: int, rest: seq<int>)
      returns (d: Conf<V>, k: nat)
    requires Certified(tb, under) && Stands(tb, under, c, c.m.stack, [x] + rest) && x > 0
    requires tb.defred(Top(c.m.stack)) == 0 && tb.Shift(Top(c.m.stack), x).Some?
    ensures Comes(tb, under, act, c, d, k, c.m.stack + [Behind(tb, Top(c.m.stack), x)], rest)
  {
    var to := tb.Shift(Top(c.m.stack), x).value;
    ShiftStep(tb, under, c, act, x, rest, to);
    var o := StepOf(tb, under, c, act);
    if o.Overflow? {
      d, k := c, 0;
    } else {
      LeadsOne(tb, under, act, c);
      d, k := NextOf(tb, c, o), 1;
    }
  }

  lemma GuidedRules(tb: Tables, under: Under, g: Grammar, h: Guide)
    requires Guided(tb, under, g, h)
    ensures Rules(g, h)
  {
  }

  lemma StartWalks(tb: Tables, under: Under, g: Grammar, h: Guide, s: int, r: int)
    requires Guided(tb, under, g, h) && 0 < r < g.rules && h.starts(s, g.lhs(r))
    ensures Walk(tb, g, h, s, r, 0) && tb.len(r) == |g.rhs(r)| && g.lhs(r) == tb.lhs(r) >= 0
  {
  }

  /** A whole subtree is parsed to its symbol. */
  lemma {:induction false} TreeRuns<V>(tb: Tables, under: Under, g: Grammar, h: Guide, act: nat -> (bool, V), t: Tree,
                                       c: Conf<V>, rest: seq<int>)
      returns (d: Conf<V>, k: nat)
    requires Guided(tb, under, g, h) && Willing(act) && IsTree(g, t) && t.Node? && Positive(Yield(t) + rest)
    requires Stands(tb, under, c, c.m.stack, Yield(t) + rest) && h.starts(Top(c.m.stack), g.lhs(t.rule))
    requires h.follows(g.lhs(t.rule), First(rest)) && (g.lhs(t.rule) == 0 ==> rest != [])
    ensures Comes(tb, under, act, c, d, k, c.m.stack + [GotoOf(tb, Top(c.m.stack), g.lhs(t.rule))], rest)
    decreases t, 1
  {
    var r, base := t.rule, c.m.stack;
    NodeKids(g, t);
    StartWalks(tb, under, g, h, Top(base), r);
    var e, i := KidsRun(tb, under, g, h, act, r, t.kids, 0, c, rest, base, t);
    if StepOf(tb, under, e, act).Overflow? {
      d, k := e, i;
    } else {
      ReduceRun(tb, under, h, e, act, r, base, rest);
      var o := StepOf(tb, under, e, act);
      LeadsOne(tb, under, act, e);
      d, k := NextOf(tb, e, o), i + 1;
      LeadsOn(tb, under, act, c, e, i, d, 1, k);
    }
  }

  /** The children of a node from the j-th on are parsed one after the other. */
  lemma {:induction false} KidsRun<V>(tb: Tables, under: Under, g: Grammar, h: Guide, act: nat -> (bool, V), r: int,
                                      kids: seq<Tree>, j: nat, c: Conf<V>, rest: seq<int>, base: seq<int>, t: Tree)
      returns (d: Conf<V>, k: nat)
    requires Guided(tb, under, g, h) && Willing(act) && 0 < r < g.rules && Kids(g, r, kids, j) && t == Node(r, kids)
    requires Positive(Yields(kids[j..]) + rest) && h.follows(g.lhs(r), First(rest)) && tb.len(r) == |g.rhs(r)|
    requires Stands(tb, under, c, c.m.stack, Yields(kids[j..]) + rest) && OnBase(c.m.stack, base, j)
    requires Walk(tb, g, h, Top(c.m.stack), r, j)
    ensures Inv(tb, under, d.m) && Leads(tb, under, act, c, d, k) && AtEnd(tb, under, h, act, d, r, base, rest)
    decreases t, 0, |kids| - j
  {
    if j == |kids| {
      assert kids[j..] == [] && [] + rest == rest;
      d, k := c, 0;
    } else {
      var more := Yields(kids[j + 1..]) + rest;
      FirstKid(kids, j);
      PositiveParts(Yield(kids[j]), Yields(kids[j + 1..]), rest);
      WalkOn(tb, g, h, Top(c.m.stack), r, j);
      var e, i := KidRuns(tb, under, g, h, act, r, kids, j, c, rest, more, t);
      if StepOf(tb, under, e, act).Overflow? {
        d, k := e, i;
      } else {
        var l;
        d, l := KidsRun(tb, under, g, h, act, r, kids, j + 1, e, rest, base, t);
        k := i + l;
        LeadsOn(tb, under, act, c, e, i, d, l, k);
      }
    }
  }

  /** A child that is no token stands where its rule may be parsed. */
  lemma InnerKid(tb: Tables, g: Grammar, h: Guide, r: int, kids: seq<Tree>, j: nat, rest: seq<int>, more: seq<int>,
                 t: Tree, s: int)
    requires Rules(g, h) && 0 < r < g.rules && Kids(g, r, kids, j) && t == Node(r, kids) && j < |kids|
    requires more == Yields(kids[j + 1..]) + rest && Positive(Yield(kids[j])) && Positive(more)
    requires h.follows(g.lhs(r), First(rest)) && g.rhs(r)[j] < 0
    ensures kids[j].Node? && -1 - g.rhs(r)[j] == g.lhs(kids[j].rule) && h.follows(g.lhs(kids[j].rule), First(more))
    ensures g.lhs(kids[j].rule) == 0 ==> more != []
    ensures Behind(tb, s, g.rhs(r)[j]) == GotoOf(tb, s, g.lhs(kids[j].rule))
  {
    var x, kid := g.rhs(r)[j], kids[j];
    assert IsTree(g, kid) && Root(g, kid) == x;
    IsInner(g, kid);
    KidsBegin(g, h, r, kids, j + 1, rest, t);
    BehindKid(g, h, r, j, First(more));
  }

  /** One child. */
  lemma {:induction false} KidRuns<V>(tb: Tables, under: Under, g: Grammar, h: Guide, act: nat -> (bool, V), r: int,
                                      kids: seq<Tree>, j: nat, c: Conf<V>, rest: seq<int>, more: seq<int>, t: Tree)
      returns (d: Conf<V>, k: nat)
    requires Guided(tb, under, g, h) && Willing(act) && 0 < r < g.rules && Kids(g, r, kids, j) && t == Node(r, kids)
    requires j < |kids| && more == Yields(kids[j + 1..]) + rest && Positive(Yield(kids[j])) && Positive(more)
    requires h.follows(g.lhs(r), First(rest)) && Stands(tb, under, c, c.m.stack, Yield(kids[j]) + more)
    requires var x, s := g.rhs(r)[j], Top(c.m.stack);
             if x >= 0 then tb.defred(s) == 0 && tb.Shift(s, x).Some? else h.starts(s, -1 - x)
    ensures Comes(tb, under, act, c, d, k, c.m.stack + [Behind(tb, Top(c.m.stack), g.rhs(r)[j])], more)
    decreases t, 0, 0
  {
    var x, kid := g.rhs(r)[j], kids[j];
    GuidedRules(tb, under, g, h);
    assert IsTree(g, kid) && Root(g, kid) == x;
    if x >= 0 {
      NotInner(g, h, kid);
      assert x > 0 by { assert Yield(kid)[0] == x; }
      d, k := LeafRuns(tb, under, act, c, x, more);
    } else {
      InnerKid(tb, g, h, r, kids, j, rest, more, t, Top(c.m.stack));
      d, k := TreeRuns(tb, under, g, h, act, kid, c, more);
    }
  }

  /** Every sentence is parsed to the end: some step accepts it without an error, or finds the stack full. */
  lemma SentenceRuns<V>(tb: Tables, under: Under, g: Grammar, h: Guide, act: nat -> (bool, V), t: Tree, c: Conf<V>)
      returns (d: Conf<V>, k: nat)
    requires Guided(tb, under, g, h) && Willing(act) && IsTree(g, t) && t.Node? && g.lhs(t.rule) == 0
    requires Stands(tb, under, c, [0], Yield(t)) && Positive(Yield(t))
    ensures Inv(tb, under, d.m) && Leads(tb, under, act, c, d, k)
    ensures var o := StepOf(tb, under, d, act);
            o.Overflow? || (o.Accepted? && o.m.nerrs == 0)
  {
    NodeKids(g, t);
    assert Yield(t) + [] == Yield(t);
    StartWalks(tb, under, g, h, 0, t.rule);
    d, k := KidsRun(tb, under, g, h, act, t.rule, t.kids, 0, c, [], [0], t);
    if !StepOf(tb, under, d, act).Overflow? {
      ReduceRun(tb, under, h, d, act, t.rule, [0], []);
    }
  }
}
