/**
  What the table-driven parser recognises.  A second certificate ties the tables to a
  grammar: every state has one accessing symbol, and where a rule is reduced the symbols
  under the top of the stack spell its right-hand side.  From that a parse without
  errors builds a derivation tree of exactly the tokens that it has read.
 */
module LrGrammar {
  import opened Numbers
  import opened LrMachine

  /** Tokens are numbers from 0, the nonterminal numbered a is Nonterminal(a). */
  datatype Grammar = Grammar(rules: nat, lhs: int -> int, rhs: int -> seq<int>)

  function Nonterminal(a: int): int {
    -1 - a
  }

  datatype Tree = Leaf(token: int) | Node(rule: int, kids: seq<Tree>)

  function Root(g: Grammar, t: Tree): int {
    match t
    case Leaf(c) => c
    case Node(r, _) => Nonterminal(g.lhs(r))
  }

  /** Every inner node is an instance of its rule. */
  predicate IsTree(g: Grammar, t: Tree)
    decreases t
  {
    match t
    case Leaf(_) => true
    case Node(r, kids) =>
      && 0 < r < g.rules && |kids| == |g.rhs(r)|
      && forall i :: 0 <= i < |kids| ==> IsTree(g, kids[i]) && Root(g, kids[i]) == g.rhs(r)[i]
  }

  /** The leaves from left to right. */
  function Yield(t: Tree): seq<int>
    decreases t
  {
    match t
    case Leaf(c) => [c]
    case Node(_, kids) => Yields(kids)
  }

  function Yields(ts: seq<Tree>): seq<int>
    decreases ts
  {
    if ts == [] then [] else Yield(ts[0]) + Yields(ts[1..])
  }

  /** The symbol derives the tokens. */
  ghost predicate Derives(g: Grammar, symbol: int, tokens: seq<int>) {
    exists t :: IsTree(g, t) && Root(g, t) == symbol && Yield(t) == tokens
  }

  /** The tokens of a list of tokens with values. */
  function Codes<V>(toks: seq<(int, V)>): seq<int> {
    if toks == [] then [] else [toks[0].0] + Codes(toks[1..])
  }

  lemma {:induction false} YieldsConcat(a: seq<Tree>, b: seq<Tree>)
    ensures Yields(a + b) == Yields(a) + Yields(b)
    decreases |a|
  {
    if a == [] {
      assert a + b == b;
    } else {
      assert (a + b)[0] == a[0] && (a + b)[1..] == a[1..] + b;
      YieldsConcat(a[1..], b);
    }
  }

  lemma YieldsOne(t: Tree)
    ensures Yields([t]) == Yield(t)
  {
    assert [t][1..] == [];
  }

  lemma YieldsSnoc(ts: seq<Tree>, t: Tree)
    ensures Yields(ts + [t]) == Yields(ts) + Yield(t)
  {
    YieldsConcat(ts, [t]);
    YieldsOne(t);
  }

  // ----- The certificate

  /** The symbol that every way into a state ends with. */
  type Access = int -> int

  /** From x down, the first m symbols of the right-hand side of r lie on the stack. */
  predicate Spells(under: Under, access: Access, x: int, m: nat, rhs: seq<int>)
    requires m <= |rhs|
    decreases m
  {
    m == 0 ||
    (access(x) == rhs[m - 1]
     && forall i :: 0 <= i < |under(x)| ==> Spells(under, access, under(x)[i], m - 1, rhs))
  }

  predicate RuleSpelled(tb: Tables, under: Under, g: Grammar, access: Access, s: int, r: int) {
    0 < r < g.rules && |g.rhs(r)| == tb.len(r) && Spells(under, access, s, tb.len(r), g.rhs(r))
  }

  ghost predicate Spelled(tb: Tables, under: Under, g: Grammar, access: Access) {
    && (forall s, c :: tb.IsState(s) && c >= 0 && tb.Shift(s, c).Some? ==> c > 0 && access(tb.Shift(s, c).value) == c)
    && (forall t, r :: tb.IsState(t) && 0 < r < g.rules ==> access(tb.Next(t, r)) == Nonterminal(g.lhs(r)))
    && (forall s :: tb.IsState(s) && tb.defred(s) != 0 ==> RuleSpelled(tb, under, g, access, s, tb.defred(s)))
    && (forall s, c :: tb.IsState(s) && c >= 0 && tb.Reduction(s, c).Some?
          ==> RuleSpelled(tb, under, g, access, s, tb.Reduction(s, c).value))
  }

  /** Below the top of a sound stack stands the right-hand side that the certificate promises. */
  lemma {:induction false} StackSpells(tb: Tables, under: Under, access: Access, stack: seq<int>, m: nat,
                                       rhs: seq<int>, j: nat)
    requires Sound(tb, under, stack) && j < m <= |rhs| && m < |stack| && Spells(under, access, Top(stack), m, rhs)
    ensures access(stack[|stack| - m + j]) == rhs[j]
    decreases m
  {
    if j < m - 1 {
      var below := stack[..|stack| - 1];
      SoundPop(tb, under, stack, 1);
      var i :| 0 <= i < |under(Top(stack))| && under(Top(stack))[i] == Top(below);
      StackSpells(tb, under, access, below, m - 1, rhs, j);
    }
  }

  // ----- What a parse has built

  /** The token read and not yet shifted; the end of the input counts for none. */
  function Ahead(token: int): seq<int> {
    if token > 0 then [token] else []
  }

  /** A tree for every state above the bottom, with the tokens read so far as leaves. */
  ghost predicate Built(g: Grammar, access: Access, stack: seq<int>, token: int, ts: seq<Tree>, read: seq<int>) {
    && |ts| + 1 == |stack|
    && (forall i :: 0 <= i < |ts| ==> IsTree(g, ts[i]) && Root(g, ts[i]) == access(stack[i + 1]))
    && Yields(ts) + Ahead(token) == read
  }

  lemma ShiftBuilds(g: Grammar, access: Access, stack: seq<int>, c: int, to: int, ts: seq<Tree>, read: seq<int>)
    requires Built(g, access, stack, c, ts, read) && c > 0 && access(to) == c
    ensures Built(g, access, stack + [to], -1, ts + [Leaf(c)], read)
  {
    YieldsSnoc(ts, Leaf(c));
  }

  /** The trees of the right-hand side become the children of one new tree. */
  lemma GroupYields(ts: seq<Tree>, n: nat, r: int)
    requires n <= |ts|
    ensures Yields(ts[..|ts| - n] + [Node(r, ts[|ts| - n..])]) == Yields(ts)
  {
    var a, b := ts[..|ts| - n], ts[|ts| - n..];
    YieldsSnoc(a, Node(r, b));
    YieldsConcat(a, b);
    assert a + b == ts;
  }

  /** They fit the rule. */
  lemma KidsFit(tb: Tables, under: Under, g: Grammar, access: Access, stack: seq<int>, token: int, r: int,
                ts: seq<Tree>, read: seq<int>)
    requires Sound(tb, under, stack) && Built(g, access, stack, token, ts, read)
    requires RuleSpelled(tb, under, g, access, Top(stack), r) && 0 <= tb.len(r) < |stack|
    ensures IsTree(g, Node(r, ts[|ts| - tb.len(r)..]))
  {
    var len := tb.len(r);
    var n := |ts| - len;
    forall j | 0 <= j < len ensures Root(g, ts[n..][j]) == g.rhs(r)[j] && IsTree(g, ts[n..][j]) {
      StackSpells(tb, under, access, stack, len, g.rhs(r), j);
      assert ts[n..][j] == ts[n + j];
    }
  }

  lemma GroupBuilds(g: Grammar, access: Access, stack: seq<int>, token: int, n: nat, r: int, to: int,
                    ts: seq<Tree>, read: seq<int>)
    requires Built(g, access, stack, token, ts, read) && n < |stack|
    requires IsTree(g, Node(r, ts[|ts| - n..])) && access(to) == Nonterminal(g.lhs(r))
    ensures Built(g, access, stack[..|stack| - n] + [to], token, ts[..|ts| - n] + [Node(r, ts[|ts| - n..])], read)
  {
    GroupYields(ts, n, r);
  }

  ghost predicate CanBuild(g: Grammar, access: Access, stack: seq<int>, token: int, read: seq<int>) {
    exists ts :: Built(g, access, stack, token, ts, read)
  }

  /** A parse without errors so far has built its tokens. */
  ghost predicate HasBuilt<V>(g: Grammar, access: Access, m: Machine<V>, read: seq<int>) {
    m.nerrs == 0 ==> m.errflag == 0 && CanBuild(g, access, m.stack, m.token, read)
  }

  /** The token that a step has read, the end of the input for none. */
  function Taken<V>(tb: Tables, m: Machine<V>, inp: Input<V>, o: Outcome<V>): seq<int>
    requires m.stack != []
  {
    if Reads(tb, m, o) then Ahead(Lookahead(m.token, inp.next)) else []
  }

  ghost predicate Certificates(tb: Tables, under: Under, g: Grammar, access: Access) {
    Certified(tb, under) && Spelled(tb, under, g, access) && g.lhs == tb.lhs && g.rules == tb.rules
  }

  /** The stack after a reduction is built again. */
  lemma ReduceBuilds(tb: Tables, under: Under, g: Grammar, access: Access, stack: seq<int>, token: int, r: int, to: int,
                     read: seq<int>)
    requires Sound(tb, under, stack) && CanBuild(g, access, stack, token, read)
    requires RuleSpelled(tb, under, g, access, Top(stack), r) && 0 <= tb.len(r) < |stack|
    requires access(to) == Nonterminal(g.lhs(r))
    ensures CanBuild(g, access, stack[..|stack| - tb.len(r)] + [to], token, read)
  {
    var ts :| Built(g, access, stack, token, ts, read);
    KidsFit(tb, under, g, access, stack, token, r, ts, read);
    GroupBuilds(g, access, stack, token, tb.len(r), r, to, ts, read);
  }

  lemma ReadBuilds(g: Grammar, access: Access, stack: seq<int>, token: int, c: int, read: seq<int>)
    requires CanBuild(g, access, stack, token, read) && (c == token || token < 0)
    ensures CanBuild(g, access, stack, c, read + if token < 0 then Ahead(c) else [])
  {
    var ts :| Built(g, access, stack, token, ts, read);
    assert Built(g, access, stack, c, ts, read + if token < 0 then Ahead(c) else []);
  }

  lemma GotoAccess(tb: Tables, under: Under, g: Grammar, access: Access, t: int, r: int)
    requires Certificates(tb, under, g, access) && tb.IsState(t) && 0 < r < g.rules
    ensures access(tb.Next(t, r)) == Nonterminal(g.lhs(r))
  {
  }

  /** The end of a reduction either finds no room, or puts one state on the stack and may read. */
  lemma LandShape<V>(tb: Tables, p: Machine<V>, r: int, inp: Input<V>)
    requires |p.stack| == |p.vals| >= 1
    ensures var o, to := Land(tb, p, r, inp), tb.Next(Top(p.stack), r);
            o.Overflow? ||
            (&& o.m.stack == p.stack + [to] && o.m.nerrs == p.nerrs && o.m.errflag == p.errflag
             && (o.m.token == p.token || (p.token < 0 && o.m.token == Lookahead(p.token, inp.next))))
  {
  }

  lemma LandBuilds<V>(tb: Tables, under: Under, g: Grammar, access: Access, m: Machine<V>, r: int, inp: Input<V>,
                      read: seq<int>)
    requires Certificates(tb, under, g, access) && Inv(tb, under, m) && Fits(tb, m, r)
    requires RuleSpelled(tb, under, g, access, Top(m.stack), r) && m.nerrs == 0 && HasBuilt(g, access, m, read)
    ensures var o := Land(tb, Pop(m, tb.len(r)), r, inp);
            o.Overflow? || HasBuilt(g, access, o.m, read + if m.token < 0 then Ahead(o.m.token) else [])
  {
    var p := Pop(m, tb.len(r));
    var t := Top(p.stack);
    GotoAccess(tb, under, g, access, t, r);
    ReduceBuilds(tb, under, g, access, m.stack, m.token, r, tb.Next(t, r), read);
    LandShape(tb, p, r, inp);
    var o := Land(tb, p, r, inp);
    if !o.Overflow? {
      ReadBuilds(g, access, o.m.stack, m.token, o.m.token, read);
    }
  }

  /** Recovery counts nothing, accepts nothing, and keeps the token or drops it. */
  lemma RecoverShape<V>(tb: Tables, m: Machine<V>, lval: V)
    requires |m.stack| == |m.vals| >= 1
    ensures var o := Recover(tb, m, lval);
            && o.m.nerrs == m.nerrs && !o.Accepted? && (o.m.token == m.token || o.m.token == -1)
            && (o.Aborted? ==> o.m.errflag >= 3)
  {
    if m.errflag < 3 {
      UnwindShape(tb, m.(errflag := 3), lval);
    }
  }

  lemma {:induction false} UnwindShape<V>(tb: Tables, m: Machine<V>, lval: V)
    requires |m.stack| == |m.vals| >= 1
    ensures var o := Unwind(tb, m, lval);
            o.m.nerrs == m.nerrs && !o.Accepted? && o.m.token == m.token && o.m.errflag == m.errflag
    decreases |m.stack|
  {
    if tb.Shift(Top(m.stack), YYERRCODE).None? && |m.stack| > 1 {
      UnwindShape(tb, Pop(m, 1), lval);
    }
  }

  /** The token after a step: the one at hand, none, or the one just read. */
  predicate TokenAfter(token: int, next: int, after: int) {
    after == token || after == -1 || (token < 0 && after == Lookahead(token, next))
  }

  lemma ReduceToken<V>(tb: Tables, m: Machine<V>, r: int, inp: Input<V>)
    requires Fits(tb, m, r)
    ensures TokenAfter(m.token, inp.next, Reduce(tb, m, r, inp).m.token)
  {
    if inp.fails && tb.mayFail(r) {
      RecoverShape(tb, m.(nerrs := m.nerrs + 1), inp.lval);
    }
  }

  lemma ReduceReads<V>(tb: Tables, m: Machine<V>, r: int, inp: Input<V>)
    requires Fits(tb, m, r) && m.token < 0
    ensures Reduce(tb, m, r, inp).m.token >= 0 <==>
            !(inp.fails && tb.mayFail(r)) && m.stack[|m.stack| - 1 - tb.len(r)] == 0 && tb.lhs(r) == 0
  {
    if inp.fails && tb.mayFail(r) {
      RecoverShape(tb, m.(nerrs := m.nerrs + 1), inp.lval);
    }
  }

  /** A default reduction without a token reads one exactly if it comes back to the bottom. */
  lemma DefaultReads<V>(tb: Tables, under: Under, m: Machine<V>, inp: Input<V>)
    requires Certified(tb, under) && Inv(tb, under, m) && tb.defred(Top(m.stack)) != 0 && m.token < 0
    ensures Fits(tb, m, tb.defred(Top(m.stack)))
    ensures Reads(tb, m, Step(tb, under, m, inp)) <==> ReturnsHome(tb, m, inp.fails)
  {
    var r := tb.defred(Top(m.stack));
    RuleFitsStack(tb, under, m, r);
    ReduceReads(tb, m, r, inp);
  }

  lemma StepToken<V>(tb: Tables, under: Under, m: Machine<V>, inp: Input<V>)
    requires Certified(tb, under) && Inv(tb, under, m)
    ensures TokenAfter(m.token, inp.next, Step(tb, under, m, inp).m.token)
  {
    var s := Top(m.stack);
    var r := tb.defred(s);
    if r != 0 {
      RuleFitsStack(tb, under, m, r);
      ReduceToken(tb, m, r, inp);
    } else {
      var m' := m.(token := Lookahead(m.token, inp.next));
      OnTokenKeeps(tb, under, m', inp);
      if tb.Shift(s, m'.token).None? {
        match tb.Reduction(s, m'.token)
        case Some(r') => ReduceToken(tb, m', r', inp);
        case None => RecoverShape(tb, if m'.errflag == 0 then m'.(nerrs := m'.nerrs + 1) else m', inp.lval);
      }
    }
  }

  lemma ReducesBuilt<V>(tb: Tables, under: Under, g: Grammar, access: Access, m: Machine<V>, r: int, inp: Input<V>,
                        read: seq<int>)
    requires Certificates(tb, under, g, access) && Inv(tb, under, m) && Fits(tb, m, r)
    requires RuleSpelled(tb, under, g, access, Top(m.stack), r) && HasBuilt(g, access, m, read)
    ensures var o := Reduce(tb, m, r, inp);
            o.Overflow? || HasBuilt(g, access, o.m, read + if m.token < 0 then Ahead(o.m.token) else [])
  {
    if inp.fails && tb.mayFail(r) {
      RecoverShape(tb, m.(nerrs := m.nerrs + 1), inp.lval);
    } else if m.nerrs == 0 {
      LandBuilds(tb, under, g, access, m, r, inp, read);
    } else {
      LandShape(tb, Pop(m, tb.len(r)), r, inp);
    }
  }

  lemma ShiftsBuilt<V>(tb: Tables, under: Under, g: Grammar, access: Access, m: Machine<V>, to: int, lval: V,
                       read: seq<int>)
    requires HasBuilt(g, access, m, read) && m.token > 0 && access(to) == m.token
    ensures var o := ShiftTo(m, to, lval);
            o.Overflow? || HasBuilt(g, access, o.m, read)
  {
    if m.nerrs == 0 {
      var ts :| Built(g, access, m.stack, m.token, ts, read);
      ShiftBuilds(g, access, m.stack, m.token, to, ts, read);
    }
  }

  lemma OnTokenBuilds<V>(tb: Tables, under: Under, g: Grammar, access: Access, m: Machine<V>, inp: Input<V>,
                         read: seq<int>)
    requires Certificates(tb, under, g, access) && Inv(tb, under, m) && m.token >= 0 && HasBuilt(g, access, m, read)
    ensures var r := tb.Reduction(Top(m.stack), m.token);
            r.Some? ==> Fits(tb, m, r.value)
    ensures var o := OnToken(tb, m, inp);
            o.Overflow? || HasBuilt(g, access, o.m, read)
  {
    var s := Top(m.stack);
    OnTokenKeeps(tb, under, m, inp);
    assert tb.IsState(s);
    match tb.Shift(s, m.token)
    case Some(to) => ShiftsBuilt(tb, under, g, access, m, to, inp.lval, read);
    case None =>
      match tb.Reduction(s, m.token)
      case Some(r) =>
        ReducesBuilt(tb, under, g, access, m, r, inp, read);
        assert read + [] == read;
      case None => RecoverShape(tb, if m.errflag == 0 then m.(nerrs := m.nerrs + 1) else m, inp.lval);
  }

  lemma DefaultBuilds<V>(tb: Tables, under: Under, g: Grammar, access: Access, m: Machine<V>, inp: Input<V>,
                         read: seq<int>)
    requires Certificates(tb, under, g, access) && Inv(tb, under, m) && HasBuilt(g, access, m, read)
    requires tb.defred(Top(m.stack)) != 0
    ensures var o := Step(tb, under, m, inp);
            o.Overflow? || HasBuilt(g, access, o.m, read + Taken(tb, m, inp, o))
  {
    var r := tb.defred(Top(m.stack));
    assert tb.IsState(Top(m.stack));
    RuleFitsStack(tb, under, m, r);
    ReducesBuilt(tb, under, g, access, m, r, inp, read);
    ReduceToken(tb, m, r, inp);
    var o := Step(tb, under, m, inp);
    assert o == Reduce(tb, m, r, inp) && Taken(tb, m, inp, o) == if m.token < 0 then Ahead(o.m.token) else [];
  }

  /** Every step of a parse without errors keeps the trees for what has been read. */
  lemma StepBuilds<V>(tb: Tables, under: Under, g: Grammar, access: Access, m: Machine<V>, inp: Input<V>,
                      read: seq<int>)
    requires Certificates(tb, under, g, access) && Inv(tb, under, m) && HasBuilt(g, access, m, read)
    ensures var o := Step(tb, under, m, inp);
            o.Overflow? || HasBuilt(g, access, o.m, read + Taken(tb, m, inp, o))
  {
    if tb.defred(Top(m.stack)) != 0 {
      DefaultBuilds(tb, under, g, access, m, inp, read);
    } else {
      var c := Lookahead(m.token, inp.next);
      var now := read + if m.token < 0 then Ahead(c) else [];
      if m.nerrs == 0 {
        ReadBuilds(g, access, m.stack, m.token, c, read);
      }
      OnTokenBuilds(tb, under, g, access, m.(token := c), inp, now);
    }
  }

  /** Only a reduction to the start symbol over the bottom accepts. */
  lemma AcceptShape<V>(tb: Tables, under: Under, g: Grammar, access: Access, m: Machine<V>, r: int, inp: Input<V>)
    requires Certificates(tb, under, g, access) && Inv(tb, under, m) && Fits(tb, m, r) && 0 < r < g.rules
    requires Reduce(tb, m, r, inp).Accepted?
    ensures var n := Reduce(tb, m, r, inp).m;
            |n.stack| == 2 && access(n.stack[1]) == Nonterminal(0) && n.token == 0
  {
    if inp.fails && tb.mayFail(r) {
      RecoverShape(tb, m.(nerrs := m.nerrs + 1), inp.lval);
    } else {
      GotoAccess(tb, under, g, access, 0, r);
    }
  }

  lemma StepAccepts<V>(tb: Tables, under: Under, g: Grammar, access: Access, m: Machine<V>, inp: Input<V>)
    requires Certificates(tb, under, g, access) && Inv(tb, under, m) && Step(tb, under, m, inp).Accepted?
    ensures var n := Step(tb, under, m, inp).m;
            |n.stack| == 2 && access(n.stack[1]) == Nonterminal(0) && n.token == 0
  {
    var s := Top(m.stack);
    var r := tb.defred(s);
    if r != 0 {
      RuleFitsStack(tb, under, m, r);
      AcceptShape(tb, under, g, access, m, r, inp);
    } else {
      var m' := m.(token := Lookahead(m.token, inp.next));
      OnTokenKeeps(tb, under, m', inp);
      if tb.Shift(s, m'.token).None? {
        match tb.Reduction(s, m'.token)
        case Some(r') => AcceptShape(tb, under, g, access, m', r', inp);
        case None => RecoverShape(tb, if m'.errflag == 0 then m'.(nerrs := m'.nerrs + 1) else m', inp.lval);
      }
    }
  }

  /** A parse is aborted only in recovery. */
  lemma StepAborts<V>(tb: Tables, under: Under, m: Machine<V>, inp: Input<V>)
    requires Certified(tb, under) && Inv(tb, under, m) && Step(tb, under, m, inp).Aborted?
    ensures Step(tb, under, m, inp).m.errflag >= 3
  {
    var s := Top(m.stack);
    var r := tb.defred(s);
    if r != 0 {
      RuleFitsStack(tb, under, m, r);
      RecoverShape(tb, m.(nerrs := m.nerrs + 1), inp.lval);
    } else {
      var m' := m.(token := Lookahead(m.token, inp.next));
      OnTokenKeeps(tb, under, m', inp);
      RecoverShape(tb, m'.(nerrs := m'.nerrs + 1), inp.lval);
      RecoverShape(tb, m', inp.lval);
    }
  }

  /** A parse that is accepted without an error has read a sentence of the grammar. */
  lemma AcceptedDerives<V>(tb: Tables, under: Under, g: Grammar, access: Access, m: Machine<V>, inp: Input<V>,
                           read: seq<int>)
    requires Certificates(tb, under, g, access) && Inv(tb, under, m) && HasBuilt(g, access, m, read)
    requires Step(tb, under, m, inp).Accepted? && Step(tb, under, m, inp).m.nerrs == 0
    ensures Derives(g, Nonterminal(0), read + Taken(tb, m, inp, Step(tb, under, m, inp)))
  {
    var o := Step(tb, under, m, inp);
    var now := read + Taken(tb, m, inp, o);
    StepBuilds(tb, under, g, access, m, inp, read);
    StepAccepts(tb, under, g, access, m, inp);
    var ts :| Built(g, access, o.m.stack, o.m.token, ts, now);
    YieldsOne(ts[0]);
    assert ts == [ts[0]] && Yield(ts[0]) + [] == now;
  }
}
