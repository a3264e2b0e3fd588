/**
  The table-driven parser that yacc puts around a grammar (ifconfigctl/parse.c), as a
  machine over a stack of states and a stack of values.

  A table is safe if it has a certificate: for every state, the states that may lie
  directly under it, closed under shifts and reductions.  From that the machine never
  reads or pops below the bottom of its stacks, on any input.
 */
module LrMachine {
  import opened Numbers

  const YYMAXDEPTH: nat := 10000
  const YYERRCODE: int := 256
  const YYFINAL: int := 1

  /** The arrays yylhs ... yycheck, and which rules have an action that may raise YYERROR. */
  datatype Tables = Tables(
    states: nat, rules: nat, symbols: nat, size: nat,
    lhs: int -> int, len: int -> int, defred: int -> int, dgoto: int -> int,
    sindex: int -> int, rindex: int -> int, gindex: int -> int,
    table: int -> int, check: int -> int,
    mayFail: int -> bool)
  {
    predicate IsState(s: int) {
      0 <= s < states
    }

    /** A lookup in the packed table: row offset `n`, column `c`. */
    function Entry(n: int, c: int): Option<int> {
      if n != 0 && 0 <= n + c <= size && check(n + c) == c then Some(table(n + c)) else None
    }

    function Shift(s: int, c: int): Option<int> {
      Entry(sindex(s), c)
    }

    function Reduction(s: int, c: int): Option<int> {
      Entry(rindex(s), c)
    }

    /** The state that goes on top of `t` after a reduction by rule `r`. */
    function Next(t: int, r: int): int {
      if t == 0 && lhs(r) == 0 then YYFINAL
      else match Entry(gindex(lhs(r)), t)
        case Some(s) => s
        case None => dgoto(lhs(r))
    }
  }

  // ----- Certificates

  /** For every state, the states that may lie directly under it. */
  type Under = int -> seq<int>

  /** `m` states below `x` there is always a state, and rule `r` leads from it to a state that may lie on it. */
  predicate Reaches(tb: Tables, under: Under, x: int, m: nat, r: int)
    decreases m
  {
    if m == 0 then tb.IsState(tb.Next(x, r)) && x in under(tb.Next(x, r))
    else x != 0 && forall i :: 0 <= i < |under(x)| ==> Reaches(tb, under, under(x)[i], m - 1, r)
  }

  predicate RuleFits(tb: Tables, under: Under, s: int, r: int) {
    0 < r < tb.rules && tb.len(r) >= 0 && Reaches(tb, under, s, tb.len(r), r)
  }

  ghost predicate Certified(tb: Tables, under: Under) {
    && tb.IsState(0) && under(0) == []
    && (forall s, c :: tb.IsState(s) && c >= 0 && tb.Shift(s, c).Some?
          ==> tb.IsState(tb.Shift(s, c).value) && s in under(tb.Shift(s, c).value))
    && (forall s :: tb.IsState(s) && tb.defred(s) != 0 ==> RuleFits(tb, under, s, tb.defred(s)))
    && (forall s, c :: tb.IsState(s) && c >= 0 && tb.Reduction(s, c).Some?
          ==> RuleFits(tb, under, s, tb.Reduction(s, c).value))
  }

  // ----- The machine

  datatype Machine<V> = Machine(stack: seq<int>, vals: seq<V>, token: int, errflag: nat, nerrs: nat)

  /** What the world gives to one step: the next token and its value, and the outcome of an action. */
  datatype Input<V> = Input(next: int, lval: V, fails: bool, val: V)

  datatype Outcome<V> =
    | Running(m: Machine<V>)
    | Accepted(m: Machine<V>)
    | Aborted(m: Machine<V>)
    | Overflow(m: Machine<V>)

  function Top(stack: seq<int>): int
    requires stack != []
  {
    stack[|stack| - 1]
  }

  /** The stacks have equal depth within the limit, and every state lies on one it may lie on. */
  predicate Inv<V>(tb: Tables, under: Under, m: Machine<V>) {
    && 1 <= |m.stack| == |m.vals| <= YYMAXDEPTH && m.errflag <= 3
    && Sound(tb, under, m.stack)
  }

  predicate Sound(tb: Tables, under: Under, stack: seq<int>) {
    && stack != [] && stack[0] == 0
    && (forall i :: 0 <= i < |stack| ==> tb.IsState(stack[i]))
    && (forall i :: 0 < i < |stack| ==> stack[i - 1] in under(stack[i]))
  }

  lemma SoundPush(tb: Tables, under: Under, stack: seq<int>, s: int)
    requires Sound(tb, under, stack) && tb.IsState(s) && Top(stack) in under(s)
    ensures Sound(tb, under, stack + [s])
  {
  }

  lemma SoundPop(tb: Tables, under: Under, stack: seq<int>, n: nat)
    requires Sound(tb, under, stack) && n < |stack|
    ensures Sound(tb, under, stack[..|stack| - n]) && Top(stack[..|stack| - n]) == stack[|stack| - 1 - n]
  {
  }

  /** A reduction finds its whole right-hand side on the stack, above the bottom. */
  lemma {:induction false} ReductionFits(tb: Tables, under: Under, stack: seq<int>, m: nat, r: int)
    requires under(0) == [] && Sound(tb, under, stack) && Reaches(tb, under, Top(stack), m, r)
    ensures m < |stack|
    ensures var t := stack[|stack| - 1 - m];
            tb.IsState(tb.Next(t, r)) && t in under(tb.Next(t, r))
    decreases m
  {
    if m > 0 {
      assert |stack| > 1;
      var below := stack[..|stack| - 1];
      var i :| 0 <= i < |under(Top(stack))| && under(Top(stack))[i] == Top(below);
      SoundPop(tb, under, stack, 1);
      ReductionFits(tb, under, below, m - 1, r);
    }
  }

  /** The token at hand, or the next one; yyparse reads any negative token as the end. */
  function Lookahead(token: int, next: int): (c: int)
    ensures c >= 0
  {
    if token >= 0 then token else if next < 0 then 0 else next
  }

  /** A push that the growing stack refuses only at its full depth. */
  function Push<V>(m: Machine<V>, s: int, v: V): Outcome<V> {
    if |m.stack| >= YYMAXDEPTH then Overflow(m)
    else Running(m.(stack := m.stack + [s], vals := m.vals + [v]))
  }

  ghost predicate InvOutcome<V>(tb: Tables, under: Under, o: Outcome<V>) {
    Inv(tb, under, o.m) && (o.Overflow? ==> |o.m.stack| == YYMAXDEPTH)
  }

  lemma PushKeeps<V>(tb: Tables, under: Under, m: Machine<V>, s: int, v: V)
    requires Inv(tb, under, m) && tb.IsState(s) && Top(m.stack) in under(s)
    ensures InvOutcome(tb, under, Push(m, s, v))
  {
    SoundPush(tb, under, m.stack, s);
  }

  /** The search down the stack for a state that shifts the error token. */
  function Unwind<V>(tb: Tables, m: Machine<V>, lval: V): Outcome<V>
    requires |m.stack| == |m.vals| >= 1
    decreases |m.stack|
  {
    match tb.Shift(Top(m.stack), YYERRCODE)
    case Some(s) => Push(m, s, lval)
    case None =>
      if |m.stack| == 1 then Aborted(m)
      else Unwind(tb, Pop(m, 1), lval)
  }

  lemma {:induction false} UnwindKeeps<V>(tb: Tables, under: Under, m: Machine<V>, lval: V)
    requires Certified(tb, under) && Inv(tb, under, m)
    ensures InvOutcome(tb, under, Unwind(tb, m, lval))
    decreases |m.stack|
  {
    match tb.Shift(Top(m.stack), YYERRCODE)
    case Some(s) => PushKeeps(tb, under, m, s, lval);
    case None =>
      if |m.stack| > 1 {
        SoundPop(tb, under, m.stack, 1);
        UnwindKeeps(tb, under, Pop(m, 1), lval);
      }
  }

  /** yyinrecovery: unwind after a fresh error, or drop the token that led to another one. */
  function Recover<V>(tb: Tables, m: Machine<V>, lval: V): Outcome<V>
    requires |m.stack| == |m.vals| >= 1
  {
    if m.errflag < 3 then Unwind(tb, m.(errflag := 3), lval)
    else if m.token == 0 then Aborted(m)
    else Running(m.(token := -1))
  }

  /** The end of a reduction, with the right-hand side gone: push the left-hand side. */
  function Land<V>(tb: Tables, m: Machine<V>, r: int, inp: Input<V>): Outcome<V>
    requires |m.stack| == |m.vals| >= 1
  {
    var t := Top(m.stack);
    if t == 0 && tb.lhs(r) == 0 then
      var c := Lookahead(m.token, inp.next);
      var final := m.(stack := m.stack + [YYFINAL], vals := m.vals + [inp.val], token := c);
      if c == 0 then Accepted(final) else Running(final)
    else Push(m, tb.Next(t, r), inp.val)
  }

  function Pop<V>(m: Machine<V>, n: nat): Machine<V>
    requires |m.stack| == |m.vals| > n
  {
    m.(stack := m.stack[..|m.stack| - n], vals := m.vals[..|m.vals| - n])
  }

  /** yyreduce: run the action, pop the right-hand side, push the left-hand side. */
  function Reduce<V>(tb: Tables, m: Machine<V>, r: int, inp: Input<V>): Outcome<V>
    requires |m.stack| == |m.vals| >= 1 && 0 <= tb.len(r) < |m.stack|
  {
    if inp.fails && tb.mayFail(r) then Recover(tb, m.(nerrs := m.nerrs + 1), inp.lval)
    else Land(tb, Pop(m, tb.len(r)), r, inp)
  }

  /** State 0 lies only at the bottom, so the unchecked push of the final state has room. */
  lemma OnlyBottomIsZero(tb: Tables, under: Under, stack: seq<int>)
    requires under(0) == [] && Sound(tb, under, stack)
    ensures |stack| > 1 ==> Top(stack) != 0
  {
    var n := |stack| - 1;
    if n > 0 {
      assert stack[n - 1] in under(stack[n]);
    }
  }

  lemma LandKeeps<V>(tb: Tables, under: Under, p: Machine<V>, r: int, inp: Input<V>)
    requires Certified(tb, under) && Inv(tb, under, p)
    requires tb.IsState(tb.Next(Top(p.stack), r)) && Top(p.stack) in under(tb.Next(Top(p.stack), r))
    ensures InvOutcome(tb, under, Land(tb, p, r, inp))
  {
    var t := Top(p.stack);
    OnlyBottomIsZero(tb, under, p.stack);
    PushKeeps(tb, under, p, tb.Next(t, r), inp.val);
    if t == 0 && tb.lhs(r) == 0 {
      SoundPush(tb, under, p.stack, YYFINAL);
    }
  }

  lemma PopPushKeeps<V>(tb: Tables, under: Under, m: Machine<V>, r: int, inp: Input<V>)
    requires Certified(tb, under) && Inv(tb, under, m) && 0 <= tb.len(r) < |m.stack|
    requires !(inp.fails && tb.mayFail(r))
    requires var t := m.stack[|m.stack| - 1 - tb.len(r)];
             tb.IsState(tb.Next(t, r)) && t in under(tb.Next(t, r))
    ensures InvOutcome(tb, under, Reduce(tb, m, r, inp))
  {
    SoundPop(tb, under, m.stack, tb.len(r));
    LandKeeps(tb, under, Pop(m, tb.len(r)), r, inp);
  }

  lemma ReduceKeeps<V>(tb: Tables, under: Under, m: Machine<V>, r: int, inp: Input<V>)
    requires Certified(tb, under) && Inv(tb, under, m) && RuleFits(tb, under, Top(m.stack), r)
    ensures 0 <= tb.len(r) < |m.stack| && InvOutcome(tb, under, Reduce(tb, m, r, inp))
  {
    ReductionFits(tb, under, m.stack, tb.len(r), r);
    if inp.fails && tb.mayFail(r) {
      RecoverKeeps(tb, under, m.(nerrs := m.nerrs + 1), inp.lval);
    } else {
      PopPushKeeps(tb, under, m, r, inp);
    }
  }

  lemma RecoverKeeps<V>(tb: Tables, under: Under, m: Machine<V>, lval: V)
    requires Certified(tb, under) && Inv(tb, under, m)
    ensures InvOutcome(tb, under, Recover(tb, m, lval))
  {
    if m.errflag < 3 {
      UnwindKeeps(tb, under, m.(errflag := 3), lval);
    }
  }

  /** What a reduction needs of the stack: its right-hand side, and only the bottom for the final state. */
  predicate Fits<V>(tb: Tables, m: Machine<V>, r: int) {
    && |m.stack| == |m.vals| && 0 <= tb.len(r) < |m.stack|
    && (m.stack[|m.stack| - 1 - tb.len(r)] == 0 ==> tb.len(r) == |m.stack| - 1)
  }

  lemma RuleFitsStack<V>(tb: Tables, under: Under, m: Machine<V>, r: int)
    requires Certified(tb, under) && Inv(tb, under, m) && RuleFits(tb, under, Top(m.stack), r)
    ensures Fits(tb, m, r)
  {
    ReductionFits(tb, under, m.stack, tb.len(r), r);
    SoundPop(tb, under, m.stack, tb.len(r));
    OnlyBottomIsZero(tb, under, m.stack[..|m.stack| - tb.len(r)]);
  }

  /** A shift: the token is used up once there was room for its state. */
  function ShiftTo<V>(m: Machine<V>, to: int, lval: V): Outcome<V> {
    match Push(m, to, lval)
    case Running(n) => Running(n.(token := -1, errflag := if m.errflag > 0 then m.errflag - 1 else 0))
    case o => o
  }

  /** The part of a step that has looked at the token. */
  function OnToken<V>(tb: Tables, m: Machine<V>, inp: Input<V>): Outcome<V>
    requires |m.stack| == |m.vals| >= 1
    requires var r := tb.Reduction(Top(m.stack), m.token);
             r.Some? ==> Fits(tb, m, r.value)
  {
    var s := Top(m.stack);
    match tb.Shift(s, m.token)
    case Some(to) => ShiftTo(m, to, inp.lval)
    case None =>
      match tb.Reduction(s, m.token)
      case Some(r) => Reduce(tb, m, r, inp)
      case None => Recover(tb, if m.errflag == 0 then m.(nerrs := m.nerrs + 1) else m, inp.lval)
  }

  lemma OnTokenKeeps<V>(tb: Tables, under: Under, m: Machine<V>, inp: Input<V>)
    requires Certified(tb, under) && Inv(tb, under, m) && m.token >= 0
    ensures var r := tb.Reduction(Top(m.stack), m.token);
            r.Some? ==> Fits(tb, m, r.value)
    ensures InvOutcome(tb, under, OnToken(tb, m, inp))
  {
    var s := Top(m.stack);
    var r := tb.Reduction(s, m.token);
    if r.Some? {
      RuleFitsStack(tb, under, m, r.value);
    }
    match tb.Shift(s, m.token)
    case Some(to) => PushKeeps(tb, under, m, to, inp.lval);
    case None =>
      if r.Some? {
        ReduceKeeps(tb, under, m, r.value, inp);
      } else {
        RecoverKeeps(tb, under, if m.errflag == 0 then m.(nerrs := m.nerrs + 1) else m, inp.lval);
      }
  }

  /** From yyloop to the next yyloop, or to the end. */
  function Step<V>(tb: Tables, ghost under: Under, m: Machine<V>, inp: Input<V>): (o: Outcome<V>)
    requires Certified(tb, under) && Inv(tb, under, m)
    ensures InvOutcome(tb, under, o)
  {
    var r := tb.defred(Top(m.stack));
    if r != 0 then
      ReduceKeeps(tb, under, m, r, inp);
      Reduce(tb, m, r, inp)
    else
      var m := m.(token := Lookahead(m.token, inp.next));
      OnTokenKeeps(tb, under, m, inp);
      OnToken(tb, m, inp)
  }

  /** Whether a step from `m` to `o` read a token. */
  predicate Reads<V>(tb: Tables, m: Machine<V>, o: Outcome<V>)
    requires m.stack != []
  {
    m.token < 0 && (tb.defred(Top(m.stack)) == 0 || o.m.token >= 0)
  }

  /** A default reduction comes back to the bottom and reads the token behind the whole. */
  predicate ReturnsHome<V>(tb: Tables, m: Machine<V>, fails: bool)
    requires m.stack != [] && Fits(tb, m, tb.defred(Top(m.stack)))
  {
    var r := tb.defred(Top(m.stack));
    !(fails && tb.mayFail(r)) && m.stack[|m.stack| - 1 - tb.len(r)] == 0 && tb.lhs(r) == 0
  }

  /** What the world gives to a step: yylval changes when the next token is read. */
  function Given<V>(tb: Tables, m: Machine<V>, lval: V, toks: seq<(int, V)>, act: (bool, V)): Input<V>
    requires m.stack != []
  {
    var next := if toks == [] then 0 else toks[0].0;
    Input(next, if m.token < 0 && tb.defred(Top(m.stack)) == 0 then ValueOf(lval, toks) else lval, act.0, act.1)
  }

  /** yylval behind the next token; the end of the input leaves it. */
  function ValueOf<V>(lval: V, toks: seq<(int, V)>): V {
    if toks == [] then lval else toks[0].1
  }

  /** The number of the next step. */
  function Following(n: nat): nat {
    n + 1
  }

  function Start<V>(v: V): Machine<V> {
    Machine([0], [v], -1, 0, 0)
  }

  /** Any number of steps; a parse that has ended stays ended. */
  function Run<V>(tb: Tables, ghost under: Under, o: Outcome<V>, inps: seq<Input<V>>): (r: Outcome<V>)
    requires Certified(tb, under) && InvOutcome(tb, under, o)
    ensures InvOutcome(tb, under, r)
    decreases |inps|
  {
    if inps == [] || !o.Running? then o
    else Run(tb, under, Step(tb, under, o.m, inps[0]), inps[1..])
  }

  // ----- Values

  /** All values on the stack have a property. */
  ghost predicate All<V(!new)>(p: V -> bool, vals: seq<V>) {
    forall i :: 0 <= i < |vals| ==> p(vals[i])
  }

  lemma {:induction false} UnwindValues<V(!new)>(tb: Tables, m: Machine<V>, lval: V, p: V -> bool)
    requires |m.stack| == |m.vals| >= 1 && All(p, m.vals) && p(lval)
    ensures All(p, Unwind(tb, m, lval).m.vals)
    decreases |m.stack|
  {
    if tb.Shift(Top(m.stack), YYERRCODE).None? && |m.stack| > 1 {
      UnwindValues(tb, Pop(m, 1), lval, p);
    }
  }

  lemma ReduceValues<V(!new)>(tb: Tables, m: Machine<V>, r: int, inp: Input<V>, p: V -> bool)
    requires Fits(tb, m, r) && All(p, m.vals) && p(inp.lval) && p(inp.val)
    ensures All(p, Reduce(tb, m, r, inp).m.vals)
  {
    if inp.fails && tb.mayFail(r) {
      if m.errflag < 3 {
        UnwindValues(tb, m.(nerrs := m.nerrs + 1, errflag := 3), inp.lval, p);
      }
    }
  }

  /** Values come from the tokens and the actions alone. */
  lemma StepValues<V(!new)>(tb: Tables, under: Under, m: Machine<V>, inp: Input<V>, p: V -> bool)
    requires Certified(tb, under) && Inv(tb, under, m) && All(p, m.vals) && p(inp.lval) && p(inp.val)
    ensures All(p, Step(tb, under, m, inp).m.vals)
  {
    var s := Top(m.stack);
    var r := tb.defred(s);
    if r != 0 {
      RuleFitsStack(tb, under, m, r);
      ReduceValues(tb, m, r, inp, p);
    } else {
      var m' := m.(token := Lookahead(m.token, inp.next));
      OnTokenKeeps(tb, under, m', inp);
      if tb.Shift(s, m'.token).None? {
        match tb.Reduction(s, m'.token)
        case Some(r') => ReduceValues(tb, m', r', inp, p);
        case None =>
          if m'.errflag < 3 {
            var nerrs := if m'.errflag == 0 then m'.nerrs + 1 else m'.nerrs;
            UnwindValues(tb, m'.(nerrs := nerrs, errflag := 3), inp.lval, p);
          }
      }
    }
  }
}
