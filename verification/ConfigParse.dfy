/**
  The configuration parser on whole inputs (ifconfigctl/parse.c): with its own tables,
  yyparse ends on every token stream, error recovery always finds a state to go on from,
  and only the end of the input or a full stack ends a parse.
 */
module ConfigParse {
  import opened Numbers
  import opened LrMachine
  import opened ConfigTables

  // ----- Facts read off the tables

  /** A bound on the reductions that a state can start without a further token. */
  function Rank(s: int): nat {
    if s == 43 then 6
    else if s in {9, 10, 50, 51, 56, 57} then 4
    else if s in {14, 58, 59, 60, 64, 65, 66} then 3
    else if s in {0, 30, 31, 32, 33, 46, 61, 62, 67, 96} then 2
    else if s in {34, 36, 47, 53, 86, 97, 98} then 1
    else 0
  }

  lemma RankDrops(s: int, t: int)
    requires 0 <= s < 107 && 0 <= t < 107 && YyDefred(s) != 0
    ensures Rank(Goto(t, YyLhs(YyDefred(s)))) + 1 < Rank(s) + YyLen(YyDefred(s))
  {
  }

  lemma RankDropsOnToken(s: int, r: int, t: int)
    requires (s, r) in {(14, 47), (34, 44), (43, 18), (46, 55), (50, 10), (61, 14), (67, 61), (96, 41)}
    requires 0 <= t < 107
    ensures Rank(Goto(t, YyLhs(r))) + 1 < Rank(s) + YyLen(r)
  {
  }

  /** Only the state after the whole grammar shifts the error token. */
  lemma ErrorShift(s: int)
    requires 0 <= s < 107
    ensures TABLES.Shift(s, YYERRCODE) == if s == 1 then Some(2) else None
  {
  }

  /** The end of the input is never shifted. */
  lemma NoShiftOfEnd(s: int)
    requires 0 <= s < 107
    ensures TABLES.Shift(s, 0) == None
  {
  }

  lemma ShiftsToken(s: int, c: int)
    requires 0 <= s < 107 && c >= 0
    ensures TABLES.Shift(s, c).Some? ==> c > 0
  {
    if c == 0 {
      NoShiftOfEnd(s);
    }
  }

  /** Only state 1 lies on the bottom. */
  lemma OnTheBottom(s: int)
    requires 0 <= s < 107 && 0 in Below(s)
    ensures s == 1
  {
  }

  /** The states that can lie under a state are at most this many. */
  function Height(s: int): nat {
    if s < 1 then 0
    else if s < 11 then Row(s - 1, 1, 2, 2, 2, 2, 2, 2, 2, 8, 8)
    else if s < 21 then Row(s - 11, 2, 2, 2, 8, 2, 2, 2, 2, 2, 2)
    else if s < 31 then Row(s - 21, 3, 3, 3, 3, 3, 3, 3, 3, 3, 11)
    else if s < 41 then Row(s - 31, 11, 11, 9, 9, 9, 9, 3, 3, 3, 3)
    else if s < 51 then Row(s - 41, 3, 3, 4, 4, 4, 10, 10, 10, 5, 5)
    else if s < 61 then Row(s - 51, 5, 11, 11, 11, 11, 6, 6, 6, 6, 6)
    else if s < 71 then Row(s - 61, 6, 6, 12, 12, 12, 12, 12, 7, 7, 7)
    else if s < 81 then Row(s - 71, 13, 13, 8, 8, 8, 8, 8, 8, 8, 8)
    else if s < 91 then Row(s - 81, 8, 8, 8, 8, 8, 8, 8, 14, 14, 14)
    else if s < 101 then Row(s - 91, 9, 9, 9, 9, 9, 9, 9, 9, 9, 9)
    else if s < 107 then Row(s - 101, 9, 9, 9, 10, 10, 11, 0, 0, 0, 0)
    else 0
  }

  const DEPTH: nat := 15

  lemma HeightDrops(s: int, t: int)
    requires 0 <= s < 107 && t in Below(s)
    ensures Height(t) < Height(s) < DEPTH
  {
  }

  /** So no stack of the parser is ever deep. */
  lemma {:induction false} StackLow(stack: seq<int>)
    requires Sound(TABLES, Below, stack)
    ensures |stack| <= Height(Top(stack)) + 1 <= DEPTH
    decreases |stack|
  {
    if |stack| > 1 {
      SoundPop(TABLES, Below, stack, 1);
      StackLow(stack[..|stack| - 1]);
      assert stack[|stack| - 2] in Below(stack[|stack| - 1]);
      HeightDrops(Top(stack), stack[|stack| - 2]);
    }
  }

  /** The stack of this parser is never full. */
  lemma NeverFull<V>(o: Outcome<V>)
    requires InvOutcome(TABLES, Below, o)
    ensures !o.Overflow? && |o.m.stack| <= DEPTH
  {
    StackLow(o.m.stack);
  }

  // ----- Whole parses

  /** The invariant of a parse: full recovery is on only right after the error token was shifted. */
  ghost predicate Good<V>(m: Machine<V>) {
    Inv(TABLES, Below, m) && (m.errflag == 3 ==> Top(m.stack) == 2)
  }

  /** The error token is on top. */
  predicate InError<V>(m: Machine<V>) {
    m.stack != [] && Top(m.stack) == 2
  }

  /** What a run of reductions and recovery counts down between two tokens. */
  function Weight<V>(m: Machine<V>): nat
    requires m.stack != []
  {
    |m.stack| + Rank(Top(m.stack))
  }

  lemma SecondIsOne(stack: seq<int>)
    requires Sound(TABLES, Below, stack) && |stack| > 1
    ensures stack[1] == 1
  {
    assert stack[0] in Below(stack[1]);
    OnTheBottom(stack[1]);
  }

  /** Above the bottom, the search for a state that shifts the error token succeeds. */
  lemma {:induction false} UnwindFinds<V>(m: Machine<V>, lval: V)
    requires Inv(TABLES, Below, m) && |m.stack| > 1
    ensures var o := Unwind(TABLES, m, lval);
            && (o.Running? || o.Overflow?) && o.m.token == m.token && o.m.errflag == m.errflag
            && (o.Running? ==> InError(o.m))
    decreases |m.stack|
  {
    ErrorShift(Top(m.stack));
    if Top(m.stack) != 1 {
      SecondIsOne(m.stack);
      assert |m.stack| > 2;
      SoundPop(TABLES, Below, m.stack, 1);
      UnwindFinds(Pop(m, 1), lval);
    }
  }

  lemma RecoverGoesOn<V>(m: Machine<V>, lval: V)
    requires Inv(TABLES, Below, m) && |m.stack| > 1
    ensures var o := Recover(TABLES, m, lval);
            && (o.Aborted? ==> m.errflag == 3 && m.token == 0)
            && !o.Accepted?
            && (o.Running? && m.errflag < 3 ==> o.m.errflag == 3 && InError(o.m) && o.m.token == m.token)
            && (o.Running? && m.errflag == 3 ==> o.m == m.(token := -1) && m.token != 0)
  {
    if m.errflag < 3 {
      UnwindFinds(m.(errflag := 3), lval);
    }
  }

  /** A reduction by rule r in state s that does not fail. */
  ghost predicate Drops(s: int, r: int) {
    forall t :: 0 <= t < 107 ==> Rank(Goto(t, YyLhs(r))) + 1 < Rank(s) + YyLen(r)
  }

  lemma LandDrops<V>(m: Machine<V>, r: int, inp: Input<V>)
    requires Inv(TABLES, Below, m) && Fits(TABLES, m, r) && Drops(Top(m.stack), r)
    ensures var o := Land(TABLES, Pop(m, TABLES.len(r)), r, inp);
            && !o.Aborted? && (o.Accepted? ==> o.m.token == 0)
            && (o.Running? ==> Weight(o.m) < Weight(m) && o.m.errflag == m.errflag)
  {
    var t := Top(Pop(m, TABLES.len(r)).stack);
    assert TABLES.IsState(t);
    NextIsGoto(t, r);
  }

  function Pending(token: int): nat {
    if token > 0 then 1 else 0
  }

  function Calm(errflag: nat): nat {
    if errflag < 3 then 1 else 0
  }

  /** A step that goes on uses up a token, or starts a recovery, or leaves less to reduce. */
  ghost predicate Progress<V>(m: Machine<V>, c: int, n: Machine<V>)
    requires m.stack != []
  {
    && n.stack != []
    && Pending(n.token) <= Pending(c)
    && (Pending(n.token) == Pending(c) ==> Calm(n.errflag) <= Calm(m.errflag))
    && (Pending(n.token) == Pending(c) && Calm(n.errflag) == Calm(m.errflag) ==> Weight(n) < Weight(m))
  }

  /** How a step may end. */
  ghost predicate Goes<V>(m: Machine<V>, c: int, o: Outcome<V>)
    requires m.stack != []
  {
    && (o.Accepted? || o.Aborted? ==> o.m.token == 0)
    && (o.Running? ==> Progress(m, c, o.m) && (o.m.errflag == 3 ==> InError(o.m)))
  }

  lemma StateFacts()
    ensures YyDefred(2) == 0 && YyRindex(2) == 0 && YyDefred(0) == 1 && !MayFail(1)
  {
  }

  /** A reduction that goes on starts a recovery, or keeps the token or reads one and leaves less to reduce. */
  ghost predicate Reduced<V>(m: Machine<V>, next: int, o: Outcome<V>)
    requires m.stack != []
  {
    && (o.Accepted? || o.Aborted? ==> o.m.token == 0)
    && (o.Running? && o.m.errflag >= 3 ==> InError(o.m) && o.m.token == m.token)
    && (o.Running? && o.m.errflag < 3 ==>
          && o.m.stack != [] && Weight(o.m) < Weight(m)
          && (o.m.token == m.token || (m.token < 0 && o.m.token == Lookahead(m.token, next))))
  }

  lemma ReduceGoes<V>(m: Machine<V>, r: int, inp: Input<V>)
    requires Inv(TABLES, Below, m) && Fits(TABLES, m, r) && Drops(Top(m.stack), r) && m.errflag < 3
    requires |m.stack| > 1 || !MayFail(r)
    ensures Reduced(m, inp.next, Reduce(TABLES, m, r, inp))
  {
    if inp.fails && MayFail(r) {
      RecoverGoesOn(m.(nerrs := m.nerrs + 1), inp.lval);
    } else {
      LandDrops(m, r, inp);
    }
  }

  lemma ReducedGoes<V>(m: Machine<V>, c: int, next: int, o: Outcome<V>)
    requires m.stack != [] && m.errflag < 3 && Reduced(m, next, o)
    requires o.Running? ==> c == o.m.token
    ensures Goes(m, c, o)
  {
  }

  lemma DefaultGoes<V>(m: Machine<V>, inp: Input<V>)
    requires Certified(TABLES, Below) && Good(m) && YyDefred(Top(m.stack)) != 0
    ensures var o := Step(TABLES, Below, m, inp);
            Goes(m, if Reads(TABLES, m, o) then Lookahead(m.token, inp.next) else m.token, o)
  {
    var s := Top(m.stack);
    var r := YyDefred(s);
    RuleFitsStack(TABLES, Below, m, r);
    StateFacts();
    assert m.errflag < 3 && (|m.stack| > 1 || !MayFail(r));
    forall t | 0 <= t < 107 ensures Rank(Goto(t, YyLhs(r))) + 1 < Rank(s) + YyLen(r) {
      RankDrops(s, t);
    }
    ReduceGoes(m, r, inp);
    var o := Step(TABLES, Below, m, inp);
    ReducedGoes(m, if Reads(TABLES, m, o) then Lookahead(m.token, inp.next) else m.token, inp.next, o);
  }

  lemma TokenReduceGoes<V>(m: Machine<V>, r: int, inp: Input<V>)
    requires Certified(TABLES, Below) && Good(m) && m.token >= 0
    requires TABLES.Reduction(Top(m.stack), m.token) == Some(r)
    ensures Fits(TABLES, m, r) && Goes(m, m.token, Reduce(TABLES, m, r, inp))
  {
    var s := Top(m.stack);
    RuleFitsStack(TABLES, Below, m, r);
    ReducesOnToken(s, YyRindex(s) + m.token);
    assert m.errflag < 3 && |m.stack| > 1;
    forall t | 0 <= t < 107 ensures Rank(Goto(t, YyLhs(r))) + 1 < Rank(s) + YyLen(r) {
      RankDropsOnToken(s, r, t);
    }
    ReduceGoes(m, r, inp);
    ReducedGoes(m, m.token, inp.next, Reduce(TABLES, m, r, inp));
  }

  lemma ShiftGoes<V>(m: Machine<V>, to: int, lval: V)
    requires m.stack != [] && m.token > 0 && m.errflag <= 3
    ensures Goes(m, m.token, ShiftTo(m, to, lval))
  {
  }

  lemma RecoverGoes<V>(m: Machine<V>, nerrs: nat, lval: V)
    requires Good(m) && m.token >= 0 && |m.stack| > 1
    ensures Goes(m, m.token, Recover(TABLES, m.(nerrs := nerrs), lval))
  {
    RecoverGoesOn(m.(nerrs := nerrs), lval);
  }

  /** The three ways of a step that has a token, put together for any tables. */
  lemma OnTokenGoes<V>(tb: Tables, m: Machine<V>, inp: Input<V>)
    requires |m.stack| == |m.vals| >= 1 && m.errflag <= 3
    requires tb.Shift(Top(m.stack), m.token).Some? ==> m.token > 0
    requires var r := tb.Reduction(Top(m.stack), m.token);
             && (r.Some? ==> Fits(tb, m, r.value) && Goes(m, m.token, Reduce(tb, m, r.value, inp)))
             && (r.None? ==> Goes(m, m.token, Recover(tb, m.(nerrs := m.nerrs + 1), inp.lval))
                             && Goes(m, m.token, Recover(tb, m, inp.lval)))
    ensures Goes(m, m.token, OnToken(tb, m, inp))
  {
    var to := tb.Shift(Top(m.stack), m.token);
    if to.Some? {
      ShiftGoes(m, to.value, inp.lval);
    }
  }

  lemma TokenGoes<V>(m: Machine<V>, inp: Input<V>)
    requires Certified(TABLES, Below) && Good(m) && YyDefred(Top(m.stack)) == 0 && m.token >= 0
    ensures var r := TABLES.Reduction(Top(m.stack), m.token);
            r.Some? ==> Fits(TABLES, m, r.value)
    ensures Goes(m, m.token, OnToken(TABLES, m, inp))
  {
    var r := TABLES.Reduction(Top(m.stack), m.token);
    ShiftsToken(Top(m.stack), m.token);
    if r.Some? {
      TokenReduceGoes(m, r.value, inp);
    } else {
      NoReductionGoes(m, inp.lval);
    }
    OnTokenGoes(TABLES, m, inp);
  }

  lemma NoReductionGoes<V>(m: Machine<V>, lval: V)
    requires Good(m) && YyDefred(Top(m.stack)) == 0 && m.token >= 0
    ensures Goes(m, m.token, Recover(TABLES, m.(nerrs := m.nerrs + 1), lval))
    ensures Goes(m, m.token, Recover(TABLES, m, lval))
  {
    StateFacts();
    RecoverGoes(m, m.nerrs, lval);
    RecoverGoes(m, m.nerrs + 1, lval);
    assert m.(nerrs := m.nerrs) == m;
  }

  /** Every step of a good parse makes progress or ends it at the end of the input. */
  lemma StepGoes<V>(m: Machine<V>, inp: Input<V>)
    requires Certified(TABLES, Below) && Good(m)
    ensures var o := Step(TABLES, Below, m, inp);
            Goes(m, if Reads(TABLES, m, o) then Lookahead(m.token, inp.next) else m.token, o)
            && (o.Running? ==> Good(o.m))
  {
    if YyDefred(Top(m.stack)) != 0 {
      DefaultGoes(m, inp);
    } else {
      TokenGoes(m.(token := Lookahead(m.token, inp.next)), inp);
    }
  }

  /**
    yyparse on a finite input: whatever the tokens and whatever the actions do, step by step,
    it ends, and it ends at the end of the input; its stack stays low.  The step is the n-th one.
   */
  function Parse<V>(m: Machine<V>, lval: V, toks: seq<(int, V)>, act: nat -> (bool, V), n: nat): (o: Outcome<V>)
    requires Good(m) && forall i :: 0 <= i < |toks| ==> toks[i].0 > 0
    ensures (o.Accepted? || o.Aborted?) && o.m.token == 0 && |o.m.stack| == |o.m.vals| <= DEPTH
    decreases |toks| + Pending(m.token), Calm(m.errflag), Weight(m)
  {
    TablesCertified();
    var inp := Given(TABLES, m, lval, toks, act(n));
    var o := Step(TABLES, Below, m, inp);
    StepGoes(m, inp);
    NeverFull(o);
    if !o.Running? then o
    else if Reads(TABLES, m, o) then
      Parse(o.m, ValueOf(lval, toks), if toks == [] then toks else toks[1..], act, Following(n))
    else Parse(o.m, lval, toks, act, Following(n))
  }

  // ----- Includes

  const INCLUDE_RULE: int := 65
  const INCLUDE_NAMED: int := 27         // the state after the word include and a file name

  /** An include is reduced in one state, whatever comes next. */
  lemma IncludeState(s: int)
    requires 0 <= s < 107
    ensures YyDefred(s) == INCLUDE_RULE <==> s == INCLUDE_NAMED
  {
  }

  lemma NotByToken(s: int, c: int)
    requires 0 <= s < 107 && c >= 0
    ensures TABLES.Reduction(s, c) != Some(INCLUDE_RULE)
  {
  }

  lemma NotByGoto(t: int, r: int)
    requires 0 <= t < 107
    ensures TABLES.Next(t, r) != INCLUDE_NAMED
  {
    NextIsGoto(t, r);
  }

  /** The state is on top only right after its last token was shifted. */
  ghost predicate FreshName<V>(o: Outcome<V>) {
    o.Running? && o.m.stack != [] && Top(o.m.stack) == INCLUDE_NAMED ==> o.m.token == -1
  }

  lemma {:induction false} UnwindFresh<V>(m: Machine<V>, lval: V)
    requires Inv(TABLES, Below, m)
    ensures FreshName(Unwind(TABLES, m, lval))
    decreases |m.stack|
  {
    ErrorShift(Top(m.stack));
    if Top(m.stack) != 1 && |m.stack| > 1 {
      SoundPop(TABLES, Below, m.stack, 1);
      UnwindFresh(Pop(m, 1), lval);
    }
  }

  lemma ReduceFresh<V>(m: Machine<V>, r: int, inp: Input<V>)
    requires Inv(TABLES, Below, m) && Fits(TABLES, m, r)
    ensures FreshName(Reduce(TABLES, m, r, inp))
  {
    if inp.fails && MayFail(r) {
      UnwindFresh(m.(nerrs := m.nerrs + 1, errflag := 3), inp.lval);
    } else {
      var t := Top(Pop(m, TABLES.len(r)).stack);
      assert TABLES.IsState(t);
      NotByGoto(t, r);
    }
  }

  /**
    In every step of a parse, an included file is opened before any token behind the
    include has been read: the end of the including file is not yet passed.
   */
  lemma IncludeBeforeLookahead<V>(m: Machine<V>, inp: Input<V>)
    requires Certified(TABLES, Below) && Inv(TABLES, Below, m)
    ensures FreshName(Step(TABLES, Below, m, inp))
  {
    var r := YyDefred(Top(m.stack));
    if r != 0 {
      RuleFitsStack(TABLES, Below, m, r);
      ReduceFresh(m, r, inp);
    } else {
      var m' := m.(token := Lookahead(m.token, inp.next));
      OnTokenKeeps(TABLES, Below, m', inp);
      if TABLES.Shift(Top(m.stack), m'.token).None? {
        if TABLES.Reduction(Top(m.stack), m'.token).Some? {
          ReduceFresh(m', TABLES.Reduction(Top(m.stack), m'.token).value, inp);
        } else {
          UnwindFresh(m'.(nerrs := if m'.errflag == 0 then m'.nerrs + 1 else m'.nerrs, errflag := 3), inp.lval);
        }
      }
    }
  }

  lemma {:induction false} RunFresh<V>(o: Outcome<V>, inps: seq<Input<V>>)
    requires Certified(TABLES, Below) && InvOutcome(TABLES, Below, o) && FreshName(o)
    ensures FreshName(Run(TABLES, Below, o, inps))
    decreases |inps|
  {
    if inps != [] && o.Running? {
      IncludeBeforeLookahead(o.m, inps[0]);
      RunFresh(Step(TABLES, Below, o.m, inps[0]), inps[1..]);
    }
  }

  /** A step from this machine reduces by the rule. */
  predicate ReducesBy<V>(m: Machine<V>, next: int, r: int)
    requires m.stack != [] && r != 0
  {
    var s, c := Top(m.stack), Lookahead(m.token, next);
    YyDefred(s) == r || (YyDefred(s) == 0 && TABLES.Shift(s, c).None? && TABLES.Reduction(s, c) == Some(r))
  }

  /**
    In a parse of any tokens with any actions, a file is included only with no token read
    ahead: everything that follows the include is read from the new file first.
   */
  lemma IncludesAtOnce<V>(v: V, inps: seq<Input<V>>, next: int)
    ensures Certified(TABLES, Below) && Inv(TABLES, Below, Start(v))
    ensures var o := Run(TABLES, Below, Running(Start(v)), inps);
            o.Running? && ReducesBy(o.m, next, INCLUDE_RULE) ==> o.m.token == -1
  {
    TablesCertified();
    RunFresh(Running(Start(v)), inps);
    var o := Run(TABLES, Below, Running(Start(v)), inps);
    var s := Top(o.m.stack);
    assert TABLES.IsState(s);
    IncludeState(s);
    NotByToken(s, Lookahead(o.m.token, next));
  }
}
