/**
  yyparse and yygrowstack (ifconfigctl/parse.c): two arrays that grow together, driven by
  the tables.  One call of `Step` is one pass from yyloop to yyloop.
 */
module LrDriver {
  import opened Numbers
  import opened LrMachine

  const YYINITSTACKSIZE: nat := 200

  datatype Status = Continue | Accept | Abort | Full

  function Ended<V>(r: Status, m: Machine<V>): Outcome<V> {
    match r
    case Continue => Running(m)
    case Accept => Accepted(m)
    case Abort => Aborted(m)
    case Full => Overflow(m)
  }

  lemma SliceOfSlice<T>(a: array<T>, m: nat, n: nat)
    requires n <= m <= a.Length
    ensures a[..m][..n] == a[..n]
  {
  }

  lemma UnwindPops<V>(tb: Tables, m: Machine<V>, lval: V)
    requires |m.stack| == |m.vals| > 1 && tb.Shift(Top(m.stack), YYERRCODE).None?
    ensures Unwind(tb, m, lval) == Unwind(tb, Pop(m, 1), lval)
  {
  }

  class Parser<V(0)> {
    const tb: Tables
    ghost const under: Under
    var yyss: array<int>
    var yyvs: array<V>
    var yyssp: nat
    var yyvsp: nat
    var yystate: int
    var yychar: int
    var yyerrflag: nat
    var yynerrs: nat
    ghost var stack: seq<int>            // what the arrays hold up to the stack pointers
    ghost var vals: seq<V>

    /** The parser as the machine sees it. */
    ghost function Abs(): Machine<V>
      reads this
    {
      Machine(stack, vals, yychar, yyerrflag, yynerrs)
    }

    ghost predicate Shape()
      reads this, yyss, yyvs
    {
      && yyssp == yyvsp < yyss.Length == yyvs.Length && yyss as object != yyvs
      && YYINITSTACKSIZE <= yyss.Length <= YYMAXDEPTH
      && stack == yyss[..yyssp + 1] && vals == yyvs[..yyvsp + 1]
    }

    ghost predicate Valid()
      reads this, yyss, yyvs
    {
      && Shape() && Certified(tb, under) && Inv(tb, under, Abs()) && yystate == Top(stack)
    }

    /** `v` is what the memory of the bottom value happens to hold. */
    constructor (tb: Tables, ghost under: Under, v: V)
      requires Certified(tb, under)
      ensures Valid() && this.tb == tb && this.under == under && fresh(yyss) && fresh(yyvs)
      ensures Abs() == Start(v)
    {
      this.tb, this.under := tb, under;
      yyss, yyvs := new int[YYINITSTACKSIZE], new V[YYINITSTACKSIZE];
      yyssp, yyvsp, yystate, yychar, yyerrflag, yynerrs := 0, 0, 0, -1, 0, 0;
      new;
      yyss[0], yyvs[0] := 0, v;
      stack, vals := [0], [v];
    }

    /** yygrowstack: double both arrays, up to the limit; false when they are at it. */
    method GrowStack() returns (ok: bool)
      requires Shape()
      modifies this`yyss, this`yyvs
      ensures Shape()
      ensures ok == (old(yyss.Length) < YYMAXDEPTH)
      ensures if ok then yyss.Length > old(yyss.Length) && fresh(yyss) && fresh(yyvs)
              else yyss == old(yyss) && yyvs == old(yyvs)
    {
      var newsize := yyss.Length;
      if newsize >= YYMAXDEPTH {
        return false;
      }
      newsize := newsize * 2;
      if newsize > YYMAXDEPTH {
        newsize := YYMAXDEPTH;
      }
      var newss, newvs := new int[newsize], new V[newsize];
      forall i | 0 <= i <= yyssp {
        newss[i] := yyss[i];
      }
      forall i | 0 <= i <= yyvsp {
        newvs[i] := yyvs[i];
      }
      assert newss[..yyssp + 1] == stack && newvs[..yyvsp + 1] == vals;
      yyss, yyvs := newss, newvs;
      return true;
    }

    /** `if (yychar < 0 && (yychar = yylex()) < 0) yychar = 0` */
    method ReadChar(next: int)
      requires Shape()
      modifies this`yychar
      ensures Shape() && yychar == Lookahead(old(yychar), next)
    {
      if yychar < 0 {
        yychar := next;
        if yychar < 0 {
          yychar := 0;
        }
      }
    }

    /** `*++yyssp = s; *++yyvsp = v` */
    method Put(s: int, v: V)
      requires Shape() && yyssp + 1 < yyss.Length
      modifies this`yyssp, this`yyvsp, this`yystate, this`stack, this`vals, yyss, yyvs
      ensures Shape() && yystate == s
      ensures stack == old(stack) + [s] && vals == old(vals) + [v]
    {
      yyssp := yyssp + 1;
      yyss[yyssp] := s;
      yyvsp := yyvsp + 1;
      yyvs[yyvsp] := v;
      yystate := s;
      stack, vals := stack + [s], vals + [v];
    }

    /** A push after the check that there is room. */
    method PushBoth(s: int, v: V) returns (r: Status)
      requires Shape()
      modifies this`yyss, this`yyvs, this`yyssp, this`yyvsp, this`yystate, this`stack, this`vals, yyss, yyvs
      ensures Shape()
      ensures yyss == old(yyss) || fresh(yyss)
      ensures yyvs == old(yyvs) || fresh(yyvs)
      ensures Ended(r, Abs()) == Push(old(Abs()), s, v) && (r == Continue ==> yystate == Top(stack))
    {
      if yyssp >= yyss.Length - 1 {
        var ok := GrowStack();
        if !ok {
          return Full;
        }
      }
      Put(s, v);
      return Continue;
    }

    /** `yyssp -= n; yystate = *yyssp; yyvsp -= n` */
    method PopBoth(n: nat)
      requires Shape() && n <= yyssp
      modifies this`yyssp, this`yyvsp, this`yystate, this`stack, this`vals
      ensures Shape() && yystate == Top(stack) && yyssp == old(yyssp) - n
      ensures Abs() == Pop(old(Abs()), n)
    {
      yyssp := yyssp - n;
      yystate := yyss[yyssp];
      yyvsp := yyvsp - n;
      SliceOfSlice(yyss, |stack|, |stack| - n);
      SliceOfSlice(yyvs, |vals|, |vals| - n);
      stack, vals := stack[..|stack| - n], vals[..|vals| - n];
    }

    /** The loop of yyinrecovery that discards states: the state to shift to, or none at the bottom. */
    method Discard(ghost lval: V) returns (to: Option<int>)
      requires Shape()
      modifies this`yyssp, this`yyvsp, this`yystate, this`stack, this`vals
      ensures Shape()
      ensures Unwind(tb, old(Abs()), lval)
           == match to { case Some(s) => Push(Abs(), s, lval) case None => Aborted(Abs()) }
    {
      while true
        invariant Shape() && Unwind(tb, Abs(), lval) == Unwind(tb, old(Abs()), lval)
        decreases yyssp
      {
        to := tb.Shift(yyss[yyssp], YYERRCODE);
        if to.Some? || yyssp == 0 {
          return;
        }
        UnwindPops(tb, Abs(), lval);
        PopBoth(1);
      }
    }

    method InRecovery(lval: V) returns (r: Status)
      requires Shape() && yystate == Top(stack)
      modifies this, yyss, yyvs
      ensures Shape()
      ensures yyss == old(yyss) || fresh(yyss)
      ensures yyvs == old(yyvs) || fresh(yyvs)
      ensures Ended(r, Abs()) == Recover(tb, old(Abs()), lval)
      ensures r == Continue ==> yystate == Top(stack)
    {
      if yyerrflag < 3 {
        yyerrflag := 3;
        var to := Discard(lval);
        if to.None? {
          return Abort;
        }
        r := PushBoth(to.value, lval);
      } else {
        if yychar == 0 {
          return Abort;
        }
        yychar := -1;
        return Continue;
      }
    }

    /** The end of yyreduce. */
    method LandOn(yyn: int, inp: Input<V>) returns (r: Status)
      requires Shape() && yystate == Top(stack) && (yystate == 0 ==> yyssp == 0)
      modifies this, yyss, yyvs
      ensures Shape()
      ensures yyss == old(yyss) || fresh(yyss)
      ensures yyvs == old(yyvs) || fresh(yyvs)
      ensures Ended(r, Abs()) == Land(tb, old(Abs()), yyn, inp)
      ensures r == Continue ==> yystate == Top(stack)
    {
      var yym := tb.lhs(yyn);
      if yystate == 0 && yym == 0 {
        Put(YYFINAL, inp.val);                 // without a check for room: this is the bottom
        ReadChar(inp.next);
        return if yychar == 0 then Accept else Continue;
      }
      r := PushBoth(tb.Next(yystate, yyn), inp.val);
    }

    /** yyreduce */
    method ReduceBy(yyn: int, inp: Input<V>) returns (r: Status)
      requires Shape() && yystate == Top(stack) && Fits(tb, Abs(), yyn)
      modifies this, yyss, yyvs
      ensures Shape()
      ensures yyss == old(yyss) || fresh(yyss)
      ensures yyvs == old(yyvs) || fresh(yyvs)
      ensures Ended(r, Abs()) == Reduce(tb, old(Abs()), yyn, inp)
      ensures r == Continue ==> yystate == Top(stack)
    {
      if inp.fails && tb.mayFail(yyn) {
        yynerrs := yynerrs + 1;
        r := InRecovery(inp.lval);
      } else {
        PopBoth(tb.len(yyn));
        r := LandOn(yyn, inp);
      }
    }

    /** A shift: the token is used up once there was room. */
    method ShiftBoth(to: int, v: V) returns (r: Status)
      requires Shape()
      modifies this, yyss, yyvs
      ensures Shape()
      ensures yyss == old(yyss) || fresh(yyss)
      ensures yyvs == old(yyvs) || fresh(yyvs)
      ensures Ended(r, Abs()) == ShiftTo(old(Abs()), to, v) && (r == Continue ==> yystate == Top(stack))
    {
      r := PushBoth(to, v);
      if r == Continue {
        yychar := -1;
        if yyerrflag > 0 {
          yyerrflag := yyerrflag - 1;
        }
      }
    }

    /** From the lookups on, with a token at hand. */
    method OnChar(inp: Input<V>) returns (r: Status)
      requires Shape() && yystate == Top(stack)
      requires tb.Reduction(yystate, yychar).Some? ==> Fits(tb, Abs(), tb.Reduction(yystate, yychar).value)
      modifies this, yyss, yyvs
      ensures Shape()
      ensures yyss == old(yyss) || fresh(yyss)
      ensures yyvs == old(yyvs) || fresh(yyvs)
      ensures Ended(r, Abs()) == OnToken(tb, old(Abs()), inp)
      ensures r == Continue ==> yystate == Top(stack)
    {
      var to := tb.Shift(yystate, yychar);
      if to.Some? {
        r := ShiftBoth(to.value, inp.lval);
        return;
      }
      var rule := tb.Reduction(yystate, yychar);
      if rule.Some? {
        r := ReduceBy(rule.value, inp);
        return;
      }
      if yyerrflag == 0 {
        yynerrs := yynerrs + 1;
      }
      r := InRecovery(inp.lval);
    }

    /** One pass of yyparse from yyloop. */
    method Step(inp: Input<V>) returns (r: Status)
      requires Valid()
      modifies this, yyss, yyvs
      ensures yyss == old(yyss) || fresh(yyss)
      ensures yyvs == old(yyvs) || fresh(yyvs)
      ensures Shape() && Ended(r, Abs()) == LrMachine.Step(tb, under, old(Abs()), inp)
      ensures r == Continue ==> Valid()
      ensures r == Full ==> yyssp == YYMAXDEPTH - 1
    {
      ghost var m := Abs();
      var yyn := tb.defred(yystate);
      if yyn != 0 {
        RuleFitsStack(tb, under, m, yyn);
        r := ReduceBy(yyn, inp);
      } else {
        ReadChar(inp.next);
        OnTokenKeeps(tb, under, Abs(), inp);
        r := OnChar(inp);
      }
      ghost var o := LrMachine.Step(tb, under, m, inp);
      assert InvOutcome(tb, under, o) && o.m == Abs();
    }
  }
}
