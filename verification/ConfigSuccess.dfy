/**
  That parse_config accepts what it is given in the right syntax (ifconfigctl/parse.c): over
  whole parses, with includes and macros, the parser finds an error in the tokens that the
  scanner gives it exactly if they are no sentence of the grammar.
 */
module ConfigSuccess {
  import opened Numbers
  import opened LrMachine
  import opened LrGrammar
  import opened LrComplete
  import opened ConfigTables
  import opened ConfigParse
  import opened ConfigGrammar
  import opened ConfigComplete
  import opened ConfigRun
  import Files = ConfigFiles
  import Lexer = ConfigLexer

  // ----- The tokens of a parse with their values

  lemma {:induction false} ValueTokens(s: State, macros: Lexer.Macros)
    requires s.files != []
    ensures Lexer.Lex(s, macros).value.Some? ==> Lexer.Lex(s, macros).token > 0
    decreases Lexer.Left(s)
  {
    var (c, t) := Lexer.First(s);
    if c == Lexer.DOLLAR && t.parsebuf.None? {
      var r := Lexer.ScanName(t, []);
      if r.Name? && r.name in macros {
        ValueTokens(r.input.(parsebuf := Some(macros[r.name]), parseindex := 0), macros);
      }
    }
  }

  /** The end of the input leaves yylval. */
  lemma ScanLval(c: Config)
    requires c.input.files != []
    ensures Lookahead(-1, Scan(c).0) == 0 ==> Scan(c).1.lval == c.lval
  {
    ValueTokens(c.input, c.macros);
  }

  /** The token that a step takes, with its value. */
  function TakenAt(env: Env, c: Config, n: nat): seq<(int, Value)>
    requires Valid(c)
  {
    var (around, inp) := Around(env, c, n);
    var t := Taken(TABLES, c.out.m, inp, Step(TABLES, Below, c.out.m, inp));
    if t == [] then [] else [(t[0], around.lval)]
  }

  /** The steps from k on to the n-th. */
  function Readings(env: Env, content: seq<Byte>, k: nat, n: nat): seq<(int, Value)>
    decreases n - k
  {
    if k >= n || !After(env, content, k).out.Running? then []
    else TakenAt(env, After(env, content, k), k) + Readings(env, content, Following(k), n)
  }

  // ----- A step here is a step of the parser on the tokens alone

  /** A parse here, and the parser on the tokens that are still to come. */
  ghost predicate Matches(c: Config, f: Conf<Value>) {
    f.m == c.out.m && f.lval == c.lval
  }

  /** The action does not fail. */
  ghost predicate SmoothAt(env: Env, c: Config, n: nat)
    requires Valid(c)
  {
    c.out.Running? ==> !Around(env, c, n).1.fails
  }

  lemma SameReduce(m: Machine<Value>, r: int, a: Input<Value>, b: Input<Value>)
    requires Fits(TABLES, m, r) && !a.fails && !b.fails && a.val == b.val
    requires m.token < 0 && m.stack[|m.stack| - 1 - YyLen(r)] == 0 && YyLhs(r) == 0 ==>
               Lookahead(m.token, a.next) == Lookahead(m.token, b.next)
    ensures Reduce(TABLES, m, r, a) == Reduce(TABLES, m, r, b)
  {
  }

  lemma SameOnToken(m: Machine<Value>, a: Input<Value>, b: Input<Value>)
    requires Certified(TABLES, Below) && Inv(TABLES, Below, m) && m.token >= 0
    requires a.lval == b.lval && a.fails == b.fails && a.val == b.val
    requires var r := TABLES.Reduction(Top(m.stack), m.token);
             r.Some? ==> Fits(TABLES, m, r.value)
    ensures LrMachine.OnToken(TABLES, m, a) == LrMachine.OnToken(TABLES, m, b)
  {
  }

  lemma ActionLval(env: Env, c: Config, r: int, vals: seq<Value>, n: nat)
    requires c.input.files != [] && YyLen(r) <= |vals|
    ensures Action(env, c, r, vals, n).0.lval == c.lval
  {
  }

  lemma OnTokenLval(env: Env, c: Config, token: int, n: nat)
    requires Valid(c) && token >= 0
    ensures ConfigRun.OnToken(env, c, token, n).0.lval == c.lval
  {
    var r := TABLES.Reduction(Top(c.out.m.stack), token);
    if r.Some? {
      RuleFitsStack(TABLES, Below, c.out.m, r.value);
      ActionLval(env, c, r.value, c.out.m.vals, n);
    }
  }

  /** The tokens to come are those that the step takes, if any, and the rest; behind the end there are none. */
  ghost predicate Offers(m: Machine<Value>, inp: Input<Value>, lval: Value, o: Outcome<Value>, toks: seq<(int, Value)>,
                         rest: seq<(int, Value)>)
    requires m.stack != []
  {
    if Reads(TABLES, m, o) then
      var c := Lookahead(m.token, inp.next);
      if c > 0 then toks == [(c, lval)] + rest else toks == rest == []
    else toks == rest
  }

  /** What a default reduction reads, and yylval behind it. */
  lemma DefaultLval(env: Env, c: Config, n: nat)
    requires Valid(c) && YyDefred(Top(c.out.m.stack)) != 0
    ensures var (around, inp) := ByDefault(env, c, n);
            var o := Step(TABLES, Below, c.out.m, inp);
            !Reads(TABLES, c.out.m, o) || Lookahead(c.out.m.token, inp.next) == 0 ==> around.lval == c.lval
  {
    var m := c.out.m;
    var r := YyDefred(Top(m.stack));
    RuleFitsStack(TABLES, Below, m, r);
    ActionLval(env, c, r, m.vals, n);
    ScanLval(Action(env, c, r, m.vals, n).0);
    if m.token < 0 {
      DefaultReads(TABLES, Below, m, ByDefault(env, c, n).1);
    }
  }

  lemma TokenLval(env: Env, c: Config, n: nat)
    requires Valid(c) && YyDefred(Top(c.out.m.stack)) == 0
    ensures var (around, inp) := ByToken(env, c, n);
            && around.lval == inp.lval && inp.val == Lexer.Nothing
            && (c.out.m.token >= 0 || Lookahead(c.out.m.token, inp.next) == 0 ==> around.lval == c.lval)
  {
    var m := c.out.m;
    ScanLval(c);
    var (next, read) := if m.token < 0 then Scan(c) else (m.token, c);
    OnTokenLval(env, read, Lookahead(m.token, next), n);
  }

  lemma DefaultSame(env: Env, c: Config, n: nat, f: Conf<Value>, act: nat -> (bool, Value), rest: seq<(int, Value)>)
    requires Valid(c) && YyDefred(Top(c.out.m.stack)) != 0 && Matches(c, f) && act(f.n) == (false, Lexer.Nothing)
    requires !ByDefault(env, c, n).1.fails
    requires var (around, inp) := ByDefault(env, c, n);
             Offers(c.out.m, inp, around.lval, Step(TABLES, Below, c.out.m, inp), f.toks, rest)
    ensures StepOf(TABLES, Below, f, act) == Step(TABLES, Below, c.out.m, ByDefault(env, c, n).1)
  {
    var m := c.out.m;
    var r := YyDefred(Top(m.stack));
    var inp := ByDefault(env, c, n).1;
    RuleFitsStack(TABLES, Below, m, r);
    if m.token < 0 {
      DefaultReads(TABLES, Below, m, inp);
    }
    SameReduce(m, r, inp, Given(TABLES, m, f.lval, f.toks, act(f.n)));
  }

  lemma TokenSame(env: Env, c: Config, n: nat, f: Conf<Value>, act: nat -> (bool, Value), rest: seq<(int, Value)>)
    requires Valid(c) && YyDefred(Top(c.out.m.stack)) == 0 && Matches(c, f) && act(f.n) == (false, Lexer.Nothing)
    requires !ByToken(env, c, n).1.fails
    requires var (around, inp) := ByToken(env, c, n);
             Offers(c.out.m, inp, around.lval, Step(TABLES, Below, c.out.m, inp), f.toks, rest)
    ensures StepOf(TABLES, Below, f, act) == Step(TABLES, Below, c.out.m, ByToken(env, c, n).1)
  {
    var m := c.out.m;
    var inp, given := ByToken(env, c, n).1, Given(TABLES, m, f.lval, f.toks, act(f.n));
    TokenLval(env, c, n);
    assert Lookahead(m.token, inp.next) == Lookahead(m.token, given.next) && inp.lval == given.lval;
    var m' := m.(token := Lookahead(m.token, inp.next));
    OnTokenKeeps(TABLES, Below, m', inp);
    SameOnToken(m', inp, given);
  }

  lemma StepSame(env: Env, c: Config, n: nat, f: Conf<Value>, act: nat -> (bool, Value), rest: seq<(int, Value)>)
      returns (o: Outcome<Value>, g: Conf<Value>)
    requires Valid(c) && c.out.Running? && Matches(c, f) && act(f.n) == (false, Lexer.Nothing) && SmoothAt(env, c, n)
    requires var (around, inp) := Around(env, c, n);
             Offers(c.out.m, inp, around.lval, Step(TABLES, Below, c.out.m, inp), f.toks, rest)
    ensures o == StepOf(TABLES, Below, f, act) == Advance(env, c, n).out && g == NextOf(TABLES, f, o)
    ensures Matches(Advance(env, c, n), g) && g.toks == rest && g.n == Following(f.n)
  {
    if YyDefred(Top(c.out.m.stack)) != 0 {
      DefaultSame(env, c, n, f, act, rest);
      DefaultLval(env, c, n);
    } else {
      TokenSame(env, c, n, f, act, rest);
      TokenLval(env, c, n);
    }
    var (around, inp) := Around(env, c, n);
    o := Step(TABLES, Below, c.out.m, inp);
    g := NextOf(TABLES, f, o);
    assert Ended(around, o).out == o && Ended(around, o).lval == around.lval;
    if Reads(TABLES, c.out.m, o) && Lookahead(c.out.m.token, inp.next) > 0 {
      assert f.toks[1..] == rest;
    }
  }

  // ----- Behind the end of the input nothing is read

  lemma ReduceKeepsEnd(tb: Tables, m: Machine<Value>, r: int, inp: Input<Value>)
    requires Fits(tb, m, r) && m.token == 0
    ensures var o := Reduce(tb, m, r, inp);
            o.Running? ==> o.m.token == 0
  {
    if inp.fails && tb.mayFail(r) && m.errflag < 3 {
      UnwindShape(tb, m.(nerrs := m.nerrs + 1, errflag := 3), inp.lval);
    }
  }

  lemma OnTokenKeepsEnd(tb: Tables, m: Machine<Value>, inp: Input<Value>)
    requires |m.stack| == |m.vals| >= 1 && m.token == 0 && tb.Shift(Top(m.stack), 0).None?
    requires var r := tb.Reduction(Top(m.stack), m.token);
             r.Some? ==> Fits(tb, m, r.value)
    ensures var o := LrMachine.OnToken(tb, m, inp);
            o.Running? ==> o.m.token == 0
  {
    var r := tb.Reduction(Top(m.stack), 0);
    if r.Some? {
      ReduceKeepsEnd(tb, m, r.value, inp);
    } else if m.errflag < 3 {
      UnwindShape(tb, m.(nerrs := if m.errflag == 0 then m.nerrs + 1 else m.nerrs, errflag := 3), inp.lval);
    }
  }

  /** The end of the input stays at hand once it has been seen. */
  lemma EndStays(m: Machine<Value>, inp: Input<Value>)
    requires Certified(TABLES, Below) && Inv(TABLES, Below, m)
    ensures var o := Step(TABLES, Below, m, inp);
            m.token == 0 || (Reads(TABLES, m, o) && Lookahead(m.token, inp.next) == 0) ==> o.Running? ==> o.m.token == 0
  {
    var r := YyDefred(Top(m.stack));
    if r != 0 {
      RuleFitsStack(TABLES, Below, m, r);
      if m.token == 0 {
        ReduceKeepsEnd(TABLES, m, r, inp);
      } else if m.token < 0 {
        DefaultReads(TABLES, Below, m, inp);
      }
    } else if Lookahead(m.token, inp.next) == 0 {
      var m' := m.(token := 0);
      OnTokenKeeps(TABLES, Below, m', inp);
      assert TABLES.IsState(Top(m.stack));
      NoShiftOfEnd(Top(m.stack));
      OnTokenKeepsEnd(TABLES, m', inp);
    }
  }

  // ----- Whole parses

  lemma AfterFollowing(env: Env, content: seq<Byte>, k: nat)
    ensures After(env, content, Following(k)) == Advance(env, After(env, content, k), k)
  {
    AfterNext(env, content, k, Following(k), After(env, content, k));
  }

  lemma {:induction false} AfterStays(env: Env, content: seq<Byte>, k: nat, n: nat)
    requires k <= n && !After(env, content, k).out.Running?
    ensures After(env, content, n) == After(env, content, k)
    decreases n - k
  {
    if k < n {
      AfterFollowing(env, content, k);
      AfterStays(env, content, Following(k), n);
    }
  }

  lemma {:induction false} NoMoreReadings(env: Env, content: seq<Byte>, k: nat, n: nat)
    requires After(env, content, k).out.m.token == 0 || !After(env, content, k).out.Running?
    ensures Readings(env, content, k, n) == []
    decreases n - k
  {
    var c := After(env, content, k);
    if k < n && c.out.Running? {
      AfterFollowing(env, content, k);
      EndStays(c.out.m, Around(env, c, k).1);
      NoMoreReadings(env, content, Following(k), n);
    }
  }

  lemma ReadingsOffer(env: Env, content: seq<Byte>, k: nat, n: nat, c: Config)
    requires k < n && c == After(env, content, k) && c.out.Running?
    ensures var (around, inp) := Around(env, c, k);
            Offers(c.out.m, inp, around.lval, Step(TABLES, Below, c.out.m, inp), Readings(env, content, k, n),
                   Readings(env, content, Following(k), n))
  {
    var (around, inp) := Around(env, c, k);
    var o := Step(TABLES, Below, c.out.m, inp);
    AfterFollowing(env, content, k);
    EndStays(c.out.m, inp);
    if Reads(TABLES, c.out.m, o) && Lookahead(c.out.m.token, inp.next) == 0 {
      NoMoreReadings(env, content, Following(k), n);
    }
  }

  ghost predicate Smooth(env: Env, content: seq<Byte>, n: nat) {
    forall k :: 0 <= k < n ==> SmoothAt(env, After(env, content, k), k)
  }

  /** The parser on the tokens alone, with actions that do not fail, ends as the whole parse does. */
  lemma {:induction false} ParseIsRun(env: Env, content: seq<Byte>, k: nat, n: nat, f: Conf<Value>,
                                      act: nat -> (bool, Value))
    requires Certified(TABLES, Below) && Smooth(env, content, n) && k <= n
    requires forall j :: act(j) == (false, Lexer.Nothing)
    requires var c := After(env, content, k);
             c.out.Running? && Matches(c, f) && f.toks == Readings(env, content, k, n)
    requires Good(f.m) && Positive(Codes(f.toks)) && !After(env, content, n).out.Running?
    ensures ParseOf(f, act) == After(env, content, n).out
    decreases n - k
  {
    var c := After(env, content, k);
    assert SmoothAt(env, c, k);
    ReadingsOffer(env, content, k, n, c);
    var o, g := StepSame(env, c, k, f, act, Readings(env, content, Following(k), n));
    AfterFollowing(env, content, k);
    StepStaysGood(f, act, o, g);
    ParseStepOf(f, act, o, g);
    if o.Running? {
      ParseIsRun(env, content, Following(k), n, g, act);
    } else {
      AfterStays(env, content, Following(k), n);
    }
  }

  lemma CodesBehind(a: seq<(int, Value)>, b: seq<(int, Value)>)
    requires |a| <= 1
    ensures Codes(a + b) == Codes(a) + Codes(b)
  {
    if a == [] {
      assert a + b == b;
    } else {
      assert (a + b)[1..] == b && a[1..] == [];
    }
  }

  lemma TokensAt(env: Env, c: Config, n: nat)
    requires Valid(c) && c.out.Running?
    ensures Advance(env, c, n).tokens == c.tokens + Codes(TakenAt(env, c, n)) && Positive(Codes(TakenAt(env, c, n)))
    ensures |TakenAt(env, c, n)| <= 1
  {
    AroundTokens(env, c, n);
    var (around, inp) := Around(env, c, n);
    var t := Taken(TABLES, c.out.m, inp, Step(TABLES, Below, c.out.m, inp));
    assert Codes(TakenAt(env, c, n)) == t;
  }

  lemma ReadingsFirst(env: Env, content: seq<Byte>, k: nat, n: nat, c: Config)
    requires k < n && c == After(env, content, k) && c.out.Running?
    ensures Readings(env, content, k, n) == TakenAt(env, c, k) + Readings(env, content, Following(k), n)
  {
  }

  lemma PositiveBoth(a: seq<int>, b: seq<int>)
    requires Positive(a) && Positive(b)
    ensures Positive(a + b)
  {
  }

  /** The tokens recorded up to the n-th step are those up to the k-th, and those read since. */
  lemma {:induction false} ReadingsTokens(env: Env, content: seq<Byte>, k: nat, n: nat) returns (codes: seq<int>)
    requires k <= n
    ensures codes == Codes(Readings(env, content, k, n)) && Positive(codes)
    ensures After(env, content, n).tokens == After(env, content, k).tokens + codes
    decreases n - k
  {
    var c := After(env, content, k);
    if k == n || !c.out.Running? {
      AfterStaysHere(env, content, k, n);
      codes := [];
    } else {
      var t := TakenAt(env, c, k);
      TokensAt(env, c, k);
      AfterFollowing(env, content, k);
      var more := ReadingsTokens(env, content, Following(k), n);
      CodesBehind(t, Readings(env, content, Following(k), n));
      ReadingsFirst(env, content, k, n, c);
      PositiveBoth(Codes(t), more);
      Regroup(c.tokens, Codes(t), more, Codes(t) + more);
      codes := Codes(t) + more;
    }
  }

  lemma AfterStaysHere(env: Env, content: seq<Byte>, k: nat, n: nat)
    requires k <= n && (k == n || !After(env, content, k).out.Running?)
    ensures After(env, content, n).tokens == After(env, content, k).tokens + []
    ensures Readings(env, content, k, n) == []
  {
    if k < n {
      AfterStays(env, content, k, n);
    }
  }

  /**
    If no action fails, a parse that has ended was accepted without a syntax error if and only
    if the tokens read, through all included files, are a sentence of the grammar.
   */
  lemma AcceptsExactly(env: Env, content: seq<Byte>, n: nat)
    requires Smooth(env, content, n) && !After(env, content, n).out.Running?
    ensures var c := After(env, content, n);
            c.out.Accepted? && c.out.m.nerrs == 0 <==> IsSentence(c.tokens)
  {
    var c := AfterTokens(env, content, n);
    if IsSentence(c.tokens) {
      var b, toks := Begin(env, content), Readings(env, content, 0, n);
      AfterNone(env, content);
      var codes := ReadingsTokens(env, content, 0, n);
      assert [] + codes == codes;
      SentenceIsRun(env, content, n, b, toks);
    }
  }

  lemma SentenceIsRun(env: Env, content: seq<Byte>, n: nat, b: Config, toks: seq<(int, Value)>)
    requires Smooth(env, content, n) && !After(env, content, n).out.Running? && b == Begin(env, content)
    requires After(env, content, 0) == b && toks == Readings(env, content, 0, n) && Positive(Codes(toks))
    requires IsSentence(Codes(toks))
    ensures var o := After(env, content, n).out;
            o.Accepted? && o.m.nerrs == 0
  {
    var act := (j: nat) => (false, Lexer.Nothing);
    var f := Conf(Start(Lexer.Nothing), Lexer.Nothing, toks, 0);
    CodesPositive(toks);
    ParseAccepts(Lexer.Nothing, toks, act);
    TablesCertified();
    ParseIsRun(env, content, 0, n, f, act);
  }

  /** An action fails only where the environment says so, or where a file cannot be opened. */
  lemma SmoothIf(env: Env, content: seq<Byte>, n: nat)
    requires (forall k :: !env.fails(k)) && forall name :: env.open(name).Some?
    ensures Smooth(env, content, n)
  {
    forall k | 0 <= k < n ensures SmoothAt(env, After(env, content, k), k) {
      SmoothStep(env, After(env, content, k), k);
    }
  }

  lemma ActionSmooth(env: Env, c: Config, r: int, vals: seq<Value>, n: nat)
    requires c.input.files != [] && YyLen(r) <= |vals| && !env.fails(n) && forall name :: env.open(name).Some?
    ensures !Action(env, c, r, vals, n).1
  {
  }

  lemma OnTokenSmooth(env: Env, c: Config, token: int, n: nat)
    requires Valid(c) && token >= 0 && !env.fails(n) && forall name :: env.open(name).Some?
    ensures !ConfigRun.OnToken(env, c, token, n).1
  {
    var r := TABLES.Reduction(Top(c.out.m.stack), token);
    if r.Some? {
      RuleFitsStack(TABLES, Below, c.out.m, r.value);
      ActionSmooth(env, c, r.value, c.out.m.vals, n);
    }
  }

  lemma SmoothStep(env: Env, c: Config, n: nat)
    requires Valid(c) && !env.fails(n) && forall name :: env.open(name).Some?
    ensures SmoothAt(env, c, n)
  {
    var m := c.out.m;
    var r := YyDefred(Top(m.stack));
    if r != 0 {
      RuleFitsStack(TABLES, Below, m, r);
      ActionSmooth(env, c, r, m.vals, n);
    } else {
      var (next, read) := if m.token < 0 then Scan(c) else (m.token, c);
      OnTokenSmooth(env, read, Lookahead(m.token, next), n);
    }
  }

  /**
    So parse_config, if no action fails, succeeds on 7-bit text without NULs exactly if the
    tokens are a sentence and no error was counted in reading them.
   */
  lemma SucceedsExactly(env: Env, content: seq<Byte>, n: nat)
    requires CleanEnv(env) && Files.IsText(content) && !After(env, content, n).out.Running?
    requires Smooth(env, content, n) && forall k :: !env.fails(k)
    ensures var c := After(env, content, n);
            && (IsSentence(c.tokens) <==> c.out.Accepted? && c.out.m.nerrs == 0)
            && (Files.Verdict(c.input) == 0 <==> IsSentence(c.tokens) && c.counted == 0)
  {
    AcceptsExactly(env, content, n);
    GoodVerdict(env, content, n);
    VerdictIsRight(env, content, n);
  }
}
