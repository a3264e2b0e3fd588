/**
  parse_config as a whole (ifconfigctl/parse.c): the parser with its tables, the scanner,
  the files it includes and the errors counted on the way.

  The file system is a function from names to contents, and whether an action that can
  fail does fail is any choice at every step.  Includes may go on for ever, so a parse is
  looked at after any number of steps.
 */
module ConfigRun {
  import opened Numbers
  import opened LrMachine
  import opened LrGrammar
  import opened ConfigTables
  import opened ConfigParse
  import opened ConfigGrammar
  import Files = ConfigFiles
  import Lexer = ConfigLexer

  type Byte = Files.Byte
  type State = Files.State
  type Value = Lexer.Value

  /** Contents by name, None for a file that cannot be opened; failing actions by step; macros from the command line. */
  datatype Env = Env(open: seq<int> -> Option<seq<Byte>>, fails: nat -> bool, fixed: Lexer.Macros)

  /** A parse: `lval` is yylval, and `counted` and `tokens` record the errors counted and the tokens read. */
  datatype Config = Config(input: State, macros: Lexer.Macros, lval: Value, out: Outcome<Value>, counted: nat,
                           tokens: seq<int>)

  const ERROR_RULE: int := 6
  const VARSET_RULE: int := 66
  const SCHEMA_RULE: int := 67

  function TextOf(v: Value): seq<int> {
    if v.Text? then v.text else []
  }

  // ----- One step

  /** Counts an error in the current file. */
  function Report(c: Config): (d: Config)
    requires c.input.files != []
    ensures d.input.files != [] && d.out == c.out
  {
    c.(input := Files.Reported(c.input), counted := c.counted + 1)
  }

  /** A token has been read. */
  function Scanned(c: Config, x: Lexer.Lexeme): Config {
    Config(x.input, c.macros, if x.value.Some? then x.value.value else c.lval, c.out, c.counted + x.errors,
           c.tokens + Ahead(x.token))
  }

  /** yylex, and what it changes. */
  function Scan(c: Config): (r: (int, Config))
    requires c.input.files != []
    ensures r.1.input.files != [] && r.1.out == c.out
  {
    var x := Lexer.Lex(c.input, c.macros);
    (x.token, Scanned(c, x))
  }

  /** The actions that matter to the input, and which of them fail.  A schema that cannot be read is not reported. */
  function Action(env: Env, c: Config, r: int, vals: seq<Value>, n: nat): (x: (Config, bool))
    requires c.input.files != [] && YyLen(r) <= |vals|
    ensures x.0.input.files != [] && x.0.out == c.out
  {
    if r == ERROR_RULE then (Report(c), false)
    else if r == INCLUDE_RULE then
      match env.open(TextOf(vals[|vals| - 1]))
      case Some(content) => (c.(input := Files.Included(c.input, content)), false)
      case None => (Report(c), true)
    else if r == VARSET_RULE then
      var name := TextOf(vals[|vals| - 3]);
      (if name in env.fixed then c else c.(macros := c.macros[name := TextOf(vals[|vals| - 1])]), false)
    else if MayFail(r) && env.fails(n) then (if r == SCHEMA_RULE then c else Report(c), true)
    else (c, false)
  }

  /** A stack that is full is reported. */
  function Ended(c: Config, o: Outcome<Value>): (d: Config)
    requires c.input.files != []
    ensures d.input.files != [] && d.out == o
  {
    (if o.Overflow? then Report(c) else c).(out := o)
  }

  ghost predicate Valid(c: Config) {
    c.input.files != [] && Certified(TABLES, Below) && Inv(TABLES, Below, c.out.m)
  }

  /** A state with a default reduction: the action, and the next token if the reduction ends a line. */
  function ByDefault(env: Env, c: Config, n: nat): (x: (Config, Input<Value>))
    requires Valid(c) && YyDefred(Top(c.out.m.stack)) != 0
    ensures x.0.input.files != []
  {
    var m := c.out.m;
    var r := YyDefred(Top(m.stack));
    RuleFitsStack(TABLES, Below, m, r);
    var (acted, fails) := Action(env, c, r, m.vals, n);
    var (next, read) := if m.token < 0 && ReturnsHome(TABLES, m, fails) then Scan(acted) else (0, acted);
    (read, Input(next, read.lval, fails, Lexer.Nothing))
  }

  /** What a token makes the parser do besides its stack: an error is reported unless one just was. */
  function OnToken(env: Env, c: Config, token: int, n: nat): (x: (Config, bool))
    requires Valid(c) && token >= 0
    ensures x.0.input.files != [] && x.0.out == c.out
  {
    var m, s := c.out.m, Top(c.out.m.stack);
    if TABLES.Shift(s, token).Some? then (c, false)
    else match TABLES.Reduction(s, token)
      case Some(r) =>
        RuleFitsStack(TABLES, Below, m, r);
        Action(env, c, r, m.vals, n)
      case None => (if m.errflag == 0 then Report(c) else c, false)
  }

  function ByToken(env: Env, c: Config, n: nat): (x: (Config, Input<Value>))
    requires Valid(c)
    ensures x.0.input.files != []
  {
    var m := c.out.m;
    var (next, read) := if m.token < 0 then Scan(c) else (m.token, c);
    var (acted, fails) := OnToken(env, read, Lookahead(m.token, next), n);
    (acted, Input(next, read.lval, fails, Lexer.Nothing))
  }

  /** What happens around a step of the parser, and what the parser gets from it. */
  function Around(env: Env, c: Config, n: nat): (x: (Config, Input<Value>))
    requires Valid(c)
    ensures x.0.input.files != []
  {
    if YyDefred(Top(c.out.m.stack)) != 0 then ByDefault(env, c, n) else ByToken(env, c, n)
  }

  /** From yyloop to the next yyloop; a parse that has ended stays as it is. */
  function Advance(env: Env, c: Config, n: nat): (d: Config)
    requires Valid(c)
    ensures Valid(d)
  {
    if !c.out.Running? then c
    else
      var (around, inp) := Around(env, c, n);
      Ended(around, Step(TABLES, Below, c.out.m, inp))
  }

  function Begin(env: Env, content: seq<Byte>): (c: Config)
    ensures Valid(c)
  {
    TablesCertified();
    Config(Files.Opened(content), env.fixed, Lexer.Nothing, Running(Start(Lexer.Nothing)), 0, [])
  }

  /** The number of the step before. */
  function Before(n: nat): nat
    requires n > 0
  {
    n - 1
  }

  /** The parse of a top file after n steps. */
  function After(env: Env, content: seq<Byte>, n: nat): (c: Config)
    ensures Valid(c)
  {
    if n == 0 then Begin(env, content) else Advance(env, After(env, content, Before(n)), Before(n))
  }

  lemma AfterNone(env: Env, content: seq<Byte>)
    ensures After(env, content, 0) == Begin(env, content)
  {
  }

  /** One step more. */
  lemma AfterNext(env: Env, content: seq<Byte>, m: nat, n: nat, b: Config)
    requires n > 0 && m == Before(n) && b == After(env, content, m)
    ensures After(env, content, n) == Advance(env, b, m)
  {
  }

  // ----- What every step keeps

  /** All files that can be opened, and the macros from the command line, are 7-bit text without NULs. */
  ghost predicate CleanEnv(env: Env) {
    Lexer.FineMacros(env.fixed) && forall name :: env.open(name).Some? ==> Files.IsText(env.open(name).value)
  }

  /** The errors in the open files are the errors counted; on clean text, what has been read is clean. */
  ghost predicate Holds(clean: bool, c: Config) {
    && c.input.files != [] && Files.Total(c.input.files) == c.counted
    && (clean ==> Files.Clean(c.input) && Lexer.FineMacros(c.macros) && Lexer.FineValue(c.lval))
  }

  lemma ReportHolds(clean: bool, c: Config)
    requires Holds(clean, c)
    ensures Holds(clean, Report(c)) && |Report(c).input.files| == |c.input.files|
  {
    Lexer.ReportedFollows(clean, c.input);
  }

  lemma ScanHolds(clean: bool, c: Config)
    requires Holds(clean, c)
    ensures var (token, d) := Scan(c);
            Holds(clean, d) && (clean ==> token > 0 || (token == 0 && |d.input.files| == 1))
  {
    Lexer.LexFollows(clean, c.input, c.macros);
  }

  lemma IncludeHolds(clean: bool, c: Config, content: seq<Byte>)
    requires Holds(clean, c) && (clean ==> Files.IsText(content))
    ensures Holds(clean, c.(input := Files.Included(c.input, content)))
  {
    Files.IncludedConserves(c.input, content);
  }

  lemma ActionHolds(clean: bool, env: Env, c: Config, r: int, vals: seq<Value>, n: nat)
    requires Holds(clean, c) && YyLen(r) <= |vals| && (clean ==> CleanEnv(env) && All(Lexer.FineValue, vals))
    ensures var d := Action(env, c, r, vals, n).0;
            Holds(clean, d) && (r != INCLUDE_RULE ==> |d.input.files| == |c.input.files|)
  {
    ReportHolds(clean, c);
    if r == INCLUDE_RULE {
      match env.open(TextOf(vals[|vals| - 1]))
      case Some(content) => IncludeHolds(clean, c, content);
      case None =>
    }
  }

  /** With the end of the input in hand, only the top file is open. */
  ghost predicate EndsOnTop(c: Config) {
    c.out.m.token == 0 && !c.out.Overflow? ==> |c.input.files| == 1
  }

  /** What the parser's side keeps. */
  ghost predicate ParserKeeps(o: Outcome<Value>) {
    && FreshName(o) && (o.Running? ==> Good(o.m))
    && (o.Accepted? || o.Aborted? ==> o.m.token == 0)
    && (o.Accepted? ==> |o.m.stack| == 2) && (o.Aborted? ==> o.m.errflag == 3)
  }

  ghost predicate Keeps(clean: bool, c: Config) {
    && Valid(c) && Holds(clean, c) && ParserKeeps(c.out)
    && (c.out.Overflow? ==> Files.Last(c.input.files).errors > 0)
    && (clean ==> All(Lexer.FineValue, c.out.m.vals) && EndsOnTop(c))
  }

  lemma ParserStepKeeps(m: Machine<Value>, inp: Input<Value>)
    requires Certified(TABLES, Below) && Good(m)
    ensures ParserKeeps(Step(TABLES, Below, m, inp))
  {
    StepGoes(m, inp);
    IncludeBeforeLookahead(m, inp);
    var o := Step(TABLES, Below, m, inp);
    if o.Accepted? {
      TablesSpelled();
      StepAccepts(TABLES, Below, GRAMMAR_RULES, AccessOf, m, inp);
    } else if o.Aborted? {
      StepAborts(TABLES, Below, m, inp);
    }
  }

  lemma EndedKeeps(clean: bool, c: Config, o: Outcome<Value>)
    requires Certified(TABLES, Below) && Inv(TABLES, Below, o.m) && Holds(clean, c) && ParserKeeps(o)
    requires clean ==> All(Lexer.FineValue, o.m.vals) && (o.m.token == 0 ==> |c.input.files| == 1)
    ensures Keeps(clean, Ended(c, o))
  {
    ReportHolds(clean, c);
  }

  /** Around a step the input stays in order, and the end of the input is only seen in the top file. */
  ghost predicate AroundKeeps(clean: bool, c: Config, x: (Config, Input<Value>))
    requires Valid(c)
  {
    var o := Step(TABLES, Below, c.out.m, x.1);
    && Holds(clean, x.0)
    && (clean ==> Lexer.FineValue(x.1.lval) && x.1.val == Lexer.Nothing && (o.m.token == 0 ==> |x.0.input.files| == 1))
  }

  lemma DefaultKeeps(clean: bool, env: Env, c: Config, n: nat)
    requires Keeps(clean, c) && c.out.Running? && YyDefred(Top(c.out.m.stack)) != 0 && (clean ==> CleanEnv(env))
    ensures AroundKeeps(clean, c, ByDefault(env, c, n))
  {
    var m := c.out.m;
    var r := YyDefred(Top(m.stack));
    RuleFitsStack(TABLES, Below, m, r);
    IncludeState(Top(m.stack));
    ActionHolds(clean, env, c, r, m.vals, n);
    var (acted, fails) := Action(env, c, r, m.vals, n);
    ScanHolds(clean, acted);
    var (_, inp) := ByDefault(env, c, n);
    StepToken(TABLES, Below, m, inp);
    if m.token < 0 {
      DefaultReads(TABLES, Below, m, inp);
    }
  }

  /** What a token makes the parser do opens no file. */
  lemma OnTokenHolds(clean: bool, env: Env, c: Config, token: int, n: nat)
    requires Valid(c) && token >= 0 && Holds(clean, c)
    requires clean ==> CleanEnv(env) && All(Lexer.FineValue, c.out.m.vals)
    ensures var d := OnToken(env, c, token, n).0;
            Holds(clean, d) && |d.input.files| == |c.input.files|
  {
    var m, s := c.out.m, Top(c.out.m.stack);
    ReportHolds(clean, c);
    NotByToken(s, token);
    if TABLES.Reduction(s, token).Some? {
      var r := TABLES.Reduction(s, token).value;
      RuleFitsStack(TABLES, Below, m, r);
      ActionHolds(clean, env, c, r, m.vals, n);
    }
  }

  lemma TokenKeeps(clean: bool, env: Env, c: Config, n: nat)
    requires Keeps(clean, c) && c.out.Running? && (clean ==> CleanEnv(env)) && YyDefred(Top(c.out.m.stack)) == 0
    ensures AroundKeeps(clean, c, ByToken(env, c, n))
  {
    var m := c.out.m;
    ScanHolds(clean, c);
    var (next, read) := if m.token < 0 then Scan(c) else (m.token, c);
    OnTokenHolds(clean, env, read, Lookahead(m.token, next), n);
    StepToken(TABLES, Below, m, ByToken(env, c, n).1);
  }

  lemma AdvanceKeeps(clean: bool, env: Env, c: Config, n: nat)
    requires Keeps(clean, c) && (clean ==> CleanEnv(env))
    ensures Keeps(clean, Advance(env, c, n))
  {
    if c.out.Running? {
      if YyDefred(Top(c.out.m.stack)) != 0 {
        DefaultKeeps(clean, env, c, n);
      } else {
        TokenKeeps(clean, env, c, n);
      }
      var (around, inp) := Around(env, c, n);
      ParserStepKeeps(c.out.m, inp);
      if clean {
        StepValues(TABLES, Below, c.out.m, inp, Lexer.FineValue);
      }
      EndedKeeps(clean, around, Step(TABLES, Below, c.out.m, inp));
    }
  }

  lemma BeginKeeps(clean: bool, env: Env, content: seq<Byte>)
    requires clean ==> CleanEnv(env) && Files.IsText(content)
    ensures Keeps(clean, Begin(env, content))
  {
    TablesCertified();
    Files.TotalOfOne(Files.File(content, 0));
  }

  lemma {:induction false} AfterKeeps(clean: bool, env: Env, content: seq<Byte>, n: nat) returns (c: Config)
    requires clean ==> CleanEnv(env) && Files.IsText(content)
    ensures c == After(env, content, n) && Keeps(clean, c)
  {
    if n == 0 {
      c := Begin(env, content);
      BeginKeeps(clean, env, content);
    } else {
      var b := AfterKeeps(clean, env, content, Before(n));
      c := Advance(env, b, Before(n));
      AdvanceKeeps(clean, env, b, Before(n));
    }
  }

  // ----- The verdict

  /** parse_config fails if and only if an error was counted. */
  predicate Right(c: Config)
    requires c.input.files != []
  {
    Files.Verdict(c.input) == -1 <==> c.counted > 0
  }

  lemma RightOnTop(c: Config)
    requires Holds(false, c) && |c.input.files| == 1
    ensures Right(c)
  {
    Files.TotalOfSingle(c.input.files);
  }

  lemma {:induction false} LastInTotal(files: seq<Files.File>)
    requires files != []
    ensures Files.Total(files) >= Files.Last(files).errors
  {
  }

  /** In every parse no error is lost and none is counted twice. */
  lemma NoErrorLost(env: Env, content: seq<Byte>, n: nat)
    ensures var c := After(env, content, n);
            Files.Total(c.input.files) == c.counted
  {
    var _ := AfterKeeps(false, env, content, n);
  }

  /** On 7-bit text without NULs every parse that ends gets the right verdict. */
  lemma VerdictIsRight(env: Env, content: seq<Byte>, n: nat)
    requires CleanEnv(env) && Files.IsText(content)
    ensures var c := After(env, content, n);
            !c.out.Running? ==> Right(c)
  {
    var _ := AfterKeeps(true, env, content, n);
    var c := After(env, content, n);
    if c.out.Overflow? {
      LastInTotal(c.input.files);
    } else if !c.out.Running? {
      RightOnTop(c);
    }
  }

  // ----- What a good verdict says

  /** The error token lies on the line that is being skipped. */
  predicate Skipping(stack: seq<int>) {
    |stack| > 2 && stack[2] == 2
  }

  /** State 1 lies only on the bottom. */
  lemma OneIsSecond(stack: seq<int>, i: nat)
    requires Sound(TABLES, Below, stack) && i < |stack| && stack[i] == 1
    ensures i == 1
  {
    assert stack[i - 1] in Below(1) && Below(1) == [0];
    SoundPop(TABLES, Below, stack, |stack| - i);
    OnlyBottomIsZero(TABLES, Below, stack[..i]);
  }

  /** Recovery from above the bottom comes down to the error token. */
  lemma {:induction false} UnwindSkips(m: Machine<Value>, lval: Value)
    requires Inv(TABLES, Below, m) && |m.stack| > 1
    ensures var o := Unwind(TABLES, m, lval);
            o.Running? ==> Skipping(o.m.stack)
    decreases |m.stack|
  {
    ErrorShift(Top(m.stack));
    if Top(m.stack) == 1 {
      OneIsSecond(m.stack, |m.stack| - 1);
    } else {
      SecondIsOne(m.stack);
      SoundPop(TABLES, Below, m.stack, 1);
      UnwindSkips(Pop(m, 1), lval);
    }
  }

  lemma OnError(s: int)
    requires 0 <= s < 107
    ensures (2 in Below(s) ==> s == 21) && 21 !in Below(s)
  {
  }

  lemma SkippingStack(stack: seq<int>)
    requires Sound(TABLES, Below, stack) && Skipping(stack)
    ensures Top(stack) == 2 || Top(stack) == 21
  {
    if |stack| > 3 {
      assert stack[2] in Below(stack[3]);
      OnError(stack[3]);
      if |stack| > 4 {
        assert stack[3] in Below(stack[4]);
        OnError(stack[4]);
      }
    }
  }

  lemma SkippedTables(c: int)
    requires c >= 0
    ensures YyDefred(2) == 0 && YyDefred(21) == ERROR_RULE && TABLES.Reduction(2, c) == None
    ensures TABLES.Shift(2, c) == if c == 10 then Some(21) else None
  {
  }

  lemma RecoverSkips(m: Machine<Value>, lval: Value)
    requires Inv(TABLES, Below, m) && |m.stack| > 1 && (m.errflag == 3 ==> Skipping(m.stack))
    ensures var o := Recover(TABLES, m, lval);
            !o.Accepted? && (o.Overflow? || Skipping(o.m.stack))
  {
    if m.errflag < 3 {
      UnwindSkips(m.(errflag := 3), lval);
      UnwindFinds(m.(errflag := 3), lval);
    }
  }

  /** Until the line ends, whatever comes is skipped. */
  lemma SkippingGoes(m: Machine<Value>, inp: Input<Value>)
    requires Certified(TABLES, Below) && Inv(TABLES, Below, m) && Skipping(m.stack) && Top(m.stack) == 2
    ensures var o := Step(TABLES, Below, m, inp);
            !o.Accepted? && (o.Overflow? || Skipping(o.m.stack))
  {
    var m' := m.(token := Lookahead(m.token, inp.next));
    SkippedTables(m'.token);
    RecoverSkips(if m'.errflag == 0 then m'.(nerrs := m'.nerrs + 1) else m', inp.lval);
  }

  /** Some action has failed before step n. */
  ghost predicate Failed(env: Env, n: nat) {
    exists k :: 0 <= k < n && env.fails(k)
  }

  /** An error that is not counted is being skipped, and comes from an action. */
  ghost predicate ErrsTold(env: Env, counted: nat, o: Outcome<Value>, n: nat) {
    o.m.nerrs > 0 && counted == 0 ==> o.Overflow? || (Skipping(o.m.stack) && Failed(env, n))
  }

  lemma ScanCounts(c: Config)
    requires c.input.files != []
    ensures Scan(c).1.counted >= c.counted
  {
  }

  /** Only a schema that cannot be read fails without being counted. */
  lemma ActionCounts(env: Env, c: Config, r: int, vals: seq<Value>, n: nat)
    requires c.input.files != [] && YyLen(r) <= |vals|
    ensures var (d, fails) := Action(env, c, r, vals, n);
            && d.counted >= c.counted && (r == ERROR_RULE ==> d.counted > 0)
            && (fails && d.counted == 0 ==> env.fails(n) && r == SCHEMA_RULE)
  {
  }

  lemma ReduceErrs(m: Machine<Value>, r: int, inp: Input<Value>)
    requires Inv(TABLES, Below, m) && Fits(TABLES, m, r)
    ensures var o := Reduce(TABLES, m, r, inp);
            if inp.fails && MayFail(r) then
              o.m.nerrs == m.nerrs + 1 && (m.errflag < 3 && |m.stack| > 1 ==> o.Overflow? || Skipping(o.m.stack))
            else o.m.nerrs == m.nerrs
  {
    if inp.fails && MayFail(r) {
      RecoverShape(TABLES, m.(nerrs := m.nerrs + 1), inp.lval);
      if m.errflag < 3 && |m.stack| > 1 {
        RecoverSkips(m.(nerrs := m.nerrs + 1), inp.lval);
      }
    }
  }

  lemma FailingRules(r: int)
    ensures MayFail(r) ==> YyLen(r) > 0
  {
  }

  lemma DefaultErrs(env: Env, c: Config, n: nat)
    requires Valid(c) && Good(c.out.m) && YyDefred(Top(c.out.m.stack)) != 0 && c.out.Running?
    requires ErrsTold(env, c.counted, c.out, n)
    ensures var (around, inp) := ByDefault(env, c, n);
            ErrsTold(env, around.counted, Step(TABLES, Below, c.out.m, inp), n + 1)
  {
    var m := c.out.m;
    var r := YyDefred(Top(m.stack));
    RuleFitsStack(TABLES, Below, m, r);
    if m.nerrs > 0 && c.counted == 0 {
      SkippingStack(m.stack);
      SkippedTables(0);
    }
    ActionCounts(env, c, r, m.vals, n);
    FailingRules(r);
    ScanCounts(Action(env, c, r, m.vals, n).0);
    ReduceErrs(m, r, ByDefault(env, c, n).1);
  }

  lemma OnTokenCounts(env: Env, c: Config, token: int, n: nat)
    requires Valid(c) && token >= 0
    ensures OnToken(env, c, token, n).0.counted >= c.counted
  {
    var m := c.out.m;
    var r := TABLES.Reduction(Top(m.stack), token);
    if r.Some? {
      RuleFitsStack(TABLES, Below, m, r.value);
      ActionCounts(env, c, r.value, m.vals, n);
    }
  }

  /** With a token, every fresh error is counted. */
  lemma FreshCounted(env: Env, c: Config, next: int, lval: Value, n: nat)
    requires Valid(c) && c.out.m.nerrs == 0 && c.out.m.errflag == 0 && YyDefred(Top(c.out.m.stack)) == 0
    ensures var (d, fails) := OnToken(env, c, Lookahead(c.out.m.token, next), n);
            Step(TABLES, Below, c.out.m, Input(next, lval, fails, Lexer.Nothing)).m.nerrs > 0 ==> d.counted > 0
  {
    var m := c.out.m;
    var token := Lookahead(m.token, next);
    var m', r := m.(token := token), TABLES.Reduction(Top(m.stack), token);
    if r.Some? {
      RuleFitsStack(TABLES, Below, m', r.value);
      RuleFitsStack(TABLES, Below, m, r.value);
      ReducesOnToken(Top(m.stack), YyRindex(Top(m.stack)) + token);
      ActionCounts(env, c, r.value, m.vals, n);
      ReduceErrs(m', r.value, Input(next, lval, OnToken(env, c, token, n).1, Lexer.Nothing));
    }
  }

  lemma TokenErrs(env: Env, c: Config, n: nat)
    requires Valid(c) && c.out.Running? && YyDefred(Top(c.out.m.stack)) == 0
    requires ErrsTold(env, c.counted, c.out, n) && (c.out.m.nerrs == 0 ==> c.out.m.errflag == 0)
    ensures var (around, inp) := ByToken(env, c, n);
            ErrsTold(env, around.counted, Step(TABLES, Below, c.out.m, inp), n + 1)
  {
    var m := c.out.m;
    ScanCounts(c);
    var (next, read) := if m.token < 0 then Scan(c) else (m.token, c);
    OnTokenCounts(env, read, Lookahead(m.token, next), n);
    if m.nerrs == 0 {
      FreshCounted(env, read, next, read.lval, n);
    } else if c.counted == 0 {
      SkippingStack(m.stack);
      SkippedTables(0);
      SkippingGoes(m, ByToken(env, c, n).1);
    }
  }

  lemma ScanTokens(c: Config)
    requires c.input.files != []
    ensures Scan(c).1.tokens == c.tokens + Ahead(Lookahead(-1, Scan(c).0))
  {
  }

  lemma ActionTokens(env: Env, c: Config, r: int, vals: seq<Value>, n: nat)
    requires c.input.files != [] && YyLen(r) <= |vals|
    ensures Action(env, c, r, vals, n).0.tokens == c.tokens
  {
  }

  lemma DefaultTokens(env: Env, c: Config, n: nat)
    requires Valid(c) && YyDefred(Top(c.out.m.stack)) != 0
    ensures var (around, inp) := ByDefault(env, c, n);
            around.tokens == c.tokens + Taken(TABLES, c.out.m, inp, Step(TABLES, Below, c.out.m, inp))
  {
    var m := c.out.m;
    var r := YyDefred(Top(m.stack));
    RuleFitsStack(TABLES, Below, m, r);
    ActionTokens(env, c, r, m.vals, n);
    ScanTokens(Action(env, c, r, m.vals, n).0);
    if m.token < 0 {
      DefaultReads(TABLES, Below, m, ByDefault(env, c, n).1);
    } else {
      assert c.tokens + [] == c.tokens;
    }
  }

  lemma OnTokenTokens(env: Env, c: Config, token: int, n: nat)
    requires Valid(c) && token >= 0
    ensures OnToken(env, c, token, n).0.tokens == c.tokens
  {
    var m := c.out.m;
    var r := TABLES.Reduction(Top(m.stack), token);
    if r.Some? {
      RuleFitsStack(TABLES, Below, m, r.value);
      ActionTokens(env, c, r.value, m.vals, n);
    }
  }

  lemma TokenTokens(env: Env, c: Config, n: nat)
    requires Valid(c) && YyDefred(Top(c.out.m.stack)) == 0
    ensures var (around, inp) := ByToken(env, c, n);
            around.tokens == c.tokens + Taken(TABLES, c.out.m, inp, Step(TABLES, Below, c.out.m, inp))
  {
    var m := c.out.m;
    ScanTokens(c);
    var (next, read) := if m.token < 0 then Scan(c) else (m.token, c);
    OnTokenTokens(env, read, Lookahead(m.token, next), n);
    assert m.token >= 0 ==> c.tokens + [] == c.tokens;
  }

  /** The tokens recorded are those that the parser has taken. */
  lemma AroundTokens(env: Env, c: Config, n: nat)
    requires Valid(c)
    ensures var (around, inp) := Around(env, c, n);
            around.tokens == c.tokens + Taken(TABLES, c.out.m, inp, Step(TABLES, Below, c.out.m, inp))
  {
    if YyDefred(Top(c.out.m.stack)) != 0 {
      DefaultTokens(env, c, n);
    } else {
      TokenTokens(env, c, n);
    }
  }

  /** The tokens read without an error are built by the rules, and an accepted parse has read a sentence. */
  ghost predicate TokensTold(o: Outcome<Value>, tokens: seq<int>) {
    && (o.Overflow? || HasRead(o.m, tokens))
    && (o.Accepted? && o.m.nerrs == 0 ==> IsSentence(tokens))
  }

  lemma StepTold(m: Machine<Value>, inp: Input<Value>, tokens: seq<int>)
    requires Certified(TABLES, Below) && Inv(TABLES, Below, m) && HasRead(m, tokens)
    ensures var o := Step(TABLES, Below, m, inp);
            TokensTold(o, tokens + Taken(TABLES, m, inp, o))
  {
    StepReads(m, inp, tokens);
  }

  lemma AdvanceTokens(env: Env, c: Config, n: nat)
    requires Valid(c) && TokensTold(c.out, c.tokens)
    ensures var d := Advance(env, c, n);
            TokensTold(d.out, d.tokens)
  {
    if c.out.Running? {
      AroundTokens(env, c, n);
      StepTold(c.out.m, Around(env, c, n).1, c.tokens);
    }
  }

  lemma {:induction false} AfterTokens(env: Env, content: seq<Byte>, n: nat) returns (c: Config)
    ensures c == After(env, content, n) && TokensTold(c.out, c.tokens)
  {
    if n == 0 {
      c := Begin(env, content);
      StartRead(Lexer.Nothing);
    } else {
      var b := AfterTokens(env, content, Before(n));
      AfterNext(env, content, Before(n), n, b);
      c := Advance(env, b, Before(n));
      AdvanceTokens(env, b, Before(n));
    }
  }

  /** What a running parse keeps that the count of its errors rests on. */
  ghost predicate InOrder(o: Outcome<Value>) {
    o.Running? ==> Good(o.m) && (o.m.nerrs == 0 ==> o.m.errflag == 0)
  }

  lemma AdvanceErrs(env: Env, c: Config, m: nat, n: nat)
    requires Valid(c) && ErrsTold(env, c.counted, c.out, m) && InOrder(c.out) && n == m + 1
    ensures var d := Advance(env, c, m);
            ErrsTold(env, d.counted, d.out, n)
  {
    if c.out.Running? {
      if YyDefred(Top(c.out.m.stack)) != 0 {
        DefaultErrs(env, c, m);
      } else {
        TokenErrs(env, c, m);
      }
    }
  }

  lemma AfterInOrder(env: Env, content: seq<Byte>, n: nat, c: Config)
    requires c == After(env, content, n)
    ensures InOrder(c.out)
  {
    var _ := AfterTokens(env, content, n);
    var _ := AfterKeeps(false, env, content, n);
  }

  lemma {:induction false} AfterErrs(env: Env, content: seq<Byte>, n: nat) returns (c: Config)
    ensures c == After(env, content, n) && ErrsTold(env, c.counted, c.out, n)
  {
    if n == 0 {
      c := Begin(env, content);
    } else {
      var b := AfterErrs(env, content, Before(n));
      AfterInOrder(env, content, Before(n), b);
      AfterNext(env, content, Before(n), n, b);
      c := Advance(env, b, Before(n));
      AdvanceErrs(env, b, Before(n), n);
    }
  }

  /**
    If parse_config succeeds on 7-bit text without NULs, the tokens that were read, through
    all included files, are a sentence of the grammar.  The one exception is a failure that
    is not reported, at the end of the input: the parse is then aborted in silence.
   */
  lemma GoodVerdict(env: Env, content: seq<Byte>, n: nat)
    requires CleanEnv(env) && Files.IsText(content)
    ensures var c := After(env, content, n);
            !c.out.Running? && Files.Verdict(c.input) == 0 ==>
              (c.out.Accepted? && IsSentence(c.tokens)) || (c.out.Aborted? && Skipping(c.out.m.stack) && Failed(env, n))
  {
    VerdictIsRight(env, content, n);
    var _ := AfterTokens(env, content, n);
    var _ := AfterErrs(env, content, n);
    var _ := AfterKeeps(true, env, content, n);
  }
}
