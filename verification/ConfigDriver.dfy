/**
  parse_config as it runs (ifconfigctl/parse.c): yyparse on its growing arrays, yylex on the
  open files, and the actions between them, step by step as the specification says.
 */
module ConfigDriver {
  import opened Numbers
  import opened LrMachine
  import LrGrammar
  import opened ConfigTables
  import opened ConfigParse
  import Spec = ConfigRun
  import Driver = LrDriver
  import Files = ConfigFiles
  import Lexer = ConfigLexer

  lemma ScanIs(c: Spec.Config) returns (x: Lexer.Lexeme)
    requires c.input.files != []
    ensures x == Lexer.Lex(c.input, c.macros) && Spec.Scan(c) == (x.token, Spec.Scanned(c, x))
  {
    x := Lexer.Lex(c.input, c.macros);
  }

  /** How a step begins, with the action done. */
  lemma DefaultIs(env: Spec.Env, c: Spec.Config, n: nat, r: int, acted: Spec.Config, fails: bool)
    requires Spec.Valid(c) && r == YyDefred(Top(c.out.m.stack)) != 0 && Fits(TABLES, c.out.m, r)
    requires (acted, fails) == Spec.Action(env, c, r, c.out.m.vals, n)
    ensures Spec.ByDefault(env, c, n) ==
            if c.out.m.token < 0 && ReturnsHome(TABLES, c.out.m, fails) then
              var (next, read) := Spec.Scan(acted); (read, Input(next, read.lval, fails, Lexer.Nothing))
            else (acted, Input(0, acted.lval, fails, Lexer.Nothing))
  {
  }

  lemma TokenIs(env: Spec.Env, c: Spec.Config, n: nat, next: int, read: Spec.Config)
    requires Spec.Valid(c) && read.input.files != [] && read.out == c.out
    requires if c.out.m.token < 0 then (next, read) == Spec.Scan(c) else next == c.out.m.token && read == c
    ensures var (acted, fails) := Spec.OnToken(env, read, Lookahead(c.out.m.token, next), n);
            Spec.ByToken(env, c, n) == (acted, Input(next, read.lval, fails, Lexer.Nothing))
  {
  }

  class ConfigParser {
    const env: Spec.Env
    var parser: Driver.Parser<Spec.Value>
    var input: Files.ConfigInput
    var macros: Lexer.Macros
    var lval: Spec.Value
    var status: Driver.Status
    ghost var counted: nat
    ghost var tokens: seq<int>

    ghost function Now(): Spec.Config
      reads this, input, parser
    {
      Spec.Config(input.Now(), macros, lval, Driver.Ended(status, parser.Abs()), counted, tokens)
    }

    /** The parser's own state. */
    ghost predicate Ready()
      reads this`parser, this`status, parser, parser.yyss, parser.yyvs
    {
      && parser.tb == TABLES && parser.under == Below && parser.Shape()
      && Certified(TABLES, Below) && Inv(TABLES, Below, parser.Abs())
      && (status == Driver.Continue ==> parser.yystate == Top(parser.stack))
    }

    ghost predicate Valid()
      reads this`input, this`parser, this`status, input, parser, parser.yyss, parser.yyvs
    {
      input.files != [] && Ready()
    }

    constructor (env: Spec.Env, content: seq<Files.Byte>)
      ensures Valid() && fresh(input) && fresh(parser) && fresh(parser.yyss) && fresh(parser.yyvs) && this.env == env
      ensures Now() == Spec.Begin(env, content)
    {
      TablesCertified();
      this.env := env;
      parser := new Driver.Parser(TABLES, Below, Lexer.Nothing);
      var files := new Files.ConfigInput();
      var ok := files.Pushfile(Some(content));
      input, macros, lval, status := files, env.fixed, Lexer.Nothing, Driver.Continue;
      counted, tokens := 0, [];
    }

    method Report()
      requires input.files != []
      modifies this`counted, input
      ensures input.files != [] && Now() == Spec.Report(old(Now()))
    {
      input.YyError();
      counted := counted + 1;
    }

    method Scan() returns (token: int)
      requires input.files != []
      modifies this`lval, this`counted, this`tokens, input
      ensures input.files != [] && (token, Now()) == Spec.Scan(old(Now()))
    {
      ghost var c := Now();
      ghost var x := ScanIs(c);
      var value;
      token, value := Lexer.Yylex(input, macros);
      if value.Some? {
        lval := value.value;
      }
      counted, tokens := counted + x.errors, tokens + LrGrammar.Ahead(token);
      assert Now() == Spec.Scanned(c, x);
    }

    /** The action of a rule. */
    method Act(r: int, n: nat) returns (fails: bool)
      requires input.files != [] && parser.Shape() && YyLen(r) <= parser.yyvsp
      modifies this`macros, this`counted, input
      ensures input.files != [] && (Now(), fails) == Spec.Action(env, old(Now()), r, parser.vals, n)
    {
      fails := false;
      if r == Spec.ERROR_RULE {
        Report();
      } else if r == INCLUDE_RULE {
        var content := env.open(Spec.TextOf(parser.yyvs[parser.yyvsp]));
        var ok := input.IncludeFile(content);
        if !ok {
          counted := counted + 1;
          fails := true;
        }
      } else if r == Spec.VARSET_RULE {
        var name := Spec.TextOf(parser.yyvs[parser.yyvsp - 2]);
        if name !in env.fixed {
          macros := macros[name := Spec.TextOf(parser.yyvs[parser.yyvsp])];
        }
      } else if MayFail(r) && env.fails(n) {
        if r != Spec.SCHEMA_RULE {
          Report();
        }
        fails := true;
      }
    }

    /** The reduction that goes without a token, up to its pop. */
    method ByDefault(n: nat) returns (inp: Input<Spec.Value>)
      requires Valid() && status == Driver.Continue && YyDefred(parser.yystate) != 0
      modifies this`macros, this`lval, this`counted, this`tokens, input
      ensures input.files != [] && (Now(), inp) == Spec.ByDefault(env, old(Now()), n)
    {
      ghost var c, m := Now(), parser.Abs();
      var r := YyDefred(parser.yystate);
      RuleFitsStack(TABLES, Below, m, r);
      var fails := Act(r, n);
      DefaultIs(env, c, n, r, Now(), fails);
      var home := !(fails && MayFail(r)) && parser.yyss[parser.yyssp - YyLen(r)] == 0 && YyLhs(r) == 0;
      assert home == ReturnsHome(TABLES, m, fails);
      var next := 0;
      if parser.yychar < 0 && home {
        next := Scan();
      }
      inp := Input(next, lval, fails, Lexer.Nothing);
    }

    /** What happens on a token besides the stacks. */
    method OnChar(token: int, n: nat) returns (fails: bool)
      requires Valid() && status == Driver.Continue && token >= 0
      modifies this`macros, this`counted, input
      ensures input.files != [] && (Now(), fails) == Spec.OnToken(env, old(Now()), token, n)
    {
      fails := false;
      if TABLES.Shift(parser.yystate, token).None? {
        var r := TABLES.Reduction(parser.yystate, token);
        if r.Some? {
          RuleFitsStack(TABLES, Below, parser.Abs(), r.value);
          fails := Act(r.value, n);
        } else if parser.yyerrflag == 0 {
          Report();
        }
      }
    }

    method ByToken(n: nat) returns (inp: Input<Spec.Value>)
      requires Valid() && status == Driver.Continue && YyDefred(parser.yystate) == 0
      modifies this`macros, this`lval, this`counted, this`tokens, input
      ensures input.files != [] && (Now(), inp) == Spec.ByToken(env, old(Now()), n)
    {
      ghost var c := Now();
      var next := parser.yychar;
      if next < 0 {
        next := Scan();
      }
      TokenIs(env, c, n, next, Now());
      var read := lval;
      var fails := OnChar(Lookahead(parser.yychar, next), n);
      inp := Input(next, read, fails, Lexer.Nothing);
    }

    method Around(n: nat) returns (inp: Input<Spec.Value>)
      requires Valid() && status == Driver.Continue
      modifies this`macros, this`lval, this`counted, this`tokens, input
      ensures input.files != [] && (Now(), inp) == Spec.Around(env, old(Now()), n)
    {
      if YyDefred(parser.yystate) != 0 {
        inp := ByDefault(n);
      } else {
        inp := ByToken(n);
      }
    }

    /** The parser's own part. */
    method Pass(inp: Input<Spec.Value>) returns (ghost o: Outcome<Spec.Value>)
      requires Valid() && status == Driver.Continue
      modifies this`status, parser, parser.yyss, parser.yyvs
      ensures parser.yyss == old(parser.yyss) || fresh(parser.yyss)
      ensures parser.yyvs == old(parser.yyvs) || fresh(parser.yyvs)
      ensures Valid() && o == Step(TABLES, Below, old(parser.Abs()), inp) && Now() == old(Now()).(out := o)
    {
      o := Step(TABLES, Below, parser.Abs(), inp);
      status := parser.Step(inp);
      assert o == Driver.Ended(status, parser.Abs()) && InvOutcome(TABLES, Below, o);
    }

    /** And the report of a full stack. */
    method Finish(ghost c: Spec.Config)
      requires Valid() && c.input.files != [] && Now() == c.(out := Now().out)
      modifies this`counted, input
      ensures Valid() && Now() == Spec.Ended(c, old(Now().out))
    {
      if status == Driver.Full {
        Report();
      }
    }

    /** One pass of yyparse from yyloop, with what it calls. */
    method Advance(n: nat)
      requires Valid()
      modifies this`macros, this`lval, this`counted, this`tokens, this`status, input, parser, parser.yyss, parser.yyvs
      ensures parser.yyss == old(parser.yyss) || fresh(parser.yyss)
      ensures parser.yyvs == old(parser.yyvs) || fresh(parser.yyvs)
      ensures Valid() && Now() == Spec.Advance(env, old(Now()), n)
    {
      if status == Driver.Continue {
        var inp := Around(n);
        ghost var c := Now();
        ghost var o := Pass(inp);
        Finish(c);
      }
    }

    /** One pass more. */
    method Again(ghost content: seq<Files.Byte>, n: nat) returns (next: nat)
      requires Valid() && Now() == Spec.After(env, content, n)
      modifies this`macros, this`lval, this`counted, this`tokens, this`status, input, parser, parser.yyss, parser.yyvs
      ensures parser.yyss == old(parser.yyss) || fresh(parser.yyss)
      ensures parser.yyvs == old(parser.yyvs) || fresh(parser.yyvs)
      ensures Valid() && next == n + 1 && Now() == Spec.After(env, content, next)
    {
      ghost var c := Now();
      Advance(n);
      next := n + 1;
      Spec.AfterNext(env, content, n, next, c);
    }

    /** `n` passes of yyparse. */
    method Yyparse(ghost content: seq<Files.Byte>, n: nat)
      requires Valid() && Now() == Spec.After(env, content, 0)
      modifies this`macros, this`lval, this`counted, this`tokens, this`status, input, parser, parser.yyss, parser.yyvs
      ensures Valid() && Now() == Spec.After(env, content, n)
    {
      var i := 0;
      while i != n
        invariant i <= n && Valid() && Now() == Spec.After(env, content, i)
        invariant parser.yyss == old(parser.yyss) || fresh(parser.yyss)
        invariant parser.yyvs == old(parser.yyvs) || fresh(parser.yyvs)
      {
        i := Again(content, i);
      }
    }

    /** What parse_config returns once the parse has ended. */
    method Result() returns (done: bool, r: int)
      requires Valid()
      ensures done == !Now().out.Running? && (done ==> r == Files.Verdict(Now().input))
    {
      var errors := input.files[|input.files| - 1].errors;
      return status != Driver.Continue, if errors != 0 then -1 else 0;
    }
  }

  /**
    parse_config, given `n` steps: -1 if the file cannot be opened, and else the verdict once
    the parse has ended.
   */
  method ParseConfig(env: Spec.Env, content: Option<seq<Files.Byte>>, n: nat) returns (done: bool, r: int)
    ensures content.None? ==> done && r == -1
    ensures content.Some? ==>
              var c := Spec.After(env, content.value, n);
              done == !c.out.Running? && (done ==> r == Files.Verdict(c.input))
  {
    if content.None? {
      return true, -1;
    }
    var p := new ConfigParser(env, content.value);
    Spec.AfterNone(env, content.value);
    p.Yyparse(content.value, n);
    done, r := p.Result();
  }
}
