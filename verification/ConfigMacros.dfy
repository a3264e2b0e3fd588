/**
  Macro definitions of the configuration language (ifconfigctl/parse.c): a line `name = text`
  makes the macro stand for that text in all that follows, unless it was given on the command
  line.
 */
module ConfigMacros {
  import opened Numbers
  import opened LrMachine
  import opened LrGrammar
  import opened ConfigTables
  import opened ConfigParse
  import opened ConfigGrammar
  import opened ConfigRun
  import Files = ConfigFiles
  import Lexer = ConfigLexer

  // ----- Steps that shift

  /** Nothing but the parser has changed, and that has shifted. */
  ghost predicate Shifted(c: Config, d: Config, to: int, v: Value) {
    && Valid(d) && d.out.Running? && d.out.m.token == -1
    && d.out.m.stack == c.out.m.stack + [to] && d.out.m.vals == c.out.m.vals + [v]
  }

  lemma ShiftMachine(m: Machine<Value>, inp: Input<Value>, to: int)
    requires Certified(TABLES, Below) && Inv(TABLES, Below, m) && YyDefred(Top(m.stack)) == 0
    requires TABLES.Shift(Top(m.stack), Lookahead(m.token, inp.next)) == Some(to)
    ensures var o := Step(TABLES, Below, m, inp);
            && o.Running? && o.m.token == -1 && o.m.stack == m.stack + [to] && o.m.vals == m.vals + [inp.lval]
  {
    NeverFull(Step(TABLES, Below, m, inp));
  }

  /** The token at hand is shifted. */
  lemma ShiftHeld(env: Env, c: Config, n: nat, to: int)
    requires Valid(c) && c.out.Running? && YyDefred(Top(c.out.m.stack)) == 0
    requires c.out.m.token > 0 && TABLES.Shift(Top(c.out.m.stack), c.out.m.token) == Some(to)
    ensures var d := Advance(env, c, n);
            Shifted(c, d, to, c.lval) && d.input == c.input && d.macros == c.macros && d.counted == c.counted
  {
    ShiftMachine(c.out.m, Around(env, c, n).1, to);
  }

  /** The next token is read and shifted. */
  lemma ShiftRead(env: Env, c: Config, n: nat, x: Lexer.Lexeme, to: int)
    requires Valid(c) && c.out.Running? && YyDefred(Top(c.out.m.stack)) == 0 && c.out.m.token < 0
    requires x == Lexer.Lex(c.input, c.macros) && x.token > 0 && TABLES.Shift(Top(c.out.m.stack), x.token) == Some(to)
    ensures var d := Advance(env, c, n);
            && Shifted(c, d, to, if x.value.Some? then x.value.value else c.lval)
            && d.input == x.input && d.macros == c.macros && d.counted == c.counted + x.errors
  {
    ShiftMachine(c.out.m, Around(env, c, n).1, to);
  }

  // ----- The line

  lemma LineTables()
    ensures YyDefred(1) == 0 && YyDefred(12) == 0 && YyDefred(29) == 0 && YyDefred(45) == VARSET_RULE
    ensures TABLES.Shift(1, STRING) == Some(12) && TABLES.Shift(12, EQUALS) == Some(29)
    ensures TABLES.Shift(29, STRING) == Some(45) && YyLen(VARSET_RULE) == 3 && !MayFail(VARSET_RULE)
    ensures YyLhs(VARSET_RULE) == 15
  {
  }

  /** The definition is reduced: the macro has its text. */
  lemma Defines(env: Env, c: Config, n: nat, name: seq<int>, e: Value, text: seq<int>)
    requires Valid(c) && c.out.Running? && Top(c.out.m.stack) == 45 && |c.out.m.stack| > 4
    requires c.out.m.vals[|c.out.m.vals| - 3..] == [Lexer.Text(name), e, Lexer.Text(text)]
    ensures var d := Advance(env, c, n);
            && d.input == c.input && d.counted == c.counted && d.out.Running?
            && d.macros == if name in env.fixed then c.macros else c.macros[name := text]
  {
    LineTables();
    var m := c.out.m;
    RuleFitsStack(TABLES, Below, m, VARSET_RULE);
    var vals := m.vals[|m.vals| - 3..];
    assert m.vals[|m.vals| - 3] == vals[0] && m.vals[|m.vals| - 1] == vals[2];
    NeverFull(Advance(env, c, n).out);
  }

  ghost predicate IsStep(env: Env, c: Config, n: nat, d: Config) {
    Valid(c) && d == Advance(env, c, n)
  }

  lemma NameShifted(env: Env, c: Config, i: nat, d1: Config)
    requires IsStep(env, c, i, d1)
    requires c.out.Running? && c.out.m.stack == [0, 1] && c.out.m.token == STRING
    ensures Shifted(c, d1, 12, c.lval) && d1.input == c.input && d1.macros == c.macros && d1.counted == c.counted
    ensures d1.out.m.stack == [0, 1, 12]
  {
    LineTables();
    ShiftHeld(env, c, i, 12);
  }

  lemma NameThenEquals(env: Env, c: Config, i: nat, d1: Config, j: nat, d2: Config, e: Lexer.Lexeme)
    requires IsStep(env, c, i, d1) && IsStep(env, d1, j, d2)
    requires c.out.Running? && c.out.m.stack == [0, 1] && c.out.m.token == STRING
    requires e == Lexer.Lex(c.input, c.macros) && e.token == EQUALS && e.value.None? && e.errors == 0
    ensures Valid(d2) && d2.out.Running? && d2.out.m.stack == [0, 1, 12, 29] && d2.out.m.token == -1
    ensures d2.out.m.vals == c.out.m.vals + [c.lval] + [d1.lval]
    ensures d2.input == e.input && d2.macros == c.macros && d2.counted == c.counted
  {
    NameShifted(env, c, i, d1);
    LineTables();
    ShiftRead(env, d1, j, e, 29);
  }

  lemma TextShifted(env: Env, d2: Config, k: nat, d3: Config, t: Lexer.Lexeme, text: seq<int>)
    requires IsStep(env, d2, k, d3)
    requires d2.out.Running? && d2.out.m.stack == [0, 1, 12, 29] && d2.out.m.token == -1
    requires t == Lexer.Lex(d2.input, d2.macros) && t.token == STRING && t.value == Some(Lexer.Text(text))
    ensures Shifted(d2, d3, 45, Lexer.Text(text)) && d3.input == t.input && d3.macros == d2.macros
    ensures d3.counted == d2.counted + t.errors
  {
    LineTables();
    ShiftRead(env, d2, k, t, 45);
  }

  lemma TextThenDefined(env: Env, d2: Config, k: nat, d3: Config, l: nat, d: Config, vals: seq<Value>, name: seq<int>,
                        e: Value, t: Lexer.Lexeme, text: seq<int>)
    requires IsStep(env, d2, k, d3) && IsStep(env, d3, l, d)
    requires d2.out.Running? && d2.out.m.stack == [0, 1, 12, 29] && d2.out.m.token == -1
    requires d2.out.m.vals == vals + [Lexer.Text(name)] + [e]
    requires t == Lexer.Lex(d2.input, d2.macros) && t.token == STRING && t.value == Some(Lexer.Text(text))
    ensures d.input == t.input && d.counted == d2.counted + t.errors && d.out.Running?
    ensures d.macros == if name in env.fixed then d2.macros else d2.macros[name := text]
  {
    TextShifted(env, d2, k, d3, t, text);
    assert d3.out.m.stack == [0, 1, 12, 29, 45];
    ThreeValues(vals, Lexer.Text(name), e, Lexer.Text(text), d3.out.m.vals);
    Defines(env, d3, l, name, e, text);
  }

  /**
    A line that defines a macro, from its first word on: after four steps the macro stands for
    the text, no error was counted, and what follows is still to be read.
   */
  lemma LineDefines(env: Env, c: Config, i: nat, d1: Config, j: nat, d2: Config, k: nat, d3: Config, l: nat,
                    d: Config, name: seq<int>, e: Lexer.Lexeme, t: Lexer.Lexeme, text: seq<int>)
    requires IsStep(env, c, i, d1) && IsStep(env, d1, j, d2) && IsStep(env, d2, k, d3) && IsStep(env, d3, l, d)
    requires c.out.Running? && c.out.m.stack == [0, 1] && c.out.m.token == STRING && c.lval == Lexer.Text(name)
    requires e == Lexer.Lex(c.input, c.macros) && e.token == EQUALS && e.value.None? && e.errors == 0
    requires t == Lexer.Lex(e.input, c.macros) && t.token == STRING && t.errors == 0
    requires t.value == Some(Lexer.Text(text))
    ensures d.input == t.input && d.counted == c.counted && d.out.Running?
    ensures d.macros == if name in env.fixed then c.macros else c.macros[name := text]
  {
    NameThenEquals(env, c, i, d1, j, d2, e);
    TextThenDefined(env, d2, k, d3, l, d, c.out.m.vals, name, d1.lval, t, text);
  }

  lemma ThreeValues(vals: seq<Value>, a: Value, b: Value, c: Value, all: seq<Value>)
    requires all == vals + [a] + [b] + [c]
    ensures all[|all| - 3..] == [a, b, c]
  {
  }
}
