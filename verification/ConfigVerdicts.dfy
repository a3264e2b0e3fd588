/**
  When parse_config says that all is well although it is not (ifconfigctl/parse.c), on the
  parse as a whole.

  A NUL or an 8-bit character directly behind the unquoted name of an included file ends
  the parse inside that file, and the errors counted before it go unnoticed; over 7-bit text
  without NULs this cannot happen.  And a schema that cannot be read, on a last line
  without a line end, goes unnoticed on any text.
 */
module ConfigVerdicts {
  import opened Numbers
  import opened LrMachine
  import opened LrGrammar
  import opened ConfigTables
  import opened ConfigParse
  import opened ConfigRun
  import Files = ConfigFiles
  import Lexer = ConfigLexer
  import Token = ConfigGrammar

  // ----- What the scanner makes of some texts

  /** Outside macro text. */
  function At(files: seq<Files.File>, pushback: seq<int>): State {
    Files.State(files, pushback, None, 0)
  }

  /** Only the top file is open, with this left to read. */
  function OnTop(rest: seq<Byte>, errors: nat): State {
    At([Files.File(rest, errors)], [])
  }

  lemma ReadOnTop(rest: seq<Byte>, errors: nat)
    requires rest != [] && rest[0] != Files.BACKSLASH
    ensures Files.Got(OnTop(rest, errors), 0) == (rest[0], OnTop(rest[1..], errors))
  {
    assert Files.WithLast(OnTop(rest, errors).files, Files.File(rest[1..], errors)) == [Files.File(rest[1..], errors)];
  }

  lemma ReadPushback(files: seq<Files.File>, pushback: seq<int>, below: seq<int>, c: int)
    requires files != [] && pushback == below + [c]
    ensures Files.Got(At(files, pushback), 0) == (c, At(files, below))
  {
    assert pushback[..|below|] == below;
  }

  /** A character that is a token by itself, or ends the input. */
  predicate Alone(c: int) {
    && !Lexer.IsBlank(c) && c !in {Lexer.HASH, Lexer.DOLLAR, Lexer.SINGLE_QUOTE, Lexer.DOUBLE_QUOTE, Lexer.MINUS}
    && !Lexer.StartsWord(c)
  }

  lemma LexAlone(s: State, macros: Lexer.Macros, c: int, t: State)
    requires s.files != [] && Files.Got(s, 0) == (c, t) && Alone(c)
    ensures Lexer.Lex(s, macros) == Lexer.Lexeme(if c == Files.EOF then 0 else c, None, t, 0)
  {
  }

  lemma LexBlank(s: State, macros: Lexer.Macros, c: int, t: State)
    requires s.files != [] && Files.Got(s, 0) == (c, t) && Lexer.IsBlank(c)
    ensures t.files != [] && Lexer.Lex(s, macros) == Lexer.Lex(t, macros)
  {
  }

  /** Lower-case letters. */
  predicate IsWord(w: seq<Byte>) {
    w != [] && IsLetters(w)
  }

  lemma ScanOne(s: State, c: int, t: State, buf: seq<int>)
    requires s.files != [] && Files.Got(s, 0) == (c, t) && |buf| < Lexer.BUFSIZE && -128 <= c < 128
    ensures t.files != []
    ensures Lexer.AllowedInString(c) ==>
              Lexer.Scan(s, buf, Lexer.AllowedInString) == Lexer.Scan(t, buf + [c], Lexer.AllowedInString)
  {
  }

  lemma ScanStops(s: State, c: int, t: State, buf: seq<int>)
    requires s.files != [] && Files.Got(s, 0) == (c, t) && |buf| < Lexer.BUFSIZE && !Lexer.AllowedInString(c)
    ensures Lexer.Scan(s, buf, Lexer.AllowedInString) == Lexer.Upto(buf, c, t)
  {
  }

  predicate IsLetters(w: seq<Byte>) {
    forall i :: 0 <= i < |w| ==> 97 <= w[i] <= 122
  }

  /** Where the word ends, and one letter of it. */
  lemma ScanEnd(d: Byte, rest: seq<Byte>, errors: nat, buf: seq<int>)
    requires |buf| < Lexer.BUFSIZE && !Lexer.AllowedInString(d) && d != Files.BACKSLASH
    ensures Lexer.Scan(OnTop([d] + rest, errors), buf, Lexer.AllowedInString) == Lexer.Upto(buf, d, OnTop(rest, errors))
  {
    ReadOnTop([d] + rest, errors);
    assert ([d] + rest)[1..] == rest;
    ScanStops(OnTop([d] + rest, errors), d, OnTop(rest, errors), buf);
  }

  lemma ScanLetter(c: Byte, rest: seq<Byte>, errors: nat, buf: seq<int>)
    requires |buf| < Lexer.BUFSIZE && 97 <= c <= 122
    ensures Lexer.Scan(OnTop([c] + rest, errors), buf, Lexer.AllowedInString)
            == Lexer.Scan(OnTop(rest, errors), buf + [c], Lexer.AllowedInString)
  {
    ReadOnTop([c] + rest, errors);
    assert ([c] + rest)[1..] == rest;
    ScanOne(OnTop([c] + rest, errors), c, OnTop(rest, errors), buf);
  }

  lemma WordParts(w: seq<Byte>, d: Byte, rest: seq<Byte>, buf: seq<int>)
    ensures w == [] ==> w + [d] + rest == [d] + rest && buf + w == buf
    ensures w != [] ==> w + [d] + rest == [w[0]] + (w[1..] + [d] + rest) && buf + [w[0]] + w[1..] == buf + w
  {
  }

  lemma {:induction false} ScanWord(w: seq<Byte>, d: Byte, rest: seq<Byte>, errors: nat, buf: seq<int>)
    requires IsLetters(w) && |buf| + |w| < Lexer.BUFSIZE && !Lexer.AllowedInString(d) && d != Files.BACKSLASH
    ensures Lexer.Scan(OnTop(w + [d] + rest, errors), buf, Lexer.AllowedInString)
            == Lexer.Upto(buf + w, d, OnTop(rest, errors))
    decreases |w|
  {
    WordParts(w, d, rest, buf);
    if w == [] {
      ScanEnd(d, rest, errors, buf);
    } else {
      ScanLetter(w[0], w[1..] + [d] + rest, errors, buf);
      ScanWord(w[1..], d, rest, errors, buf + [w[0]]);
    }
  }

  function WordLexeme(w: seq<Byte>, t: State): Lexer.Lexeme {
    var token := Lexer.Lookup(w);
    Lexer.Lexeme(token, if token == Token.STRING then Some(Lexer.Text(w)) else None, t, 0)
  }

  lemma {:induction false} CStringOfWord(w: seq<Byte>)
    requires IsLetters(w)
    ensures Lexer.CString(w) == w
    decreases |w|
  {
    if w != [] {
      CStringOfWord(w[1..]);
    }
  }

  lemma LexLetter(s: State, macros: Lexer.Macros, c: int, t: State)
    requires s.files != [] && Files.Got(s, 0) == (c, t) && 97 <= c <= 122
    ensures Lexer.Lex(s, macros) == Lexer.Word(t, c)
  {
  }

  lemma WordFrom(w: seq<Byte>, d: Byte, rest: seq<Byte>, errors: nat)
    requires IsWord(w) && |w| < Lexer.BUFSIZE - 1 && !Lexer.AllowedInString(d) && d != Files.BACKSLASH
    ensures Lexer.Word(OnTop(w[1..] + [d] + rest, errors), w[0])
            == WordLexeme(w, At([Files.File(rest, errors)], [Files.AsChar(d)]))
  {
    ScanWord(w[1..], d, rest, errors, [w[0]]);
    assert [w[0]] + w[1..] == w;
    CStringOfWord(w);
    assert [] + [Files.AsChar(d)] == [Files.AsChar(d)];
  }

  /** A word: the character behind it is put back. */
  lemma LexWord(w: seq<Byte>, d: Byte, rest: seq<Byte>, errors: nat, macros: Lexer.Macros)
    requires IsWord(w) && |w| < Lexer.BUFSIZE - 1 && !Lexer.AllowedInString(d) && d != Files.BACKSLASH
    ensures Lexer.Lex(OnTop(w + [d] + rest, errors), macros)
            == WordLexeme(w, At([Files.File(rest, errors)], [Files.AsChar(d)]))
  {
    var text := w + [d] + rest;
    ReadOnTop(text, errors);
    assert text[1..] == w[1..] + [d] + rest;
    LexLetter(OnTop(text, errors), macros, w[0], OnTop(text[1..], errors));
    WordFrom(w, d, rest, errors);
  }

  // ----- Steps of a parse

  ghost predicate Is(env: Env, c: Config, input: State, stack: seq<int>, token: int, errflag: nat, counted: nat) {
    && c.input == input && c.macros == env.fixed && c.counted == counted && c.out.Running?
    && c.out.m.stack == stack && c.out.m.token == token && c.out.m.errflag == errflag
  }

  lemma LineReduced(m: Machine<Value>, inp: Input<Value>, r: int)
    requires Certified(TABLES, Below) && Inv(TABLES, Below, m) && m.token < 0
    requires r == YyDefred(Top(m.stack)) && r in {1, 3, ERROR_RULE} && |m.stack| == 1 + YyLen(r)
    ensures var o, c := Step(TABLES, Below, m, inp), Lookahead(m.token, inp.next);
            && o == (if c == 0 then Accepted(o.m) else Running(o.m))
            && o.m.stack == [0, 1] && o.m.token == c && o.m.errflag == m.errflag
  {
    RuleFitsStack(TABLES, Below, m, r);
    var p := Pop(m, YyLen(r));
    assert p.stack == [0];
  }

  lemma LineAction(env: Env, c: Config, r: int, vals: seq<Value>, n: nat)
    requires c.input.files != [] && YyLen(r) <= |vals| && r in {1, 3, ERROR_RULE}
    ensures Action(env, c, r, vals, n) == (if r == ERROR_RULE then Report(c) else c, false)
  {
  }

  lemma LineHome(m: Machine<Value>, r: int)
    requires Inv(TABLES, Below, m) && r == YyDefred(Top(m.stack))
    requires r in {1, 3, ERROR_RULE} && |m.stack| == 1 + YyLen(r)
    ensures Fits(TABLES, m, r) && ReturnsHome(TABLES, m, false)
  {
  }

  lemma LineActs(env: Env, c: Config, n: nat, r: int)
    requires Valid(c) && c.out.m.token < 0
    requires r == YyDefred(Top(c.out.m.stack)) && r in {1, 3, ERROR_RULE} && |c.out.m.stack| == 1 + YyLen(r)
    ensures var acted := if r == ERROR_RULE then Report(c) else c;
            Around(env, c, n) == (Scan(acted).1, Input(Scan(acted).0, Scan(acted).1.lval, false, Lexer.Nothing))
  {
    LineHome(c.out.m, r);
    LineAction(env, c, r, c.out.m.vals, n);
  }

  /** A line is reduced to the bottom, and the next token is read. */
  lemma LineEnds(env: Env, c: Config, n: nat, s: State, stack: seq<int>, errflag: nat, counted: nat, r: int, s': State)
    requires Valid(c) && Is(env, c, s, stack, -1, errflag, counted) && stack != [] && s.files != []
    requires r == YyDefred(Top(stack)) && r in {1, 3, ERROR_RULE} && |stack| == 1 + YyLen(r)
    requires s' == if r == ERROR_RULE then Files.Reported(s) else s
    ensures var x, d := Lexer.Lex(s', env.fixed), Advance(env, c, n);
            var k := counted + x.errors + if r == ERROR_RULE then 1 else 0;
            if x.token > 0 then Is(env, d, x.input, [0, 1], x.token, errflag, k)
            else d.out.Accepted? && d.input == x.input && d.counted == k
  {
    LineActs(env, c, n, r);
    LineReduced(c.out.m, Around(env, c, n).1, r);
  }

  lemma ShiftsNext(env: Env, c: Config, n: nat, s: State, stack: seq<int>, errflag: nat, counted: nat, to: int)
    requires Valid(c) && Is(env, c, s, stack, -1, errflag, counted) && stack != [] && s.files != [] && |stack| < 10
    requires var x := Lexer.Lex(s, env.fixed);
             YyDefred(Top(stack)) == 0 && x.token > 0 && TABLES.Shift(Top(stack), x.token) == Some(to)
    ensures var x, d := Lexer.Lex(s, env.fixed), Advance(env, c, n);
            && Is(env, d, x.input, stack + [to], -1, if errflag > 0 then errflag - 1 else 0, counted + x.errors)
            && (x.value.Some? ==> d.out.m.vals[|d.out.m.vals| - 1] == x.value.value)
  {
  }

  lemma ShiftsHeld(env: Env, c: Config, n: nat, s: State, stack: seq<int>, token: int, errflag: nat, counted: nat,
                   to: int)
    requires Valid(c) && Is(env, c, s, stack, token, errflag, counted) && stack != [] && token > 0 && |stack| < 10
    requires YyDefred(Top(stack)) == 0 && TABLES.Shift(Top(stack), token) == Some(to)
    ensures Is(env, Advance(env, c, n), s, stack + [to], -1, if errflag > 0 then errflag - 1 else 0, counted)
  {
  }

  lemma ErrorTables(c: int)
    requires c == 41
    ensures YyDefred(1) == 0 && YyDefred(2) == 0 && TABLES.Shift(1, c) == None && TABLES.Reduction(1, c) == None
    ensures TABLES.Shift(2, c) == None && TABLES.Reduction(2, c) == None && TABLES.Shift(1, YYERRCODE) == Some(2)
  {
  }

  /** A closing parenthesis starts no line: the error is counted and its token shifted, then the parenthesis dropped. */
  lemma Errs(env: Env, c: Config, n: nat, s: State)
    requires Valid(c) && Is(env, c, s, [0, 1], 41, 0, 0) && s.files != []
    ensures Is(env, Advance(env, c, n), Files.Reported(s), [0, 1, 2], 41, 3, 1)
  {
    ErrorTables(41);
  }

  lemma Drops(env: Env, c: Config, n: nat, s: State, counted: nat)
    requires Valid(c) && Is(env, c, s, [0, 1, 2], 41, 3, counted)
    ensures Is(env, Advance(env, c, n), s, [0, 1, 2], -1, 3, counted)
  {
    ErrorTables(41);
  }

  lemma Includes(env: Env, c: Config, n: nat, s: State, name: seq<int>, content: seq<Byte>, errflag: nat, counted: nat)
    requires Valid(c) && Is(env, c, s, [0, 1, 8, INCLUDE_NAMED], -1, errflag, counted) && s.files != []
    requires c.out.m.vals[|c.out.m.vals| - 1] == Lexer.Text(name) && env.open(name) == Some(content)
    ensures Is(env, Advance(env, c, n), Files.Included(s, content), [0, 1, 16], -1, errflag, counted)
  {
    RuleFitsStack(TABLES, Below, c.out.m, INCLUDE_RULE);
    NextIsGoto(1, INCLUDE_RULE);
    assert Pop(c.out.m, 2).stack == [0, 1];
  }

  // ----- A file that loses its errors

  const INCLUDE_WORD: seq<Byte> := [105, 110, 99, 108, 117, 100, 101]

  /** A faulty line, and behind it an include with a character directly behind the name. */
  function Losing(name: seq<Byte>, b: Byte, rest: seq<Byte>): seq<Byte> {
    [41] + ([10] + (INCLUDE_WORD + [32] + (name + [b] + rest)))
  }

  predicate IsBad(b: Byte) {
    b == 0 || b >= 128
  }

  lemma ReportedOnTop(rest: seq<Byte>, errors: nat)
    ensures Files.Reported(OnTop(rest, errors)) == OnTop(rest, errors + 1)
  {
    assert Files.Counted([Files.File(rest, errors)]) == [Files.File(rest, errors + 1)];
  }

  lemma LexOne(c: Byte, rest: seq<Byte>, errors: nat, macros: Lexer.Macros)
    requires Alone(c) && c != Files.BACKSLASH
    ensures Lexer.Lex(OnTop([c] + rest, errors), macros) == Lexer.Lexeme(c, None, OnTop(rest, errors), 0)
  {
    ReadOnTop([c] + rest, errors);
    assert ([c] + rest)[1..] == rest;
    LexAlone(OnTop([c] + rest, errors), macros, c, OnTop(rest, errors));
  }

  lemma FaultyTables()
    ensures YyDefred(0) == 1 && YyLen(1) == 0 && YyDefred(21) == ERROR_RULE && YyLen(ERROR_RULE) == 3
    ensures YyDefred(2) == 0 && TABLES.Shift(2, 10) == Some(21)
  {
  }

  lemma OneMore(env: Env, doc: seq<Byte>, n: nat)
    ensures After(env, doc, n + 1) == Advance(env, After(env, doc, n), n)
  {
  }

  lemma LineNext(env: Env, doc: seq<Byte>, n: nat, s: State, stack: seq<int>, errflag: nat, counted: nat, r: int,
                 x: Lexer.Lexeme)
    requires Is(env, After(env, doc, n), s, stack, -1, errflag, counted) && stack != [] && s.files != []
    requires r == YyDefred(Top(stack)) && r in {1, 3, ERROR_RULE} && |stack| == 1 + YyLen(r)
    requires x == Lexer.Lex(if r == ERROR_RULE then Files.Reported(s) else s, env.fixed) && x.errors == 0
    ensures var d, k := After(env, doc, n + 1), counted + if r == ERROR_RULE then 1 else 0;
            if x.token > 0 then Is(env, d, x.input, [0, 1], x.token, errflag, k)
            else d.out.Accepted? && d.input == x.input && d.counted == k
  {
    OneMore(env, doc, n);
    var t := if r == ERROR_RULE then Files.Reported(s) else s;
    LineEnds(env, After(env, doc, n), n, s, stack, errflag, counted, r, t);
  }

  lemma ShiftNext(env: Env, doc: seq<Byte>, n: nat, s: State, stack: seq<int>, errflag: nat, counted: nat,
                  x: Lexer.Lexeme, to: int)
    requires Is(env, After(env, doc, n), s, stack, -1, errflag, counted) && stack != [] && s.files != [] && |stack| < 10
    requires x == Lexer.Lex(s, env.fixed) && x.errors == 0 && x.token > 0
    requires YyDefred(Top(stack)) == 0 && TABLES.Shift(Top(stack), x.token) == Some(to)
    ensures var d := After(env, doc, n + 1);
            && Is(env, d, x.input, stack + [to], -1, if errflag > 0 then errflag - 1 else 0, counted)
            && (x.value.Some? ==> d.out.m.vals[|d.out.m.vals| - 1] == x.value.value)
  {
    OneMore(env, doc, n);
    ShiftsNext(env, After(env, doc, n), n, s, stack, errflag, counted, to);
  }

  lemma FirstToken(env: Env, doc: seq<Byte>, n: nat, t: seq<Byte>)
    requires Is(env, After(env, doc, n), OnTop([41] + t, 0), [0], -1, 0, 0)
    ensures Is(env, After(env, doc, n + 1), OnTop(t, 0), [0, 1], 41, 0, 0)
  {
    FaultyTables();
    LexOne(41, t, 0, env.fixed);
    LineNext(env, doc, n, OnTop([41] + t, 0), [0], 0, 0, 1, Lexer.Lexeme(41, None, OnTop(t, 0), 0));
  }

  lemma FirstError(env: Env, doc: seq<Byte>, n: nat, t: seq<Byte>)
    requires Is(env, After(env, doc, n), OnTop(t, 0), [0, 1], 41, 0, 0)
    ensures Is(env, After(env, doc, n + 1), OnTop(t, 1), [0, 1, 2], 41, 3, 1)
  {
    OneMore(env, doc, n);
    ReportedOnTop(t, 0);
    Errs(env, After(env, doc, n), n, OnTop(t, 0));
  }

  lemma Dropped(env: Env, doc: seq<Byte>, n: nat, s: State)
    requires Is(env, After(env, doc, n), s, [0, 1, 2], 41, 3, 1)
    ensures Is(env, After(env, doc, n + 1), s, [0, 1, 2], -1, 3, 1)
  {
    OneMore(env, doc, n);
    Drops(env, After(env, doc, n), n, s, 1);
  }

  lemma FaultyEnd(env: Env, doc: seq<Byte>, n: nat, t: seq<Byte>)
    requires Is(env, After(env, doc, n), OnTop([10] + t, 1), [0, 1, 2], -1, 3, 1)
    ensures Is(env, After(env, doc, n + 1), OnTop(t, 1), [0, 1, 2, 21], -1, 2, 1)
  {
    FaultyTables();
    LexOne(10, t, 1, env.fixed);
    ShiftNext(env, doc, n, OnTop([10] + t, 1), [0, 1, 2], 3, 1, Lexer.Lexeme(10, None, OnTop(t, 1), 0), 21);
    assert [0, 1, 2] + [21] == [0, 1, 2, 21];
  }

  lemma {:induction false} SearchFinds(w: string, i: nat, j: nat)
    requires i <= j < |Lexer.KEYWORDS| && Lexer.KEYWORDS[j].0 == w
    requires forall k :: i <= k < j ==> Lexer.KEYWORDS[k].0 != w
    ensures Lexer.Search(w, i) == Lexer.KEYWORDS[j].1
    decreases j - i
  {
    if i < j {
      SearchFinds(w, i + 1, j);
    }
  }

  lemma {:induction false} SearchMisses(w: string, i: nat)
    requires i <= |Lexer.KEYWORDS| && forall k :: i <= k < |Lexer.KEYWORDS| ==> Lexer.KEYWORDS[k].0 != w
    ensures Lexer.Search(w, i) == Token.STRING
    decreases |Lexer.KEYWORDS| - i
  {
    if i < |Lexer.KEYWORDS| {
      SearchMisses(w, i + 1);
    }
  }

  lemma KeywordsLong(k: nat)
    requires k < |Lexer.KEYWORDS|
    ensures |Lexer.KEYWORDS[k].0| >= 2
  {
  }

  lemma KeywordsBeforeInclude(k: nat)
    requires k < 12
    ensures |Lexer.KEYWORDS| == 37 && Lexer.KEYWORDS[12] == ("include", Token.INCLUDE)
    ensures Lexer.KEYWORDS[k].0 != "include"
  {
    assert |Lexer.KEYWORDS[k].0| != 7;
  }

  lemma IncludeKeyword()
    ensures Lexer.Lookup(INCLUDE_WORD) == Token.INCLUDE && IsWord(INCLUDE_WORD) && |INCLUDE_WORD| == 7
  {
    var w := Lexer.Letters(INCLUDE_WORD);
    assert |w| == |"include"|;
    assert w == "include";
    KeywordsBeforeInclude(0);
    forall k | 0 <= k < 12 ensures Lexer.KEYWORDS[k].0 != w {
      KeywordsBeforeInclude(k);
    }
    SearchFinds(w, 0, 12);
  }

  lemma IncludeTables()
    ensures YyDefred(1) == 0 && TABLES.Shift(1, Token.INCLUDE) == Some(8)
    ensures YyDefred(8) == 0 && TABLES.Shift(8, Token.STRING) == Some(INCLUDE_NAMED)
  {
  }

  lemma IncludeLineTables()
    ensures YyDefred(16) == 0 && TABLES.Shift(16, 10) == Some(38)
  {
  }

  lemma IncludeEndTables()
    ensures YyDefred(38) == 3 && YyLen(3) == 3
  {
  }

  lemma LexInclude(t: seq<Byte>, macros: Lexer.Macros)
    ensures Lexer.Lex(Files.Reported(OnTop(INCLUDE_WORD + [32] + t, 1)), macros)
            == Lexer.Lexeme(Token.INCLUDE, None, At([Files.File(t, 2)], [32]), 0)
  {
    IncludeKeyword();
    LexWord(INCLUDE_WORD, 32, t, 2, macros);
    ReportedOnTop(INCLUDE_WORD + [32] + t, 1);
  }

  /** The line with the error ends, and the word include is read. */
  lemma IncludeRead(env: Env, doc: seq<Byte>, n: nat, t: seq<Byte>)
    requires Is(env, After(env, doc, n), OnTop(INCLUDE_WORD + [32] + t, 1), [0, 1, 2, 21], -1, 2, 1)
    ensures Is(env, After(env, doc, n + 1), At([Files.File(t, 2)], [32]), [0, 1], Token.INCLUDE, 2, 2)
  {
    FaultyTables();
    LexInclude(t, env.fixed);
    LineNext(env, doc, n, OnTop(INCLUDE_WORD + [32] + t, 1), [0, 1, 2, 21], 2, 1, ERROR_RULE,
             Lexer.Lexeme(Token.INCLUDE, None, At([Files.File(t, 2)], [32]), 0));
  }

  lemma IncludeShifted(env: Env, doc: seq<Byte>, n: nat, s: State)
    requires Is(env, After(env, doc, n), s, [0, 1], Token.INCLUDE, 2, 2)
    ensures Is(env, After(env, doc, n + 1), s, [0, 1, 8], -1, 1, 2)
  {
    IncludeTables();
    OneMore(env, doc, n);
    ShiftsHeld(env, After(env, doc, n), n, s, [0, 1], Token.INCLUDE, 2, 2, 8);
    assert [0, 1] + [8] == [0, 1, 8];
  }

  /** A name that is no keyword, with something behind it that is not part of it. */
  predicate IsName(name: seq<Byte>) {
    IsWord(name) && |name| < Lexer.BUFSIZE - 1 && Lexer.Lookup(name) == Token.STRING
  }

  lemma LexBehindBlank(files: seq<Files.File>, macros: Lexer.Macros)
    requires files != []
    ensures Lexer.Lex(At(files, [32]), macros) == Lexer.Lex(At(files, []), macros)
  {
    ReadPushback(files, [32], [], 32);
    LexBlank(At(files, [32]), macros, 32, At(files, []));
  }

  lemma BadEndsWord(b: Byte)
    requires IsBad(b)
    ensures !Lexer.AllowedInString(b) && b != Files.BACKSLASH && Alone(Files.AsChar(b)) && Files.AsChar(b) <= 0
  {
  }

  lemma LexName(name: seq<Byte>, b: Byte, rest: seq<Byte>, errors: nat, macros: Lexer.Macros)
    requires IsName(name) && IsBad(b)
    ensures Lexer.Lex(At([Files.File(name + [b] + rest, errors)], [32]), macros)
            == WordLexeme(name, At([Files.File(rest, errors)], [Files.AsChar(b)]))
  {
    BadEndsWord(b);
    LexBehindBlank([Files.File(name + [b] + rest, errors)], macros);
    LexWord(name, b, rest, errors, macros);
  }

  lemma NameShifted(env: Env, doc: seq<Byte>, n: nat, name: seq<Byte>, b: Byte, rest: seq<Byte>)
    requires IsName(name) && IsBad(b)
    requires Is(env, After(env, doc, n), At([Files.File(name + [b] + rest, 2)], [32]), [0, 1, 8], -1, 1, 2)
    ensures var c := After(env, doc, n + 1);
            && Is(env, c, At([Files.File(rest, 2)], [Files.AsChar(b)]), [0, 1, 8, INCLUDE_NAMED], -1, 0, 2)
            && c.out.m.vals[|c.out.m.vals| - 1] == Lexer.Text(name)
  {
    IncludeTables();
    LexName(name, b, rest, 2, env.fixed);
    ShiftNext(env, doc, n, At([Files.File(name + [b] + rest, 2)], [32]), [0, 1, 8], 1, 2,
              WordLexeme(name, At([Files.File(rest, 2)], [Files.AsChar(b)])), INCLUDE_NAMED);
    assert [0, 1, 8] + [INCLUDE_NAMED] == [0, 1, 8, INCLUDE_NAMED];
  }

  lemma IncludeOpens(rest: seq<Byte>, errors: nat, c: int, content: seq<Byte>)
    ensures Files.Included(At([Files.File(rest, errors)], [c]), content)
            == At([Files.File(rest, errors), Files.File(content, 0)], [c] + [10])
  {
    assert [Files.File(rest, errors)] + [Files.File(content, 0)] == [Files.File(rest, errors), Files.File(content, 0)];
  }

  lemma Opens(env: Env, doc: seq<Byte>, n: nat, name: seq<Byte>, b: Byte, rest: seq<Byte>, content: seq<Byte>)
    requires var c := After(env, doc, n);
             && Is(env, c, At([Files.File(rest, 2)], [Files.AsChar(b)]), [0, 1, 8, INCLUDE_NAMED], -1, 0, 2)
             && c.out.m.vals[|c.out.m.vals| - 1] == Lexer.Text(name)
    requires env.open(name) == Some(content)
    ensures Is(env, After(env, doc, n + 1), At([Files.File(rest, 2), Files.File(content, 0)], [Files.AsChar(b)] + [10]),
               [0, 1, 16], -1, 0, 2)
  {
    OneMore(env, doc, n);
    IncludeOpens(rest, 2, Files.AsChar(b), content);
    Includes(env, After(env, doc, n), n, At([Files.File(rest, 2)], [Files.AsChar(b)]), name, content, 0, 2);
  }

  lemma LexPushback(files: seq<Files.File>, pushback: seq<int>, below: seq<int>, c: int, macros: Lexer.Macros)
    requires files != [] && pushback == below + [c] && Alone(c)
    ensures Lexer.Lex(At(files, pushback), macros) ==
            Lexer.Lexeme(if c == Files.EOF then 0 else c, None, At(files, below), 0)
  {
    ReadPushback(files, pushback, below, c);
    LexAlone(At(files, pushback), macros, c, At(files, below));
  }

  lemma LineShifted(env: Env, doc: seq<Byte>, n: nat, files: seq<Files.File>, pushback: seq<int>, below: seq<int>)
    requires files != [] && pushback == below + [10]
    requires Is(env, After(env, doc, n), At(files, pushback), [0, 1, 16], -1, 0, 2)
    ensures Is(env, After(env, doc, n + 1), At(files, below), [0, 1, 16, 38], -1, 0, 2)
  {
    IncludeLineTables();
    LexPushback(files, pushback, below, 10, env.fixed);
    ShiftNext(env, doc, n, At(files, pushback), [0, 1, 16], 0, 2, Lexer.Lexeme(10, None, At(files, below), 0), 38);
    assert [0, 1, 16] + [38] == [0, 1, 16, 38];
  }

  lemma LexBad(files: seq<Files.File>, b: Byte, macros: Lexer.Macros)
    requires files != [] && IsBad(b)
    ensures var x := Lexer.Lex(At(files, [Files.AsChar(b)]), macros);
            x.token <= 0 && x.input == At(files, []) && x.errors == 0
  {
    BadEndsWord(b);
    LexPushback(files, [Files.AsChar(b)], [], Files.AsChar(b), macros);
  }

  lemma EndsInside(env: Env, doc: seq<Byte>, n: nat, files: seq<Files.File>, b: Byte)
    requires files != [] && IsBad(b)
    requires Is(env, After(env, doc, n), At(files, [Files.AsChar(b)]), [0, 1, 16, 38], -1, 0, 2)
    ensures var c := After(env, doc, n + 1);
            c.out.Accepted? && c.input == At(files, []) && c.counted == 2
  {
    IncludeEndTables();
    LexBad(files, b, env.fixed);
    LineNext(env, doc, n, At(files, [Files.AsChar(b)]), [0, 1, 16, 38], 0, 2, 3,
             Lexer.Lex(At(files, [Files.AsChar(b)]), env.fixed));
  }

  /** From the start to the error on the stack. */
  lemma FaultyLine(env: Env, doc: seq<Byte>, t: seq<Byte>)
    requires doc == [41] + ([10] + t)
    ensures Is(env, After(env, doc, 4), OnTop(t, 1), [0, 1, 2, 21], -1, 2, 1)
  {
    assert Is(env, After(env, doc, 0), OnTop(doc, 0), [0], -1, 0, 0);
    FirstToken(env, doc, 0, [10] + t);
    FirstError(env, doc, 1, [10] + t);
    Dropped(env, doc, 2, OnTop([10] + t, 1));
    FaultyEnd(env, doc, 3, t);
  }

  /** On to the name of the file. */
  lemma IncludeLine(env: Env, doc: seq<Byte>, n: nat, name: seq<Byte>, b: Byte, rest: seq<Byte>)
    requires IsName(name) && IsBad(b)
    requires Is(env, After(env, doc, n), OnTop(INCLUDE_WORD + [32] + (name + [b] + rest), 1), [0, 1, 2, 21], -1, 2, 1)
    ensures var c := After(env, doc, n + 3);
            && Is(env, c, At([Files.File(rest, 2)], [Files.AsChar(b)]), [0, 1, 8, INCLUDE_NAMED], -1, 0, 2)
            && c.out.m.vals[|c.out.m.vals| - 1] == Lexer.Text(name)
  {
    var t := name + [b] + rest;
    IncludeRead(env, doc, n, t);
    IncludeShifted(env, doc, n + 1, At([Files.File(t, 2)], [32]));
    NameShifted(env, doc, n + 2, name, b, rest);
  }

  /** And into it. */
  lemma IncludedFile(env: Env, doc: seq<Byte>, n: nat, name: seq<Byte>, b: Byte, rest: seq<Byte>, content: seq<Byte>)
    requires var c := After(env, doc, n);
             && Is(env, c, At([Files.File(rest, 2)], [Files.AsChar(b)]), [0, 1, 8, INCLUDE_NAMED], -1, 0, 2)
             && c.out.m.vals[|c.out.m.vals| - 1] == Lexer.Text(name)
    requires env.open(name) == Some(content) && IsBad(b)
    ensures var c := After(env, doc, n + 3);
            c.out.Accepted? && c.input == At([Files.File(rest, 2), Files.File(content, 0)], []) && c.counted == 2
  {
    var files := [Files.File(rest, 2), Files.File(content, 0)];
    Opens(env, doc, n, name, b, rest, content);
    LineShifted(env, doc, n + 1, files, [Files.AsChar(b)] + [10], [Files.AsChar(b)]);
    EndsInside(env, doc, n + 2, files, b);
  }

  /**
    A NUL or an 8-bit character behind the name of an included file: the two errors of the
    first line are counted, the parse is accepted inside the included file, whatever that
    holds, and parse_config succeeds.
   */
  lemma BadHidesErrors(env: Env, name: seq<Byte>, b: Byte, rest: seq<Byte>)
    requires IsName(name) && IsBad(b) && env.open(name).Some?
    ensures var c := After(env, Losing(name, b, rest), 10);
            c.out.Accepted? && c.counted == 2 && Files.Verdict(c.input) == 0 && !Right(c)
  {
    var doc := Losing(name, b, rest);
    FaultyLine(env, doc, INCLUDE_WORD + [32] + (name + [b] + rest));
    IncludeLine(env, doc, 4, name, b, rest);
    IncludedFile(env, doc, 7, name, b, rest, env.open(name).value);
  }

  // ----- The exact condition

  /** 7-bit characters other than NUL, and those in `extra`. */
  predicate Over(extra: set<Byte>, text: seq<Byte>) {
    forall i :: 0 <= i < |text| ==> 0 < text[i] < 128 || text[i] in extra
  }

  ghost predicate FilesOver(extra: set<Byte>, env: Env) {
    Lexer.FineMacros(env.fixed) && forall name :: env.open(name).Some? ==> Over(extra, env.open(name).value)
  }

  /** Every parse over files of these characters, whatever they hold and include, gets the right verdict if it ends. */
  ghost predicate Safe(extra: set<Byte>) {
    forall env, content, n :: FilesOver(extra, env) && Over(extra, content) ==> SafeAfter(After(env, content, n))
  }

  predicate SafeAfter(c: Config)
    requires c.input.files != []
  {
    !c.out.Running? ==> Right(c)
  }

  lemma ShortName()
    ensures IsName([120])
  {
    var w := Lexer.Letters([120]);
    forall k | 0 <= k < |Lexer.KEYWORDS| ensures Lexer.KEYWORDS[k].0 != w {
      KeywordsLong(k);
    }
    SearchMisses(w, 0);
  }

  lemma LosingOver(extra: set<Byte>, name: seq<Byte>, b: Byte)
    requires b in extra && IsWord(name)
    ensures Over(extra, Losing(name, b, []))
  {
  }

  lemma BadIsLost(extra: set<Byte>, env: Env, name: seq<Byte>, b: Byte)
    requires IsName(name) && IsBad(b) && env.open(name).Some?
    requires FilesOver(extra, env) && Over(extra, Losing(name, b, []))
    ensures !Safe(extra)
  {
    BadHidesErrors(env, name, b, []);
    assert !SafeAfter(After(env, Losing(name, b, []), 10));
  }

  lemma BadIsUnsafe(extra: set<Byte>, b: Byte)
    requires b in extra && IsBad(b)
    ensures !Safe(extra)
  {
    var env := Env(_ => Some([]), _ => false, map[]);
    ShortName();
    LosingOver(extra, [120], b);
    BadIsLost(extra, env, [120], b);
  }

  /** Characters may be added to 7-bit text without risk exactly if they are 7-bit themselves and not NUL. */
  lemma AlphabetExactly(extra: set<Byte>)
    ensures Safe(extra) <==> forall b :: b in extra ==> 0 < b < 128
  {
    if b :| b in extra && IsBad(b) {
      BadIsUnsafe(extra, b);
    } else {
      forall env, content, n | FilesOver(extra, env) && Over(extra, content) ensures SafeAfter(After(env, content, n)) {
        VerdictIsRight(env, content, n);
      }
    }
  }

  // ----- A failure in silence

  const SCHEMA_WORD: seq<Byte> := [115, 99, 104, 101, 109, 97]

  lemma KeywordsBeforeSchema(k: nat)
    requires k < 28
    ensures |Lexer.KEYWORDS| == 37 && Lexer.KEYWORDS[28] == ("schema", Token.SCHEMA)
    ensures |Lexer.KEYWORDS[k].0| == 6 ==> Lexer.KEYWORDS[k].0[0] != 's'
  {
  }

  lemma SchemaKeyword()
    ensures Lexer.Lookup(SCHEMA_WORD) == Token.SCHEMA && IsWord(SCHEMA_WORD) && |SCHEMA_WORD| == 6
  {
    var w := Lexer.Letters(SCHEMA_WORD);
    assert |w| == |"schema"|;
    assert w == "schema";
    KeywordsBeforeSchema(0);
    forall k | 0 <= k < 28 ensures Lexer.KEYWORDS[k].0 != w {
      KeywordsBeforeSchema(k);
    }
    SearchFinds(w, 0, 28);
  }

  lemma SchemaTables()
    ensures YyDefred(0) == 1 && YyLen(1) == 0 && YyDefred(1) == 0 && TABLES.Shift(1, Token.SCHEMA) == Some(7)
    ensures YyDefred(7) == 0 && TABLES.Shift(7, Token.STRING) == Some(26)
  {
  }

  lemma SchemaRuleTables()
    ensures YyDefred(26) == SCHEMA_RULE && YyLen(SCHEMA_RULE) == 2 && MayFail(SCHEMA_RULE)
  {
  }

  /** The last word of a file. */
  lemma LexLast(name: seq<Byte>, macros: Lexer.Macros)
    requires IsName(name)
    ensures Lexer.Lex(OnTop(name, 0), macros) == WordLexeme(name, OnTop([], 0))
  {
    ReadOnTop(name, 0);
    LexLetter(OnTop(name, 0), macros, name[0], OnTop(name[1..], 0));
    ScanLast(name[1..], [name[0]]);
    assert [name[0]] + name[1..] == name;
    CStringOfWord(name);
  }

  lemma ReadEnd(errors: nat)
    ensures Files.Got(OnTop([], errors), 0) == (Files.EOF, OnTop([], errors))
  {
    assert Files.WithLast(OnTop([], errors).files, Files.File([], errors)) == [Files.File([], errors)];
  }

  lemma LastParts(w: seq<Byte>, buf: seq<int>)
    ensures w == [] ==> buf + w == buf
    ensures w != [] ==> w == [w[0]] + w[1..] && buf + [w[0]] + w[1..] == buf + w
  {
  }

  lemma ScanAtEnd(buf: seq<int>)
    requires |buf| < Lexer.BUFSIZE
    ensures Lexer.Scan(OnTop([], 0), buf, Lexer.AllowedInString) == Lexer.Upto(buf, Files.EOF, OnTop([], 0))
  {
    ReadEnd(0);
    ScanStops(OnTop([], 0), Files.EOF, OnTop([], 0), buf);
  }

  lemma {:induction false} ScanLast(w: seq<Byte>, buf: seq<int>)
    requires IsLetters(w) && |buf| + |w| < Lexer.BUFSIZE
    ensures Lexer.Scan(OnTop(w, 0), buf, Lexer.AllowedInString) == Lexer.Upto(buf + w, Files.EOF, OnTop([], 0))
    decreases |w|
  {
    LastParts(w, buf);
    if w == [] {
      ScanAtEnd(buf);
    } else {
      ScanLetter(w[0], w[1..], 0, buf);
      ScanLast(w[1..], buf + [w[0]]);
    }
  }

  lemma SchemaUnwinds(m: Machine<Value>, lval: Value)
    requires m.stack == [0, 1, 7, 26] && |m.vals| == 4
    ensures var o := Unwind(TABLES, m, lval);
            o.Running? && o.m.stack == [0, 1, 2] && o.m.token == m.token && o.m.errflag == m.errflag
  {
    var p := Pop(m, 1);
    var q := Pop(p, 1);
    assert p.stack == [0, 1, 7] && q.stack == [0, 1];
    ErrorShift(26);
    ErrorShift(7);
    ErrorShift(1);
    assert Unwind(TABLES, p, lval) == Unwind(TABLES, q, lval) == Push(q, 2, lval);
  }

  lemma SchemaSteps(m: Machine<Value>, inp: Input<Value>)
    requires Certified(TABLES, Below) && Inv(TABLES, Below, m) && inp.fails
    requires m.stack == [0, 1, 7, 26] && m.token < 0 && m.errflag == 0
    ensures var o := Step(TABLES, Below, m, inp);
            o.Running? && o.m.stack == [0, 1, 2] && o.m.token == m.token && o.m.errflag == 3
  {
    SchemaRuleTables();
    RuleFitsStack(TABLES, Below, m, SCHEMA_RULE);
    SchemaUnwinds(m.(nerrs := m.nerrs + 1, errflag := 3), inp.lval);
  }

  lemma SchemaAround(env: Env, c: Config, n: nat)
    requires Valid(c) && c.out.m.stack == [0, 1, 7, 26] && env.fails(n)
    ensures Around(env, c, n) == (c, Input(0, c.lval, true, Lexer.Nothing))
  {
    SchemaRuleTables();
    RuleFitsStack(TABLES, Below, c.out.m, SCHEMA_RULE);
    assert Action(env, c, SCHEMA_RULE, c.out.m.vals, n) == (c, true);
  }

  /** The schema cannot be read: nothing is reported, and the line is skipped. */
  lemma SchemaFails(env: Env, c: Config, n: nat, s: State)
    requires Valid(c) && Is(env, c, s, [0, 1, 7, 26], -1, 0, 0) && env.fails(n)
    ensures Is(env, Advance(env, c, n), s, [0, 1, 2], -1, 3, 0)
  {
    SchemaAround(env, c, n);
    SchemaSteps(c.out.m, Input(0, c.lval, true, Lexer.Nothing));
  }

  lemma AbortsAtEnd(env: Env, c: Config, n: nat)
    requires Valid(c) && Is(env, c, OnTop([], 0), [0, 1, 2], -1, 3, 0)
    ensures var d := Advance(env, c, n);
            d.out.Aborted? && d.input == OnTop([], 0) && d.counted == 0
  {
    ReadEnd(0);
    LexAlone(OnTop([], 0), env.fixed, Files.EOF, OnTop([], 0));
    SkippedTables(0);
  }

  lemma SchemaRead(env: Env, doc: seq<Byte>, n: nat, t: seq<Byte>)
    requires Is(env, After(env, doc, n), OnTop(SCHEMA_WORD + [32] + t, 0), [0], -1, 0, 0)
    ensures Is(env, After(env, doc, n + 1), At([Files.File(t, 0)], [32]), [0, 1], Token.SCHEMA, 0, 0)
  {
    SchemaTables();
    SchemaKeyword();
    LexWord(SCHEMA_WORD, 32, t, 0, env.fixed);
    LineNext(env, doc, n, OnTop(SCHEMA_WORD + [32] + t, 0), [0], 0, 0, 1,
             WordLexeme(SCHEMA_WORD, At([Files.File(t, 0)], [32])));
  }

  lemma SchemaShifted(env: Env, doc: seq<Byte>, n: nat, s: State)
    requires Is(env, After(env, doc, n), s, [0, 1], Token.SCHEMA, 0, 0)
    ensures Is(env, After(env, doc, n + 1), s, [0, 1, 7], -1, 0, 0)
  {
    SchemaTables();
    OneMore(env, doc, n);
    ShiftsHeld(env, After(env, doc, n), n, s, [0, 1], Token.SCHEMA, 0, 0, 7);
    assert [0, 1] + [7] == [0, 1, 7];
  }

  lemma SchemaNamed(env: Env, doc: seq<Byte>, n: nat, name: seq<Byte>)
    requires IsName(name) && Is(env, After(env, doc, n), At([Files.File(name, 0)], [32]), [0, 1, 7], -1, 0, 0)
    ensures Is(env, After(env, doc, n + 1), OnTop([], 0), [0, 1, 7, 26], -1, 0, 0)
  {
    SchemaTables();
    LexBehindBlank([Files.File(name, 0)], env.fixed);
    LexLast(name, env.fixed);
    ShiftNext(env, doc, n, At([Files.File(name, 0)], [32]), [0, 1, 7], 0, 0, WordLexeme(name, OnTop([], 0)), 26);
    assert [0, 1, 7] + [26] == [0, 1, 7, 26];
  }

  /** A schema that cannot be read, on a line that the end of the file ends: parse_config succeeds. */
  lemma SilentFailure(env: Env, name: seq<Byte>)
    requires IsName(name) && env.fails(3)
    ensures var c := After(env, SCHEMA_WORD + [32] + name, 5);
            c.out.Aborted? && Files.Verdict(c.input) == 0
  {
    var doc := SCHEMA_WORD + [32] + name;
    assert Is(env, After(env, doc, 0), OnTop(doc, 0), [0], -1, 0, 0);
    SchemaRead(env, doc, 0, name);
    SchemaShifted(env, doc, 1, At([Files.File(name, 0)], [32]));
    SchemaNamed(env, doc, 2, name);
    OneMore(env, doc, 3);
    SchemaFails(env, After(env, doc, 3), 3, OnTop([], 0));
    OneMore(env, doc, 4);
    AbortsAtEnd(env, After(env, doc, 4), 4);
  }
}
