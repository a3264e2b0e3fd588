/**
  The scanner of the configuration language (yylex, findeol and lookup of
  ifconfigctl/parse.c) over the stack of included files, with macros.

  Characters are ints: bytes from 0 to 255 as getc returns them, EOF, and negative chars for
  8-bit characters that have been put back or stored.  The classes are those of the C locale.
 */
module ConfigLexer {
  import opened Numbers
  import opened ConfigFiles
  import Token = ConfigGrammar

  const SPACE: int := 32
  const TAB: int := 9
  const DOUBLE_QUOTE: int := 34
  const HASH: int := 35
  const DOLLAR: int := 36
  const SINGLE_QUOTE: int := 39
  const MINUS: int := 45
  const BUFSIZE: nat := 4096

  predicate IsDigit(c: int) {
    48 <= c <= 57
  }

  predicate IsAlnum(c: int) {
    IsDigit(c) || 65 <= c <= 90 || 97 <= c <= 122
  }

  predicate IsPunct(c: int) {
    33 <= c <= 126 && !IsAlnum(c)
  }

  predicate IsSpace(c: int) {
    c == SPACE || 9 <= c <= 13
  }

  predicate IsBlank(c: int) {
    c == SPACE || c == TAB
  }

  /** The punctuation ( ) { } < > ! = / # and comma stands for itself. */
  predicate AllowedInString(c: int) {
    IsAlnum(c) || (IsPunct(c) && c !in {40, 41, 123, 125, 60, 62, 33, 61, 47, 35, 44})
  }

  predicate StartsWord(c: int) {
    IsAlnum(c) || c in {58, 95, 42}
  }

  predicate AllowedToEndNumber(c: int) {
    IsSpace(c) || c in {41, 44, 47, 125, 61}
  }

  predicate InName(c: int) {
    IsAlnum(c) || c == 95
  }

  // ----- What is left to read

  function Bytes(files: seq<File>): nat {
    if files == [] then 0 else Bytes(files[..|files| - 1]) + |Last(files).stream| + 1
  }

  /** Behind the macro text. */
  function Left(s: State): nat {
    Bytes(s.files) + |s.pushback|
  }

  /** Of the macro text. */
  function MacroLeft(s: State): nat {
    if s.parsebuf.Some? && s.parseindex < |s.parsebuf.value| then |s.parsebuf.value| - s.parseindex else 0
  }

  predicate Shorter(t: State, s: State) {
    Left(t) < Left(s) || (Left(t) == Left(s) && MacroLeft(t) < MacroLeft(s))
  }

  lemma BytesWithLast(files: seq<File>, f: File)
    requires files != []
    ensures Bytes(WithLast(files, f)) == Bytes(files) - |Last(files).stream| + |f.stream|
  {
    assert WithLast(files, f)[..|files| - 1] == files[..|files| - 1];
  }

  lemma BytesPopped(files: seq<File>)
    requires |files| > 1
    ensures Bytes(Popped(files)) == Bytes(files) - |Last(files).stream| - 1
  {
    var rest := files[..|files| - 1];
    BytesWithLast(rest, Last(rest).(errors := Last(rest).errors + Last(files).errors));
  }

  lemma {:induction false} ResumeShrinks(c: int, files: seq<File>)
    requires files != []
    ensures Bytes(Resume(c, files).1) <= Bytes(files)
    ensures c == EOF && Resume(c, files).0 != EOF ==> Bytes(Resume(c, files).1) < Bytes(files)
    decreases |files|
  {
    if c == EOF && |files| > 1 {
      var below := Popped(files);
      BytesPopped(files);
      var (c', s) := Getc(Last(below).stream);
      BytesWithLast(below, Last(below).(stream := s));
      ResumeShrinks(c', WithLast(below, Last(below).(stream := s)));
    }
  }

  lemma {:induction false} UnescapedShrinks(s: seq<Byte>)
    ensures Unescaped(s).0 != EOF ==> |Unescaped(s).1| < |s|
    decreases |s|
  {
    if |s| > 1 && s[0] == BACKSLASH && s[1] == NEWLINE {
      assert s[1..][1..] == s[2..];
      UnescapedShrinks(s[2..]);
    }
  }

  lemma FromFilesShrinks(files: seq<File>, quotec: int)
    requires files != []
    ensures Bytes(FromFiles(files, quotec).1) <= Bytes(files)
    ensures FromFiles(files, quotec).0 != EOF ==> Bytes(FromFiles(files, quotec).1) < Bytes(files)
  {
    var f := Last(files);
    if quotec == 0 {
      UnescapedShrinks(f.stream);
      var (c, s) := Unescaped(f.stream);
      BytesWithLast(files, f.(stream := s));
      ResumeShrinks(c, WithLast(files, f.(stream := s)));
    } else if f.stream != [] {
      BytesWithLast(files, f.(stream := f.stream[1..]));
    } else {
      var counted := WithLast(files, f.(errors := f.errors + 1));
      BytesWithLast(files, f.(errors := f.errors + 1));
      if |files| > 1 {
        BytesPopped(counted);
      }
    }
  }

  /** A read takes something, or finds the end. */
  lemma ReadShrinks(s: State, quotec: int)
    requires s.files != []
    ensures var (c, t) := Got(s, quotec);
            Left(t) <= Left(s) && (c != EOF ==> Shorter(t, s))
  {
    FromFilesShrinks(s.files, quotec);
  }

  /** Outside macros what is read is gone. */
  lemma ReadOutside(s: State, quotec: int)
    requires s.files != [] && Got(s, quotec).0 != EOF && Got(s, quotec).1.parsebuf.None?
    ensures Left(Got(s, quotec).1) < Left(s)
  {
    FromFilesShrinks(s.files, quotec);
  }

  /** A character from the macro text. */
  predicate InMacro(s: State) {
    s.parsebuf.Some? && 0 <= s.parseindex < |s.parsebuf.value|
  }

  lemma UngotInMacro(s: State, quotec: int, c: int)
    requires s.files != [] && InMacro(s)
    ensures c != EOF ==> Ungot(Got(s, quotec).1, c) == s
  {
  }

  lemma UngotSize(t: State, c: int)
    ensures Left(Ungot(t, c)) <= Left(t) + 1
    ensures t.parsebuf.None? ==> MacroLeft(Ungot(t, c)) == 0
    ensures t.parsebuf.Some? && t.parseindex < |t.parsebuf.value| ==> MacroLeft(Ungot(t, c)) <= MacroLeft(t) + 1
  {
  }

  /** What is put back after a read is no more than was there before it. */
  lemma UngotShrinks(s: State, quotec: int, c: int)
    requires s.files != [] && Got(s, quotec).0 != EOF
    ensures !Shorter(s, Ungot(Got(s, quotec).1, c))
  {
    var t := Got(s, quotec).1;
    if InMacro(s) {
      UngotInMacro(s, quotec, c);
    } else {
      FromFilesShrinks(s.files, quotec);
      UngotSize(t, c);
    }
  }

  // ----- The scanner's loops

  /** Blanks are passed over. */
  function SkipBlanks(s: State): (r: (int, State))
    requires s.files != []
    ensures r.1.files != [] && !IsBlank(r.0) && (r.0 != EOF ==> Shorter(r.1, s))
    ensures Left(r.1) <= Left(s) && (r.0 != EOF && r.1.parsebuf.None? ==> Left(r.1) < Left(s))
    decreases Left(s), MacroLeft(s)
  {
    var (c, t) := Got(s, 0);
    ReadShrinks(s, 0);
    assert c != EOF && t.parsebuf.None? ==> Left(t) < Left(s) by {
      if c != EOF && t.parsebuf.None? {
        ReadOutside(s, 0);
      }
    }
    if IsBlank(c) then SkipBlanks(t) else (c, t)
  }

  /** The rest of a line, from a # on or behind an error. */
  function SkipLine(s: State): (r: (int, State))
    requires s.files != []
    ensures r.1.files != [] && (r.0 == EOF || r.0 == NEWLINE) && Left(r.1) <= Left(s)
    ensures r.0 != EOF ==> Shorter(r.1, s)
    decreases Left(s), MacroLeft(s)
  {
    var (c, t) := Got(s, 0);
    ReadShrinks(s, 0);
    if c == NEWLINE || c == EOF then (c, t) else SkipLine(t)
  }

  /** Characters of a class, added to the buffer until another one or the end of the input follows. */
  datatype Scanned = Full(input: State) | Upto(buf: seq<int>, c: int, input: State)

  function Scan(s: State, buf: seq<int>, more: int -> bool): (r: Scanned)
    requires s.files != []
    ensures r.input.files != [] && Left(r.input) <= Left(s)
    ensures r.Upto? ==> |buf| <= |r.buf| && r.buf[..|buf|] == buf
    decreases Left(s), MacroLeft(s)
  {
    if |buf| >= BUFSIZE then Full(s)
    else
      var (c, t) := Got(s, 0);
      ReadShrinks(s, 0);
      if c != EOF && more(c) then Scan(t, buf + [AsChar(c)], more) else Upto(buf, c, t)
  }

  /** The name behind a $; the character behind the name is put back. */
  datatype Named = NameEnds(input: State) | NameTooLong(input: State) | Name(name: seq<int>, input: State)

  function ScanName(s: State, buf: seq<int>): (r: Named)
    requires s.files != []
    ensures r.input.files != [] && (s.parsebuf.None? ==> Left(r.input) <= Left(s))
    decreases Left(s), MacroLeft(s)
  {
    var (c, t) := Got(s, 0);
    ReadShrinks(s, 0);
    if c == EOF then NameEnds(t)
    else if |buf| >= BUFSIZE - 2 then NameTooLong(t)
    else if InName(c) then ScanName(t, buf + [AsChar(c)])
    else Name(buf, Ungot(t, c))
  }

  /** A quoted string; a line end in it is left out, a backslash only guards the quote and the line end. */
  datatype Quoted = QuoteEnds(input: State, errors: nat) | QuoteTooLong(input: State, errors: nat)
    | Closed(text: seq<int>, input: State, errors: nat)

  /** What one round of the loop does: `n` errors have been counted so far. */
  datatype Round = Stop(result: Quoted) | Go(input: State, buf: seq<int>, errors: nat)

  function Keep(s: State, buf: seq<int>, c: int, n: nat): Round {
    if |buf| >= BUFSIZE - 2 then Stop(QuoteTooLong(s, n)) else Go(s, buf + [AsChar(c)], n)
  }

  /** The errors counted once the next character has been read. */
  function ErrorsAfter(s: State, quotec: int, n: nat): nat
    requires s.files != []
  {
    n + ReadErrors(s, quotec)
  }

  /** Behind a backslash. */
  function Escaped(s: State, quotec: int, buf: seq<int>, n: nat): (r: Round)
    requires s.files != []
  {
    var (next, t) := Got(s, quotec);
    var n' := ErrorsAfter(s, quotec, n);
    if next == EOF then Stop(QuoteEnds(t, n'))
    else if next == quotec then Keep(t, buf, next, n')
    else if next == NEWLINE then Go(t, buf, n')
    else Keep(Ungot(t, next), buf, BACKSLASH, n')
  }

  /** With the character read. */
  function Took(c: int, s: State, quotec: int, buf: seq<int>, n: nat): (r: Round)
    requires s.files != []
  {
    if c == EOF then Stop(QuoteEnds(s, n))
    else if c == NEWLINE then Go(s, buf, n)
    else if c == BACKSLASH then Escaped(s, quotec, buf, n)
    else if c == quotec then Stop(Closed(buf, s, n))
    else Keep(s, buf, c, n)
  }

  /** A round that goes on leaves less to read. */
  predicate RoundShrinks(r: Round, s: State) {
    match r
    case Go(t, _, _) => t.files != [] && Shorter(t, s)
    case Stop(q) => q.input.files != []
  }

  lemma ShorterStill(u: State, t: State, s: State)
    requires !Shorter(t, u) && Shorter(t, s)
    ensures Shorter(u, s)
  {
  }

  lemma EscapedShrinks(s: State, t: State, quotec: int, buf: seq<int>, n: nat)
    requires t.files != [] && Shorter(t, s)
    ensures RoundShrinks(Escaped(t, quotec, buf, n), s)
  {
    ReadShrinks(t, quotec);
    var (next, u) := Got(t, quotec);
    if next != EOF {
      UngotShrinks(t, quotec, next);
      ShorterStill(u, t, s);
      ShorterStill(Ungot(u, next), t, s);
    }
  }

  lemma TookShrinks(s: State, c: int, t: State, quotec: int, buf: seq<int>, n: nat)
    requires t.files != [] && (c != EOF ==> Shorter(t, s))
    ensures RoundShrinks(Took(c, t, quotec, buf, n), s)
  {
    if c == BACKSLASH {
      EscapedShrinks(s, t, quotec, buf, n);
    }
  }

  function ScanQuoted(s: State, quotec: int, buf: seq<int>, n: nat): (r: Quoted)
    requires s.files != []
    ensures r.input.files != []
    decreases Left(s), MacroLeft(s)
  {
    var (c, t) := Got(s, quotec);
    var n' := ErrorsAfter(s, quotec, n);
    ReadShrinks(s, quotec);
    TookShrinks(s, c, t, quotec, buf, n');
    match Took(c, t, quotec, buf, n')
    case Stop(r) => r
    case Go(u, buf', n'') => ScanQuoted(u, quotec, buf', n'')
  }

  lemma RoundByRound(s: State, quotec: int, buf: seq<int>, n: nat, c: int, t: State, n': nat, r: Round)
    requires s.files != [] && Got(s, quotec) == (c, t) && n' == ErrorsAfter(s, quotec, n)
    requires r == Took(c, t, quotec, buf, n')
    ensures RoundShrinks(r, s)
    ensures r.Stop? ==> ScanQuoted(s, quotec, buf, n) == r.result
    ensures r.Go? ==> ScanQuoted(s, quotec, buf, n) == ScanQuoted(r.input, quotec, r.buf, r.errors)
  {
    ReadShrinks(s, quotec);
    TookShrinks(s, c, t, quotec, buf, n');
  }

  // ----- Tokens

  /** What a token carries. */
  datatype Value = Text(text: seq<int>) | Number(number: int) | Nothing

  /** A token, what it puts in yylval if anything, and the errors counted in reading it. */
  datatype Lexeme = Lexeme(token: int, value: Option<Value>, input: State, errors: nat)

  /** yyerror and findeol: the error is counted and the rest of the line skipped. */
  function BadLine(s: State, n: nat): (r: Lexeme)
    requires s.files != []
    ensures r.input.files != []
  {
    Lexeme(Token.ERROR, None, SkipLine(s.(parsebuf := None)).1, n)
  }

  /** A buffer as a C string. */
  function CString(buf: seq<int>): seq<int> {
    if buf == [] || buf[0] == 0 then [] else [buf[0]] + CString(buf[1..])
  }

  function Letters(buf: seq<int>): string {
    seq(|buf|, i requires 0 <= i < |buf| => if 0 <= buf[i] < 128 then buf[i] as char else '?')
  }

  const KEYWORDS: seq<(string, int)> := [
    ("access", Token.ACCESS), ("allow", Token.ALLOW), ("any", Token.ANY), ("bind", Token.BIND), ("by", Token.BY),
    ("cache-size", Token.CACHE_SIZE), ("certificate", Token.CERTIFICATE), ("children", Token.CHILDREN),
    ("compression", Token.COMPRESSION), ("deny", Token.DENY), ("fsync", Token.FSYNC), ("in", Token.IN),
    ("include", Token.INCLUDE), ("index", Token.INDEX), ("index-cache-size", Token.INDEX_CACHE_SIZE),
    ("ldaps", Token.LDAPS), ("level", Token.LEVEL), ("listen", Token.LISTEN), ("namespace", Token.NAMESPACE),
    ("of", Token.OF), ("on", Token.ON), ("port", Token.PORT), ("read", Token.READ), ("referral", Token.REFERRAL),
    ("relax", Token.RELAX), ("root", Token.ROOT), ("rootdn", Token.ROOTDN), ("rootpw", Token.ROOTPW),
    ("schema", Token.SCHEMA), ("secure", Token.SECURE), ("self", Token.SELF), ("strict", Token.STRICT),
    ("subtree", Token.SUBTREE), ("tls", Token.TLS), ("to", Token.TO), ("use", Token.USE), ("write", Token.WRITE)]

  /** The search of the table from i on. */
  function Search(w: string, i: nat): int
    requires i <= |KEYWORDS|
    decreases |KEYWORDS| - i
  {
    if i == |KEYWORDS| then Token.STRING else if KEYWORDS[i].0 == w then KEYWORDS[i].1 else Search(w, i + 1)
  }

  function Lookup(buf: seq<int>): int {
    Search(Letters(buf), 0)
  }

  function Word(s: State, c: int): (r: Lexeme)
    requires s.files != []
    ensures r.input.files != []
  {
    match Scan(s, [AsChar(c)], AllowedInString)
    case Full(t) => BadLine(Reported(t), 1)
    case Upto(buf, c', t) =>
      var token := Lookup(buf);
      Lexeme(token, if token == Token.STRING then Some(Text(CString(buf))) else None, Ungot(t, c'), 0)
  }

  function DigitsOf(buf: seq<int>): int {
    if buf == [] then 0 else DigitsOf(buf[..|buf| - 1]) * 10 + buf[|buf| - 1] - 48
  }

  function NumberOf(buf: seq<int>): int {
    if buf != [] && buf[0] == MINUS then -DigitsOf(buf[1..]) else DigitsOf(buf)
  }

  predicate IsLong(n: int) {
    -0x8000_0000_0000_0000 <= n < 0x8000_0000_0000_0000
  }

  /** All of the buffer but its first character goes back, the last one first. */
  function PutBack(s: State, buf: seq<int>): (t: State)
    ensures t.files == s.files
    decreases |buf|
  {
    if |buf| <= 1 then s else PutBack(Ungot(s, buf[|buf| - 1]), buf[..|buf| - 1])
  }

  /** A number if what follows may end one, else a minus sign or a word from the first digit on. */
  function AfterDigits(c: int, buf: seq<int>, c': int, s: State): (r: Lexeme)
    requires s.files != []
    ensures r.input.files != []
  {
    if buf != [MINUS] && (c' == EOF || AllowedToEndNumber(c')) then
      if IsLong(NumberOf(buf)) then Lexeme(Token.NUMBER, Some(Number(NumberOf(buf))), s, 0)
      else BadLine(Reported(s), 1)
    else if c == MINUS then Lexeme(MINUS, None, PutBack(s, buf), 0)
    else Word(PutBack(s, buf), c)
  }

  function NumberOrWord(s: State, c: int): (r: Lexeme)
    requires s.files != []
    ensures r.input.files != []
  {
    match Scan(s, [AsChar(c)], IsDigit)
    case Full(t) => BadLine(Reported(t), 1)
    case Upto(buf, c', t) => AfterDigits(c, buf, c', Ungot(t, c'))
  }

  function QuotedString(s: State, quotec: int): (r: Lexeme)
    requires s.files != []
    ensures r.input.files != []
  {
    match ScanQuoted(s, quotec, [], 0)
    case QuoteEnds(t, n) => Lexeme(0, None, t, n)
    case QuoteTooLong(t, n) => BadLine(t, n)
    case Closed(buf, t, n) => Lexeme(Token.STRING, Some(Text(CString(buf))), t, n)
  }

  /** Behind blanks and comments and outside macros. */
  function Plain(s: State, c: int): (r: Lexeme)
    requires s.files != []
    ensures r.input.files != []
  {
    if c == SINGLE_QUOTE || c == DOUBLE_QUOTE then QuotedString(s, c)
    else if c == MINUS || IsDigit(c) then NumberOrWord(s, c)
    else if StartsWord(c) then Word(s, c)
    else Lexeme(if c == EOF then 0 else c, None, s, 0)
  }

  type Macros = map<seq<int>, seq<int>>

  /** The next character that is not a blank, or what ends a comment. */
  function First(s: State): (r: (int, State))
    requires s.files != []
    ensures r.1.files != [] && (r.0 == DOLLAR && r.1.parsebuf.None? ==> Left(r.1) < Left(s))
  {
    var (c, t) := SkipBlanks(s);
    if c == HASH then SkipLine(t) else (c, t)
  }

  /** A macro whose name is not there, or no name. */
  function Unfound(r: Named): (x: Lexeme)
    requires r.input.files != []
    ensures x.input.files != []
  {
    if r.NameEnds? then Lexeme(0, None, r.input, 0) else BadLine(Reported(r.input), 1)
  }

  /** yylex. */
  function Lex(s: State, macros: Macros): (r: Lexeme)
    requires s.files != []
    ensures r.input.files != []
    decreases Left(s)
  {
    var (c, t) := First(s);
    if c == DOLLAR && t.parsebuf.None? then
      var r := ScanName(t, []);
      if r.Name? && r.name in macros then Lex(r.input.(parsebuf := Some(macros[r.name]), parseindex := 0), macros)
      else Unfound(r)
    else Plain(t, c)
  }

  // ----- What a token keeps

  /** From s to t exactly n errors were counted, and clean text stays clean. */
  ghost predicate Follows(clean: bool, s: State, t: State, n: nat) {
    t.files != [] && Total(t.files) == Total(s.files) + n && (clean ==> Clean(t))
  }

  /** A character from clean text, or the end with only the top file open. */
  predicate FineChar(c: int, t: State) {
    0 < c < 128 || (c == EOF && |t.files| == 1)
  }

  lemma GotFollows(clean: bool, s: State, quotec: int)
    requires s.files != [] && (clean ==> Clean(s)) && 0 <= quotec < 128
    ensures var (c, t) := Got(s, quotec);
            Follows(clean, s, t, ReadErrors(s, quotec)) && (clean ==> FineChar(c, t))
  {
    ReadConserves(s, quotec);
    if Clean(s) {
      ReadEnds(s, quotec);
    }
  }

  lemma UngotFollows(clean: bool, s: State, t: State, n: nat, c: int)
    requires Follows(clean, s, t, n) && (clean ==> c == EOF || 0 < c < 128)
    ensures Follows(clean, s, Ungot(t, c), n)
  {
  }

  lemma ReportedFollows(clean: bool, s: State)
    requires s.files != [] && (clean ==> Clean(s))
    ensures Follows(clean, s, Reported(s), 1)
  {
    CountedConserves(s.files);
  }

  lemma {:induction false} SkipBlanksFollows(clean: bool, s: State)
    requires s.files != [] && (clean ==> Clean(s))
    ensures var (c, t) := SkipBlanks(s);
            Follows(clean, s, t, 0) && (clean ==> FineChar(c, t))
    decreases Left(s), MacroLeft(s)
  {
    GotFollows(clean, s, 0);
    ReadShrinks(s, 0);
    var (c, t) := Got(s, 0);
    if IsBlank(c) {
      SkipBlanksFollows(clean, t);
    }
  }

  lemma {:induction false} SkipLineFollows(clean: bool, s: State)
    requires s.files != [] && (clean ==> Clean(s))
    ensures var (c, t) := SkipLine(s);
            Follows(clean, s, t, 0) && (clean ==> FineChar(c, t))
    decreases Left(s), MacroLeft(s)
  {
    GotFollows(clean, s, 0);
    ReadShrinks(s, 0);
    var (c, t) := Got(s, 0);
    if c != NEWLINE && c != EOF {
      SkipLineFollows(clean, t);
    }
  }

  lemma {:induction false} ScanFollows(clean: bool, s: State, buf: seq<int>, more: int -> bool)
    requires s.files != [] && (clean ==> Clean(s))
    ensures var r := Scan(s, buf, more);
            && Follows(clean, s, r.input, 0)
            && (clean && IsText(buf) && r.Upto? ==> IsText(r.buf) && FineChar(r.c, r.input))
    decreases Left(s), MacroLeft(s)
  {
    if |buf| < BUFSIZE {
      GotFollows(clean, s, 0);
      ReadShrinks(s, 0);
      var (c, t) := Got(s, 0);
      if c != EOF && more(c) {
        ScanFollows(clean, t, buf + [AsChar(c)], more);
      }
    }
  }

  lemma {:induction false} ScanNameFollows(clean: bool, s: State, buf: seq<int>)
    requires s.files != [] && (clean ==> Clean(s))
    ensures var r := ScanName(s, buf);
            Follows(clean, s, r.input, 0) && (clean && r.NameEnds? ==> |r.input.files| == 1)
    decreases Left(s), MacroLeft(s)
  {
    GotFollows(clean, s, 0);
    ReadShrinks(s, 0);
    var (c, t) := Got(s, 0);
    if c != EOF && |buf| < BUFSIZE - 2 {
      if InName(c) {
        ScanNameFollows(clean, t, buf + [AsChar(c)]);
      } else {
        UngotFollows(clean, s, t, 0, c);
      }
    }
  }

  /** What a round leaves follows, whether it goes on or not. */
  ghost predicate RoundFollows(clean: bool, s: State, buf: seq<int>, n: nat, r: Round) {
    match r
    case Go(t, buf', n') => n' >= n && Follows(clean, s, t, n' - n) && (clean && IsText(buf) ==> IsText(buf'))
    case Stop(q) =>
      && q.errors >= n && Follows(clean, s, q.input, q.errors - n)
      && (clean && q.QuoteEnds? ==> |q.input.files| == 1)
      && (clean && IsText(buf) && q.Closed? ==> IsText(q.text))
  }

  lemma KeepFollows(clean: bool, s: State, t: State, buf: seq<int>, c: int, n: nat, n': nat)
    requires n' >= n && Follows(clean, s, t, n' - n) && (clean ==> 0 < c < 128)
    ensures RoundFollows(clean, s, buf, n, Keep(t, buf, c, n'))
  {
  }

  lemma EscapedFollows(clean: bool, s: State, quotec: int, buf: seq<int>, n: nat)
    requires s.files != [] && (clean ==> Clean(s)) && 0 < quotec < 128
    ensures RoundFollows(clean, s, buf, n, Escaped(s, quotec, buf, n))
  {
    var (next, t) := Got(s, quotec);
    var n' := ErrorsAfter(s, quotec, n);
    GotFollows(clean, s, quotec);
    if next == quotec {
      KeepFollows(clean, s, t, buf, next, n, n');
    } else if next != EOF && next != NEWLINE {
      UngotFollows(clean, s, t, n' - n, next);
      KeepFollows(clean, s, Ungot(t, next), buf, BACKSLASH, n, n');
    }
  }

  lemma RoundFollowsOn(clean: bool, s: State, t: State, buf: seq<int>, n: nat, n': nat, r: Round)
    requires n' >= n && Follows(clean, s, t, n' - n) && RoundFollows(clean, t, buf, n', r)
    ensures RoundFollows(clean, s, buf, n, r)
  {
  }

  lemma TookFollows(clean: bool, s: State, c: int, t: State, quotec: int, buf: seq<int>, n: nat, n': nat)
    requires s.files != [] && (clean ==> Clean(s)) && 0 < quotec < 128
    requires n' >= n && Follows(clean, s, t, n' - n) && (clean ==> FineChar(c, t))
    ensures RoundFollows(clean, s, buf, n, Took(c, t, quotec, buf, n'))
  {
    if c == BACKSLASH {
      EscapedFollows(clean, t, quotec, buf, n');
      RoundFollowsOn(clean, s, t, buf, n, n', Escaped(t, quotec, buf, n'));
    } else if c != EOF && c != NEWLINE && c != quotec {
      KeepFollows(clean, s, t, buf, c, n, n');
    }
  }

  lemma RoundThen(clean: bool, s: State, buf: seq<int>, n: nat, t: State, buf': seq<int>, n': nat, q: Quoted)
    requires RoundFollows(clean, s, buf, n, Go(t, buf', n')) && RoundFollows(clean, t, buf', n', Stop(q))
    ensures RoundFollows(clean, s, buf, n, Stop(q))
  {
  }

  lemma OneRound(clean: bool, s: State, quotec: int, buf: seq<int>, n: nat) returns (r: Round)
    requires s.files != [] && (clean ==> Clean(s)) && 0 < quotec < 128
    ensures RoundFollows(clean, s, buf, n, r) && RoundShrinks(r, s)
    ensures r.Stop? ==> ScanQuoted(s, quotec, buf, n) == r.result
    ensures r.Go? ==> ScanQuoted(s, quotec, buf, n) == ScanQuoted(r.input, quotec, r.buf, r.errors)
  {
    var (c, t) := Got(s, quotec);
    var n' := ErrorsAfter(s, quotec, n);
    r := Took(c, t, quotec, buf, n');
    GotFollows(clean, s, quotec);
    TookFollows(clean, s, c, t, quotec, buf, n, n');
    RoundByRound(s, quotec, buf, n, c, t, n', r);
  }

  lemma {:induction false} ScanQuotedFollows(clean: bool, s: State, quotec: int, buf: seq<int>, n: nat)
    requires s.files != [] && (clean ==> Clean(s)) && 0 < quotec < 128
    ensures RoundFollows(clean, s, buf, n, Stop(ScanQuoted(s, quotec, buf, n)))
    decreases Left(s), MacroLeft(s)
  {
    var r := OneRound(clean, s, quotec, buf, n);
    if r.Go? {
      ScanQuotedFollows(clean, r.input, quotec, r.buf, r.errors);
      RoundThen(clean, s, buf, n, r.input, r.buf, r.errors, ScanQuoted(r.input, quotec, r.buf, r.errors));
    }
  }

  /** On clean text a token is positive, or the end with only the top file open. */
  predicate FineLexeme(r: Lexeme) {
    && (r.token > 0 || (r.token == 0 && |r.input.files| == 1))
    && (r.value.Some? ==> FineValue(r.value.value))
  }

  predicate FineValue(v: Value) {
    v.Text? ==> IsText(v.text)
  }

  ghost predicate LexemeFollows(clean: bool, s: State, r: Lexeme) {
    Follows(clean, s, r.input, r.errors) && (clean ==> FineLexeme(r))
  }

  lemma {:induction false} CStringText(buf: seq<int>)
    ensures IsText(buf) ==> IsText(CString(buf))
    decreases |buf|
  {
    if buf != [] && buf[0] != 0 {
      CStringText(buf[1..]);
    }
  }

  lemma BadLineFollows(clean: bool, s: State, t: State, n: nat)
    requires Follows(clean, s, t, n)
    ensures LexemeFollows(clean, s, BadLine(t, n))
  {
    var u := t.(parsebuf := None);
    SkipLineFollows(clean, u);
  }

  lemma ReportedLine(clean: bool, s: State, t: State)
    requires Follows(clean, s, t, 0)
    ensures LexemeFollows(clean, s, BadLine(Reported(t), 1))
  {
    ReportedFollows(clean, t);
    BadLineFollows(clean, s, Reported(t), 1);
  }

  lemma {:induction false} SearchPositive(w: string, i: nat)
    requires i <= |KEYWORDS|
    ensures Search(w, i) > 0
    decreases |KEYWORDS| - i
  {
    if i < |KEYWORDS| {
      SearchPositive(w, i + 1);
    }
  }

  lemma WordFollows(clean: bool, s: State, c: int)
    requires s.files != [] && (clean ==> Clean(s)) && (clean ==> 0 < c < 128)
    ensures LexemeFollows(clean, s, Word(s, c))
  {
    ScanFollows(clean, s, [AsChar(c)], AllowedInString);
    match Scan(s, [AsChar(c)], AllowedInString)
    case Full(t) => ReportedLine(clean, s, t);
    case Upto(buf, c', t) =>
      UngotFollows(clean, s, t, 0, c');
      SearchPositive(Letters(buf), 0);
      CStringText(buf);
  }

  lemma {:induction false} PutBackFollows(clean: bool, s: State, t: State, buf: seq<int>)
    requires Follows(clean, s, t, 0) && (clean ==> IsText(buf))
    ensures Follows(clean, s, PutBack(t, buf), 0)
    decreases |buf|
  {
    if |buf| > 1 {
      UngotFollows(clean, s, t, 0, buf[|buf| - 1]);
      PutBackFollows(clean, s, Ungot(t, buf[|buf| - 1]), buf[..|buf| - 1]);
    }
  }

  lemma WordFollowsOn(clean: bool, s: State, t: State, c: int)
    requires Follows(clean, s, t, 0) && (clean ==> 0 < c < 128)
    ensures LexemeFollows(clean, s, Word(t, c))
  {
    WordFollows(clean, t, c);
  }

  /** The branches behind the digits, in the source from the test of what ends a number on. */
  lemma AfterDigitsFollows(clean: bool, s: State, c: int, buf: seq<int>, c': int, u: State)
    requires Follows(clean, s, u, 0) && 0 < c < 128 && (clean ==> IsText(buf))
    ensures LexemeFollows(clean, s, AfterDigits(c, buf, c', u))
  {
    ReportedLine(clean, s, u);
    PutBackFollows(clean, s, u, buf);
    WordFollowsOn(clean, s, PutBack(u, buf), c);
  }

  lemma NumberOrWordFollows(clean: bool, s: State, c: int)
    requires s.files != [] && (clean ==> Clean(s)) && 0 < c < 128
    ensures LexemeFollows(clean, s, NumberOrWord(s, c))
  {
    ScanFollows(clean, s, [AsChar(c)], IsDigit);
    match Scan(s, [AsChar(c)], IsDigit)
    case Full(t) => ReportedLine(clean, s, t);
    case Upto(buf, c', t) =>
      UngotFollows(clean, s, t, 0, c');
      AfterDigitsFollows(clean, s, c, buf, c', Ungot(t, c'));
  }

  lemma QuotedStringFollows(clean: bool, s: State, quotec: int)
    requires s.files != [] && (clean ==> Clean(s)) && 0 < quotec < 128
    ensures LexemeFollows(clean, s, QuotedString(s, quotec))
  {
    ScanQuotedFollows(clean, s, quotec, [], 0);
    match ScanQuoted(s, quotec, [], 0)
    case QuoteEnds(t, n) =>
    case QuoteTooLong(t, n) => BadLineFollows(clean, s, t, n);
    case Closed(buf, t, n) => CStringText(buf);
  }

  lemma PlainFollows(clean: bool, s: State, t: State, c: int)
    requires Follows(clean, s, t, 0) && (clean ==> FineChar(c, t))
    ensures LexemeFollows(clean, s, Plain(t, c))
  {
    if c == SINGLE_QUOTE || c == DOUBLE_QUOTE {
      QuotedStringFollows(clean, t, c);
    } else if c == MINUS || IsDigit(c) {
      NumberOrWordFollows(clean, t, c);
    } else if StartsWord(c) {
      WordFollows(clean, t, c);
    }
  }

  lemma FirstFollows(clean: bool, s: State)
    requires s.files != [] && (clean ==> Clean(s))
    ensures var (c, t) := First(s);
            Follows(clean, s, t, 0) && (clean ==> FineChar(c, t))
  {
    SkipBlanksFollows(clean, s);
    var (c, t) := SkipBlanks(s);
    if c == HASH {
      SkipLineFollows(clean, t);
    }
  }

  predicate FineMacros(macros: Macros) {
    forall name :: name in macros ==> IsText(macros[name])
  }

  lemma {:induction false} LexFollowsFrom(clean: bool, s: State, now: State, macros: Macros)
    requires Follows(clean, s, now, 0) && (clean ==> FineMacros(macros))
    ensures LexemeFollows(clean, s, Lex(now, macros))
    decreases Left(now)
  {
    FirstFollows(clean, now);
    var (c, t) := First(now);
    if c == DOLLAR && t.parsebuf.None? {
      MacroFollows(clean, s, now, t, macros);
    } else {
      PlainFollows(clean, s, t, c);
    }
  }

  lemma {:induction false} MacroFollows(clean: bool, s: State, now: State, t: State, macros: Macros)
    requires Follows(clean, s, t, 0) && t.parsebuf.None? && now.files != [] && First(now) == (DOLLAR, t)
    requires Follows(clean, s, now, 0) && (clean ==> FineMacros(macros))
    ensures LexemeFollows(clean, s, Lex(now, macros))
    decreases Left(now), 0
  {
    ScanNameFollows(clean, t, []);
    var r := ScanName(t, []);
    if r.Name? && r.name in macros {
      LexFollowsFrom(clean, s, r.input.(parsebuf := Some(macros[r.name]), parseindex := 0), macros);
    } else {
      ReportedLine(clean, s, r.input);
    }
  }

  /** Every token counts its errors in an open file, and on clean text only the end of the top file is an end. */
  lemma LexFollows(clean: bool, s: State, macros: Macros)
    requires s.files != [] && (clean ==> Clean(s)) && (clean ==> FineMacros(macros))
    ensures LexemeFollows(clean, s, Lex(s, macros))
  {
    LexFollowsFrom(clean, s, s, macros);
  }

  // ----- The code

  method PassBlanks(input: ConfigInput) returns (c: int)
    requires input.files != []
    modifies input
    ensures input.files != [] && (c, input.Now()) == SkipBlanks(old(input.Now()))
  {
    ReadShrinks(input.Now(), 0);
    c := input.Lgetc(0);
    while IsBlank(c)
      invariant input.files != []
      invariant SkipBlanks(old(input.Now())) == if IsBlank(c) then SkipBlanks(input.Now()) else (c, input.Now())
      decreases IsBlank(c), Left(input.Now()), MacroLeft(input.Now())
    {
      ReadShrinks(input.Now(), 0);
      c := input.Lgetc(0);
    }
  }

  /** The loops behind a # and in findeol. */
  method PassLine(input: ConfigInput) returns (c: int)
    requires input.files != []
    modifies input
    ensures input.files != [] && (c, input.Now()) == SkipLine(old(input.Now()))
  {
    ReadShrinks(input.Now(), 0);
    c := input.Lgetc(0);
    while c != NEWLINE && c != EOF
      invariant input.files != []
      invariant SkipLine(old(input.Now())) ==
                if c == NEWLINE || c == EOF then (c, input.Now()) else SkipLine(input.Now())
      decreases c != NEWLINE && c != EOF, Left(input.Now()), MacroLeft(input.Now())
    {
      ReadShrinks(input.Now(), 0);
      c := input.Lgetc(0);
    }
  }

  method Findeol(input: ConfigInput) returns (token: int)
    requires input.files != []
    modifies input
    ensures input.files != [] && token == Token.ERROR
    ensures input.Now() == SkipLine(old(input.Now()).(parsebuf := None)).1
  {
    input.parsebuf := None;
    var c := PassLine(input);
    return Token.ERROR;
  }

  /** The loops that fill the buffer from p on: `full` if it has no room for the end of the string. */
  method Fill(input: ConfigInput, buf: array<int>, c0: int, more: int -> bool) returns (full: bool, p: nat, c: int)
    requires input.files != [] && buf.Length == BUFSIZE
    modifies input, buf
    ensures input.files != [] && p <= BUFSIZE
    ensures Scan(old(input.Now()), [AsChar(c0)], more) ==
            if full then Full(input.Now()) else Upto(buf[..p], c, input.Now())
  {
    buf[0] := AsChar(c0);
    p, full, c := 1, false, c0;
    assert buf[..1] == [AsChar(c0)];
    while p < BUFSIZE
      invariant input.files != [] && 1 <= p <= BUFSIZE
      invariant Scan(old(input.Now()), [AsChar(c0)], more) == Scan(input.Now(), buf[..p], more)
      decreases Left(input.Now()), MacroLeft(input.Now())
    {
      ReadShrinks(input.Now(), 0);
      c := input.Lgetc(0);
      if c == EOF || !more(c) {
        return;
      }
      buf[p] := AsChar(c);
      p := p + 1;
      assert buf[..p] == buf[..p - 1] + [AsChar(c)];
    }
    full := true;
  }

  method FillName(input: ConfigInput, buf: array<int>) returns (r: Named)
    requires input.files != [] && buf.Length == BUFSIZE
    modifies input, buf
    ensures input.files != [] && r == ScanName(old(input.Now()), []) && input.Now() == r.input
  {
    var p := 0;
    assert buf[..0] == [];
    while true
      invariant input.files != [] && 0 <= p <= BUFSIZE - 2
      invariant ScanName(old(input.Now()), []) == ScanName(input.Now(), buf[..p])
      decreases Left(input.Now()), MacroLeft(input.Now())
    {
      ReadShrinks(input.Now(), 0);
      var c := input.Lgetc(0);
      if c == EOF {
        return NameEnds(input.Now());
      }
      if p + 1 >= BUFSIZE - 1 {
        return NameTooLong(input.Now());
      }
      if !InName(c) {
        input.Lungetc(c);
        return Name(buf[..p], input.Now());
      }
      buf[p] := AsChar(c);
      p := p + 1;
      assert buf[..p] == buf[..p - 1] + [AsChar(c)];
    }
  }

  /** How a round of the loop over a quoted string ends. */
  datatype Ending = Next | AtEnd | NoRoom | AtQuote

  /** `n` errors have been counted. */
  function RoundOf(e: Ending, text: seq<int>, s: State, n: nat): Round {
    match e
    case Next => Go(s, text, n)
    case AtEnd => Stop(QuoteEnds(s, n))
    case NoRoom => Stop(QuoteTooLong(s, n))
    case AtQuote => Stop(Closed(text, s, n))
  }

  /** Puts a character behind the first p0. */
  method Store(buf: array<int>, p0: nat, c: int) returns (e: Ending, p: nat)
    requires buf.Length == BUFSIZE && p0 <= BUFSIZE - 2
    modifies buf
    ensures p <= BUFSIZE - 2
    ensures forall s, n :: RoundOf(e, buf[..p], s, n) == Keep(s, old(buf[..p0]), c, n)
  {
    if p0 + 1 >= BUFSIZE - 1 {
      return NoRoom, p0;
    }
    buf[p0] := AsChar(c);
    assert buf[..p0 + 1] == old(buf[..p0]) + [AsChar(c)];
    return Next, p0 + 1;
  }

  method BehindBackslash(input: ConfigInput, quotec: int, buf: array<int>, p0: nat, ghost n0: nat)
      returns (e: Ending, p: nat, ghost n: nat)
    requires input.files != [] && buf.Length == BUFSIZE && p0 <= BUFSIZE - 2
    modifies input, buf
    ensures input.files != [] && p <= BUFSIZE - 2
    ensures RoundOf(e, buf[..p], input.Now(), n) == Escaped(old(input.Now()), quotec, old(buf[..p0]), n0)
  {
    n, p := ErrorsAfter(input.Now(), quotec, n0), p0;
    var next := input.Lgetc(quotec);
    if next == EOF {
      e := AtEnd;
    } else if next == quotec {
      e, p := Store(buf, p0, next);
    } else if next == NEWLINE {
      e := Next;
    } else {
      input.Lungetc(next);
      e, p := Store(buf, p0, BACKSLASH);
    }
  }

  /** With the character read. */
  method TakeQuoted(input: ConfigInput, c: int, quotec: int, buf: array<int>, p0: nat, ghost n0: nat)
      returns (e: Ending, p: nat, ghost n: nat)
    requires input.files != [] && buf.Length == BUFSIZE && p0 <= BUFSIZE - 2
    modifies input, buf
    ensures input.files != [] && p <= BUFSIZE - 2
    ensures RoundOf(e, buf[..p], input.Now(), n) == Took(c, old(input.Now()), quotec, old(buf[..p0]), n0)
  {
    n, p := n0, p0;
    if c == EOF {
      e := AtEnd;
    } else if c == NEWLINE {
      e := Next;
    } else if c == BACKSLASH {
      e, p, n := BehindBackslash(input, quotec, buf, p0, n0);
    } else if c == quotec {
      e := AtQuote;
    } else {
      e, p := Store(buf, p0, c);
    }
  }

  method QuoteRound(input: ConfigInput, quotec: int, buf: array<int>, p0: nat, ghost n0: nat)
      returns (e: Ending, p: nat, ghost n: nat)
    requires input.files != [] && buf.Length == BUFSIZE && p0 <= BUFSIZE - 2
    modifies input, buf
    ensures input.files != [] && p <= BUFSIZE - 2
    ensures e == Next ==>
              && Shorter(input.Now(), old(input.Now()))
              && ScanQuoted(old(input.Now()), quotec, old(buf[..p0]), n0) ==
                 ScanQuoted(input.Now(), quotec, buf[..p], n)
    ensures e != Next ==>
              Stop(ScanQuoted(old(input.Now()), quotec, old(buf[..p0]), n0)) == RoundOf(e, buf[..p], input.Now(), n)
  {
    ghost var s, text := input.Now(), buf[..p0];
    ghost var n1 := ErrorsAfter(s, quotec, n0);
    var c := input.Lgetc(quotec);
    ghost var t := input.Now();
    e, p, n := TakeQuoted(input, c, quotec, buf, p0, n1);
    RoundByRound(s, quotec, text, n0, c, t, n1, RoundOf(e, buf[..p], input.Now(), n));
  }

  method FillQuoted(input: ConfigInput, quotec: int, buf: array<int>) returns (e: Ending, p: nat, ghost n: nat)
    requires input.files != [] && buf.Length == BUFSIZE
    modifies input, buf
    ensures input.files != [] && e != Next && p <= BUFSIZE - 2
    ensures Stop(ScanQuoted(old(input.Now()), quotec, [], 0)) == RoundOf(e, buf[..p], input.Now(), n)
  {
    e, p, n := Next, 0, 0;
    assert buf[..0] == [];
    while e == Next
      invariant input.files != [] && p <= BUFSIZE - 2
      invariant if e == Next then
                  ScanQuoted(old(input.Now()), quotec, [], 0) == ScanQuoted(input.Now(), quotec, buf[..p], n)
                else Stop(ScanQuoted(old(input.Now()), quotec, [], 0)) == RoundOf(e, buf[..p], input.Now(), n)
      decreases e == Next, Left(input.Now()), MacroLeft(input.Now())
    {
      e, p, n := QuoteRound(input, quotec, buf, p, n);
    }
  }

  /** A token as it is read. */
  predicate IsLexeme(x: Lexeme, token: int, value: Option<Value>, s: State) {
    x.token == token && x.value == value && x.input == s
  }

  /** yyerror, and the rest of the line is skipped. */
  method Complain(input: ConfigInput) returns (token: int)
    requires input.files != []
    modifies input
    ensures input.files != [] && IsLexeme(BadLine(Reported(old(input.Now())), 1), token, None, input.Now())
  {
    input.YyError();
    token := Findeol(input);
  }

  method WordToken(input: ConfigInput, c: int, buf: array<int>) returns (token: int, value: Option<Value>)
    requires input.files != [] && buf.Length == BUFSIZE
    modifies input, buf
    ensures input.files != [] && IsLexeme(Word(old(input.Now()), c), token, value, input.Now())
  {
    var full, p, c' := Fill(input, buf, c, AllowedInString);
    value := None;
    if full {
      token := Complain(input);
    } else {
      input.Lungetc(c');
      token := Lookup(buf[..p]);
      if token == Token.STRING {
        value := Some(Text(CString(buf[..p])));
      }
    }
  }

  /** The loop that puts all characters but the first back. */
  method UngetAll(input: ConfigInput, buf: array<int>, n: nat)
    requires input.files != [] && 1 <= n <= buf.Length
    modifies input
    ensures input.files != [] && input.Now() == PutBack(old(input.Now()), buf[..n])
  {
    var p := n;
    while p > 1
      invariant 1 <= p <= n && input.files != []
      invariant PutBack(old(input.Now()), buf[..n]) == PutBack(input.Now(), buf[..p])
    {
      p := p - 1;
      assert buf[..p + 1][..p] == buf[..p];
      input.Lungetc(buf[p]);
    }
  }

  method NumberToken(input: ConfigInput, c: int, buf: array<int>) returns (token: int, value: Option<Value>)
    requires input.files != [] && buf.Length == BUFSIZE
    modifies input, buf
    ensures input.files != [] && IsLexeme(NumberOrWord(old(input.Now()), c), token, value, input.Now())
  {
    var full, p, c' := Fill(input, buf, c, IsDigit);
    value := None;
    if full {
      token := Complain(input);
      return;
    }
    input.Lungetc(c');
    ghost var s := input.Now();
    if !(p == 1 && buf[0] == MINUS) && (c' == EOF || AllowedToEndNumber(c')) {
      assert buf[..p] != [MINUS];
      var n := NumberOf(buf[..p]);
      if !IsLong(n) {
        token := Complain(input);
        return;
      }
      return Token.NUMBER, Some(Number(n));
    }
    UngetAll(input, buf, p);
    if c == MINUS {
      return MINUS, None;
    }
    token, value := WordToken(input, c, buf);
  }

  method StringToken(input: ConfigInput, quotec: int, buf: array<int>) returns (token: int, value: Option<Value>)
    requires input.files != [] && buf.Length == BUFSIZE
    modifies input, buf
    ensures input.files != [] && IsLexeme(QuotedString(old(input.Now()), quotec), token, value, input.Now())
  {
    var e, p, n := FillQuoted(input, quotec, buf);
    value := None;
    if e == AtEnd {
      return 0, None;
    }
    if e == NoRoom {
      token := Findeol(input);
      return;
    }
    return Token.STRING, Some(Text(CString(buf[..p])));
  }

  /** The switch and the tests behind it. */
  method PlainToken(input: ConfigInput, c: int, buf: array<int>) returns (token: int, value: Option<Value>)
    requires input.files != [] && buf.Length == BUFSIZE
    modifies input, buf
    ensures input.files != [] && IsLexeme(Plain(old(input.Now()), c), token, value, input.Now())
  {
    if c == SINGLE_QUOTE || c == DOUBLE_QUOTE {
      token, value := StringToken(input, c, buf);
    } else if c == MINUS || IsDigit(c) {
      token, value := NumberToken(input, c, buf);
    } else if StartsWord(c) {
      token, value := WordToken(input, c, buf);
    } else {
      token, value := if c == EOF then 0 else c, None;
    }
  }

  /** Behind the $ of a macro: its text is read next, unless there is something wrong with it. */
  method ExpandMacro(input: ConfigInput, macros: Macros, buf: array<int>) returns (found: bool, token: int)
    requires input.files != [] && input.parsebuf.None? && buf.Length == BUFSIZE
    modifies input, buf
    ensures input.files != []
    ensures var r := ScanName(old(input.Now()), []);
            if found then
              && r.Name? && r.name in macros && Left(input.Now()) <= Left(old(input.Now()))
              && input.Now() == r.input.(parsebuf := Some(macros[r.name]), parseindex := 0)
            else
              !(r.Name? && r.name in macros) && IsLexeme(Unfound(r), token, None, input.Now())
  {
    var r := FillName(input, buf);
    found, token := false, 0;
    match r {
      case NameEnds(_) =>
      case NameTooLong(_) => token := Complain(input);
      case Name(name, _) =>
        if name in macros {
          found := true;
          input.parsebuf, input.parseindex := Some(macros[name]), 0;
        } else {
          token := Complain(input);
        }
    }
  }

  method Yylex(input: ConfigInput, macros: Macros) returns (token: int, value: Option<Value>)
    requires input.files != []
    modifies input
    ensures input.files != [] && IsLexeme(Lex(old(input.Now()), macros), token, value, input.Now())
  {
    var buf := new int[BUFSIZE];
    while true
      invariant input.files != [] && fresh(buf) && buf.Length == BUFSIZE
      invariant Lex(old(input.Now()), macros) == Lex(input.Now(), macros)
      decreases Left(input.Now())
    {
      var c := PassBlanks(input);
      if c == HASH {
        c := PassLine(input);
      }
      if c == DOLLAR && input.parsebuf.None? {
        var found;
        found, token := ExpandMacro(input, macros, buf);
        if !found {
          return token, None;
        }
      } else {
        token, value := PlainToken(input, c, buf);
        return;
      }
    }
  }
}
