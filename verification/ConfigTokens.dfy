/**
  Which tokens the scanner of the configuration language gives for which text (yylex and
  lookup of ifconfigctl/parse.c), wherever the text is read from: words and keywords,
  numbers, single characters, comments and macros.
 */
module ConfigTokens {
  import opened Numbers
  import opened ConfigFiles
  import opened ConfigLexer
  import opened ConfigQuotes
  import Token = ConfigGrammar

  // ----- Text to be read

  /** Outside quotes the next characters are those of w, the end of the input among them, and then t is left. */
  ghost predicate ReadsAs(s: State, w: seq<int>, t: State)
    requires s.files != []
    decreases |w|
  {
    if w == [] then t == s
    else Got(s, 0).0 == w[0] && ReadsAs(Got(s, 0).1, w[1..], t)
  }

  lemma ReadsFirst(s: State, w: seq<int>, t: State) returns (u: State)
    requires s.files != [] && w != [] && ReadsAs(s, w, t)
    ensures u.files != [] && Got(s, 0) == (w[0], u) && ReadsAs(u, w[1..], t)
  {
    u := Got(s, 0).1;
  }

  lemma {:induction false} ReadsBoth(s: State, w: seq<int>, t: State, x: seq<int>, u: State)
    requires s.files != [] && t.files != [] && ReadsAs(s, w, t) && ReadsAs(t, x, u)
    ensures ReadsAs(s, w + x, u)
    decreases |w|
  {
    if w == [] {
      assert w + x == x;
    } else {
      var v := ReadsFirst(s, w, t);
      ReadsBoth(v, w[1..], t, x, u);
      assert (w + x)[1..] == w[1..] + x;
    }
  }

  lemma FileRead(s: State, c: Byte, x: seq<Byte>)
    requires AtFile(s) && c != BACKSLASH
    ensures Got(On(s, [c] + x), 0) == (c, On(s, x))
  {
    var t := On(s, [c] + x);
    assert ([c] + x)[1..] == x;
    assert WithLast(t.files, Last(t.files).(stream := x)) == On(s, x).files;
  }

  /** Text without a backslash in the current file. */
  lemma {:induction false} FileReads(s: State, w: seq<Byte>, x: seq<Byte>)
    requires AtFile(s) && BACKSLASH !in w
    ensures ReadsAs(On(s, w + x), w, On(s, x))
    decreases |w|
  {
    if w == [] {
      assert w + x == x;
    } else {
      assert w + x == [w[0]] + (w[1..] + x);
      FileRead(s, w[0], w[1..] + x);
      FileReads(s, w[1..], x);
    }
  }

  /** Inside a macro, with i characters of its text read. */
  function In(s: State, text: seq<int>, i: nat): (t: State) {
    s.(parsebuf := Some(text), parseindex := i)
  }

  lemma MacroRead(s: State, text: seq<int>, i: nat)
    requires s.files != [] && i < |text|
    ensures Got(In(s, text, i), 0) == (text[i], In(s, text, i + 1))
  {
  }

  /** The text of a macro. */
  lemma {:induction false} MacroReads(s: State, text: seq<int>, i: nat)
    requires s.files != [] && i <= |text|
    ensures ReadsAs(In(s, text, i), text[i..], In(s, text, |text|))
    decreases |text| - i
  {
    if i < |text| {
      MacroRead(s, text, i);
      MacroReads(s, text, i + 1);
      assert text[i..][1..] == text[i + 1..];
    }
  }

  // ----- Scanning

  predicate IsAscii(w: seq<int>) {
    forall i :: 0 <= i < |w| ==> 0 <= w[i] < 128
  }

  predicate AllOf(w: seq<int>, more: int -> bool) {
    forall i :: 0 <= i < |w| ==> more(w[i])
  }

  lemma ScanMore(s: State, c: int, u: State, buf: seq<int>, more: int -> bool)
    requires s.files != [] && u.files != [] && Got(s, 0) == (c, u) && c != EOF && more(c) && c < 128 && |buf| < BUFSIZE
    ensures Scan(s, buf, more) == Scan(u, buf + [c], more)
  {
  }

  lemma ScanStop(s: State, c: int, u: State, buf: seq<int>, more: int -> bool)
    requires s.files != [] && Got(s, 0) == (c, u) && (c == EOF || !more(c)) && |buf| < BUFSIZE
    ensures Scan(s, buf, more) == Upto(buf, c, u)
  {
  }

  lemma {:induction false} ScanReads(s: State, w: seq<int>, d: int, t: State, buf: seq<int>, more: int -> bool)
    requires s.files != [] && ReadsAs(s, w + [d], t) && IsAscii(w) && AllOf(w, more) && (d == EOF || !more(d))
    requires |buf| + |w| < BUFSIZE
    ensures Scan(s, buf, more) == Upto(buf + w, d, t)
    decreases |w|
  {
    var u := ReadsFirst(s, w + [d], t);
    if w == [] {
      assert (w + [d])[0] == d && (w + [d])[1..] == [] && buf + w == buf;
      ScanStop(s, d, u, buf, more);
    } else {
      assert (w + [d])[1..] == w[1..] + [d] && buf + [w[0]] + w[1..] == buf + w;
      ScanMore(s, w[0], u, buf, more);
      ScanReads(u, w[1..], d, t, buf + [w[0]], more);
    }
  }

  /** What begins with a character that is no blank, comment or macro. */
  lemma LexPlain(s: State, c: int, t: State, macros: Macros)
    requires s.files != [] && t.files != [] && Got(s, 0) == (c, t) && !IsBlank(c) && c != HASH && c != DOLLAR
    ensures Lex(s, macros) == Plain(t, c)
  {
  }

  // ----- Characters

  predicate IsLetterOrDigit(c: char) {
    'a' <= c <= 'z' || 'A' <= c <= 'Z' || '0' <= c <= '9'
  }

  /** The characters in words, at their start, behind numbers, in the names of macros, and between tokens. */
  lemma CharacterClasses(c: char)
    requires c < '\U{0080}'
    ensures AllowedInString(c as int) <==> '!' < c <= '~' && c !in "(){}<>=/#,"
    ensures StartsWord(c as int) <==> IsLetterOrDigit(c) || c in ":_*"
    ensures AllowedToEndNumber(c as int) <==> c in " \t\n\r\U{000B}\U{000C}),/}="
    ensures InName(c as int) <==> IsLetterOrDigit(c) || c == '_'
    ensures IsBlank(c as int) <==> c in " \t"
  {
    assert "(){}<>=/#," == ['(', ')', '{', '}', '<', '>', '=', '/', '#', ','];
    assert " \t\n\r\U{000B}\U{000C}),/}=" ==
           [' ', '\t', '\n', '\r', '\U{000B}', '\U{000C}', ')', ',', '/', '}', '='];
  }

  /** Whatever ends a number ends a word, and whatever starts a word may stand in one. */
  lemma ClassesFit(c: int)
    ensures AllowedToEndNumber(c) ==> !AllowedInString(c)
    ensures StartsWord(c) || InName(c) ==> AllowedInString(c)
    ensures IsBlank(c) || c == NEWLINE || c == EOF ==> EndsNumber(c) && !AllowedInString(c)
  {
  }

  // ----- Words

  /** The characters of a word, from the first on. */
  predicate IsWordText(w: seq<int>) {
    w != [] && StartsWord(w[0]) && !ConfigLexer.IsDigit(w[0]) && AllOf(w, AllowedInString) && |w| < BUFSIZE
  }

  function WordLexeme(w: seq<int>, t: State): Lexeme {
    Lexeme(Lookup(w), if Lookup(w) == Token.STRING then Some(Text(w)) else None, t, 0)
  }

  lemma WordIsAscii(w: seq<int>)
    requires AllOf(w, AllowedInString)
    ensures IsAscii(w) && IsText(w)
  {
    forall i | 0 <= i < |w| ensures 0 < w[i] < 128 {
      assert AllowedInString(w[i]);
    }
  }

  /** From its first character on. */
  lemma WordFrom(s: State, c: int, x: seq<int>, d: int, t: State)
    requires s.files != [] && ReadsAs(s, x + [d], t) && AllOf([c] + x, AllowedInString) && !AllowedInString(d)
    requires |x| < BUFSIZE - 1
    ensures Word(s, c) == WordLexeme([c] + x, Ungot(t, d))
  {
    var w := [c] + x;
    WordIsAscii(w);
    assert w[0] == c && forall i :: 0 <= i < |x| ==> x[i] == w[i + 1];
    CStringOfText(w);
    ScanReads(s, x, d, t, [c], AllowedInString);
  }

  lemma WordStart(u: State, c: int)
    requires u.files != [] && StartsWord(c) && !ConfigLexer.IsDigit(c)
    ensures !IsBlank(c) && c != HASH && c != DOLLAR && Plain(u, c) == Word(u, c)
  {
  }

  lemma FirstThenRest(w: seq<int>, d: int)
    requires w != []
    ensures (w + [d])[0] == w[0] && (w + [d])[1..] == w[1..] + [d] && [w[0]] + w[1..] == w
  {
  }

  /** A word is the keyword that it spells, and else a string. */
  lemma WordRead(s: State, w: seq<int>, d: int, t: State, macros: Macros)
    requires s.files != [] && IsWordText(w) && !AllowedInString(d) && ReadsAs(s, w + [d], t)
    ensures Lex(s, macros) == WordLexeme(w, Ungot(t, d))
  {
    FirstThenRest(w, d);
    var u := ReadsFirst(s, w + [d], t);
    WordStart(u, w[0]);
    LexPlain(s, w[0], u, macros);
    WordFrom(u, w[0], w[1..], d, t);
  }

  // ----- Numbers

  predicate IsDigits(w: seq<int>) {
    w != [] && AllOf(w, ConfigLexer.IsDigit)
  }

  /** An optional minus sign and digits. */
  predicate IsNumberText(w: seq<int>) {
    (IsDigits(w) || (w != [] && w[0] == MINUS && IsDigits(w[1..]))) && |w| < BUFSIZE
  }

  predicate EndsNumber(d: int) {
    d == EOF || AllowedToEndNumber(d)
  }

  /** From its first character on, with the others read. */
  lemma DigitsRead(u: State, w: seq<int>, d: int, t: State)
    requires u.files != [] && t.files != [] && w != [] && 0 <= w[0] < 128 && w != [MINUS] && EndsNumber(d)
    requires Scan(u, [w[0]], ConfigLexer.IsDigit) == Upto(w, d, t)
    ensures NumberOrWord(u, w[0]) ==
            if IsLong(NumberOf(w)) then Lexeme(Token.NUMBER, Some(Number(NumberOf(w))), Ungot(t, d), 0)
            else BadLine(Reported(Ungot(t, d)), 1)
  {
  }

  lemma NumberParts(w: seq<int>, d: int)
    requires IsNumberText(w) && EndsNumber(d)
    ensures (w[0] == MINUS || ConfigLexer.IsDigit(w[0])) && w != [MINUS] && !ConfigLexer.IsDigit(d)
    ensures AllOf(w[1..], ConfigLexer.IsDigit) && IsAscii(w[1..])
    ensures (w + [d])[1..] == w[1..] + [d] && [w[0]] + w[1..] == w
  {
    if w[0] != MINUS {
      assert forall i :: 0 < i < |w| ==> w[i] == w[1..][i - 1];
      assert ConfigLexer.IsDigit(w[0]);
    }
  }

  /** A number that may end where it does has its value, if that fits 64 bits, and else is an error. */
  lemma NumberRead(s: State, w: seq<int>, d: int, t: State, macros: Macros)
    requires s.files != [] && t.files != [] && IsNumberText(w) && EndsNumber(d) && ReadsAs(s, w + [d], t)
    ensures Lex(s, macros) ==
            if IsLong(NumberOf(w)) then Lexeme(Token.NUMBER, Some(Number(NumberOf(w))), Ungot(t, d), 0)
            else BadLine(Reported(Ungot(t, d)), 1)
  {
    NumberParts(w, d);
    var u := ReadsFirst(s, w + [d], t);
    LexPlain(s, w[0], u, macros);
    ScanReads(u, w[1..], d, t, [w[0]], ConfigLexer.IsDigit);
    DigitsRead(u, w, d, t);
  }

  /** The characters of a string as ints. */
  function Chars(s: string): (w: seq<int>)
    ensures |w| == |s| && forall i :: 0 <= i < |s| ==> w[i] == s[i] as int
  {
    seq(|s|, i requires 0 <= i < |s| => s[i] as int)
  }

  lemma {:induction false} DigitsAreValue(s: string)
    requires AllDigits(s)
    ensures DigitsOf(Chars(s)) == DigitsValue(s)
    decreases |s|
  {
    if s != "" {
      DigitsAreValue(s[..|s| - 1]);
      assert Chars(s)[..|s| - 1] == Chars(s[..|s| - 1]);
    }
  }

  lemma DigitsOfNat(m: nat)
    ensures DigitsOf(Chars(PutDigits(m))) == m && IsDigits(Chars(PutDigits(m)))
  {
    var ds := PutDigits(m);
    DigitsRoundTrip(m);
    DigitsAreValue(ds);
    forall i | 0 <= i < |ds| ensures ConfigLexer.IsDigit(Chars(ds)[i]) {
      assert Numbers.IsDigit(ds[i]);
    }
  }

  lemma PlainDigits(w: seq<int>)
    requires IsDigits(w)
    ensures NumberOf(w) == DigitsOf(w) && (|w| < BUFSIZE ==> IsNumberText(w))
  {
    assert ConfigLexer.IsDigit(w[0]);
  }

  lemma MinusDigits(w: seq<int>)
    requires IsDigits(w)
    ensures NumberOf([MINUS] + w) == -DigitsOf(w) && (|w| < BUFSIZE - 1 ==> IsNumberText([MINUS] + w))
  {
    assert ([MINUS] + w)[1..] == w;
  }

  lemma MinusFirst(n: int)
    requires n < 0
    ensures Chars(Putn(n)) == [MINUS] + Chars(PutDigits(-n))
  {
    assert Putn(n) == "-" + PutDigits(-n);
  }

  /** An integer in decimal stands for itself. */
  lemma NumberOfDecimal(n: int)
    ensures NumberOf(Chars(Putn(n))) == n
    ensures |Putn(n)| < BUFSIZE ==> IsNumberText(Chars(Putn(n)))
  {
    var m := if n < 0 then -n else n;
    DigitsOfNat(m);
    if n < 0 {
      MinusFirst(n);
      MinusDigits(Chars(PutDigits(m)));
    } else {
      PlainDigits(Chars(PutDigits(m)));
    }
  }

  lemma {:induction false} DigitsBound(m: nat, k: nat)
    requires k > 0 && m < Ten(k)
    ensures |PutDigits(m)| <= k
    decreases k
  {
    if m > 9 {
      DigitsBound(m / 10, k - 1);
    }
  }

  function Ten(k: nat): nat {
    if k == 0 then 1 else 10 * Ten(k - 1)
  }

  lemma {:induction false} TenSum(j: nat, k: nat)
    ensures Ten(j + k) == Ten(j) * Ten(k)
  {
    if j > 0 {
      TenSum(j - 1, k);
    }
  }

  lemma LongIsShort(n: int)
    requires IsLong(n)
    ensures |Putn(n)| <= 20
  {
    assert Ten(4) == 10_000 && Ten(3) == 1000;
    TenSum(4, 4);
    TenSum(8, 8);
    TenSum(16, 3);
    DigitsBound(if n < 0 then -n else n, 19);
  }

  /** Every 64-bit integer can be written, and one beyond that is an error. */
  lemma DecimalRead(s: State, n: int, d: int, t: State, macros: Macros)
    requires s.files != [] && t.files != [] && EndsNumber(d) && ReadsAs(s, Chars(Putn(n)) + [d], t)
    requires IsLong(n) || |Putn(n)| < BUFSIZE
    ensures IsLong(n) ==> Lex(s, macros) == Lexeme(Token.NUMBER, Some(Number(n)), Ungot(t, d), 0)
    ensures !IsLong(n) ==> Lex(s, macros).token == Token.ERROR && Lex(s, macros).errors == 1
  {
    if IsLong(n) {
      LongIsShort(n);
    }
    NumberOfDecimal(n);
    NumberRead(s, Chars(Putn(n)), d, t, macros);
  }

  // ----- Words that begin with digits

  function Reversed(w: seq<int>): (r: seq<int>)
    ensures |r| == |w|
  {
    if w == [] then [] else Reversed(w[1..]) + [w[0]]
  }

  lemma {:induction false} ReversedLast(w: seq<int>)
    requires w != []
    ensures Reversed(w) == [w[|w| - 1]] + Reversed(w[..|w| - 1])
  {
    if |w| > 1 {
      ReversedLast(w[1..]);
      assert w[1..][..|w| - 2] == w[..|w| - 1][1..];
    }
  }

  /** Pushed back, the first character last. */
  function Back(s: State, p: seq<int>): State {
    s.(pushback := p)
  }

  lemma BackOne(s: State, p: seq<int>, c: int)
    requires s.parsebuf.None? && 0 <= c < 128 && |p| < MAXPUSHBACK - 1
    ensures Ungot(Back(s, p), c) == Back(s, p + [c])
  {
  }

  lemma {:induction false} PutBackIs(s: State, p: seq<int>, w: seq<int>)
    requires s.parsebuf.None? && w != [] && IsAscii(w) && |p| + |w| < MAXPUSHBACK + 1
    ensures PutBack(Back(s, p), w) == Back(s, p + Reversed(w[1..]))
    decreases |w|
  {
    if |w| == 1 {
      assert p + [] == p;
    } else {
      var last := w[|w| - 1];
      BackOne(s, p, last);
      PutBackIs(s, p + [last], w[..|w| - 1]);
      ReversedLast(w[1..]);
      assert w[1..][..|w| - 2] == w[..|w| - 1][1..];
      assert p + [last] + Reversed(w[..|w| - 1][1..]) == p + Reversed(w[1..]);
    }
  }

  lemma BackRead(s: State, p: seq<int>, c: int)
    requires s.files != [] && s.parsebuf.None?
    ensures Got(Back(s, p + [c]), 0) == (c, Back(s, p))
  {
    assert (p + [c])[..|p|] == p;
  }

  lemma {:induction false} BackReads(s: State, p: seq<int>, w: seq<int>)
    requires s.files != [] && s.parsebuf.None?
    ensures ReadsAs(Back(s, p + Reversed(w)), w, Back(s, p))
    decreases |w|
  {
    if w == [] {
      assert p + [] == p;
    } else {
      var q := p + Reversed(w[1..]);
      assert p + Reversed(w) == q + [w[0]];
      BackRead(s, q, w[0]);
      BackReads(s, p, w[1..]);
    }
  }

  /** The digits and what follows them, split where the number cannot end. */
  predicate IsMixedText(ds: seq<int>, v: seq<int>) {
    && IsDigits(ds) && v != [] && AllOf(v, AllowedInString) && !ConfigLexer.IsDigit(v[0])
    && |ds| < MAXPUSHBACK && |ds| + |v| < BUFSIZE
  }

  lemma MixedParts(ds: seq<int>, v: seq<int>)
    requires IsMixedText(ds, v)
    ensures ConfigLexer.IsDigit(ds[0]) && AllOf(ds[1..], ConfigLexer.IsDigit) && IsAscii(ds) && IsAscii(ds[1..])
    ensures AllOf(ds + v, AllowedInString) && ds != [MINUS]
    ensures v[0] != EOF && !AllowedToEndNumber(v[0]) && 0 <= v[0] < 128
    ensures ds == [ds[0]] + ds[1..] && v == [v[0]] + v[1..] && ds + v == [ds[0]] + (ds[1..] + v)
  {
    assert ConfigLexer.IsDigit(ds[0]) && AllowedInString(v[0]);
    assert forall i :: 0 < i < |ds| ==> ds[i] == ds[1..][i - 1];
    forall i | 0 <= i < |ds| + |v| ensures AllowedInString((ds + v)[i]) {
      assert i < |ds| ==> ConfigLexer.IsDigit(ds[i]);
    }
  }

  lemma NotANumber(u: State, ds: seq<int>, c: int, t: State)
    requires u.files != [] && t.files != [] && ds != [] && ConfigLexer.IsDigit(ds[0])
    requires c != EOF && !AllowedToEndNumber(c)
    requires Scan(u, [ds[0]], ConfigLexer.IsDigit) == Upto(ds, c, t)
    ensures NumberOrWord(u, ds[0]) == Word(PutBack(Ungot(t, c), ds), ds[0])
  {
  }

  /** A word in the current file that begins with digits, no more of them than can be put back. */
  lemma MixedRead(s: State, ds: seq<Byte>, v: seq<Byte>, d: Byte, rest: seq<Byte>, macros: Macros)
    requires AtFile(s) && IsMixedText(ds, v) && !AllowedInString(d) && BACKSLASH !in v && d != BACKSLASH
    ensures Lex(On(s, ds + v + [d] + rest), macros) == WordLexeme(ds + v, Ungot(On(s, rest), d))
  {
    MixedParts(ds, v);
    var after: seq<Byte> := v[1..] + ([d] + rest);
    var w: seq<Byte> := ds[1..] + [v[0]];
    var u := On(s, w + after);
    assert ds + v + [d] + rest == [ds[0]] + (w + after);
    FileRead(s, ds[0], w + after);
    LexPlain(On(s, [ds[0]] + (w + after)), ds[0], u, macros);
    MixedFirst(s, ds, v[0], after);
    MixedAgain(s, ds, v, d, rest, On(s, after));
  }

  /** The digits are read and put back. */
  lemma MixedFirst(s: State, ds: seq<Byte>, c: Byte, after: seq<Byte>)
    requires AtFile(s) && IsMixedText(ds, [c]) && c != BACKSLASH
    ensures var u, t := On(s, ds[1..] + [c] + after), On(s, after);
            NumberOrWord(u, ds[0]) == Word(Back(t, [c] + Reversed(ds[1..])), ds[0])
  {
    MixedParts(ds, [c]);
    var w: seq<Byte> := ds[1..] + [c];
    var u, t := On(s, w + after), On(s, after);
    assert BACKSLASH !in w;
    FileReads(s, w, after);
    ScanReads(u, ds[1..], c, t, [ds[0]], ConfigLexer.IsDigit);
    NotANumber(u, ds, c, t);
    assert t == Back(t, []) && [] + [c] == [c];
    BackOne(t, [], c);
    PutBackIs(t, [c], ds);
  }

  /** What was put back comes before what is left of the file. */
  lemma BackThenFile(s: State, c: int, x: seq<Byte>, rest: seq<Byte>, t: State)
    requires AtFile(s) && BACKSLASH !in x && t == On(s, x + rest)
    ensures ReadsAs(Back(t, [c]), [c] + x, On(s, rest))
  {
    FileReads(s, x, rest);
    assert [] + [c] == [c] && t == Back(t, []);
    BackRead(t, [], c);
    assert [c][1..] == [] && ReadsAs(Back(t, [c]), [c], t);
    ReadsBoth(Back(t, [c]), [c], t, x, On(s, rest));
  }

  lemma BackAndOn(s: State, w: seq<int>, c: int, x: seq<Byte>, rest: seq<Byte>, t: State)
    requires AtFile(s) && BACKSLASH !in x && t == On(s, x + rest)
    ensures ReadsAs(Back(t, [c] + Reversed(w)), w + ([c] + x), On(s, rest))
  {
    BackThenFile(s, c, x, rest, t);
    BackReads(t, [c], w);
    ReadsBoth(Back(t, [c] + Reversed(w)), w, Back(t, [c]), [c] + x, On(s, rest));
  }

  /** Read once more from the first digit on. */
  lemma MixedAgain(s: State, ds: seq<Byte>, v: seq<Byte>, d: Byte, rest: seq<Byte>, t: State)
    requires AtFile(s) && IsMixedText(ds, v) && !AllowedInString(d) && BACKSLASH !in v && d != BACKSLASH
    requires t == On(s, v[1..] + ([d] + rest))
    ensures Word(Back(t, [v[0]] + Reversed(ds[1..])), ds[0]) == WordLexeme(ds + v, Ungot(On(s, rest), d))
  {
    MixedParts(ds, v);
    var x: seq<Byte> := v[1..] + [d];
    assert v[1..] + ([d] + rest) == x + rest;
    BackAndOn(s, ds[1..], v[0], x, rest, t);
    assert ds[1..] + ([v[0]] + x) == ds[1..] + v + [d];
    WordFrom(Back(t, [v[0]] + Reversed(ds[1..])), ds[0], ds[1..] + v, d, On(s, rest));
  }

  /** A minus sign alone. */
  lemma MinusRead(s: State, d: int, t: State, macros: Macros)
    requires s.files != [] && !ConfigLexer.IsDigit(d) && ReadsAs(s, [MINUS, d], t)
    ensures Lex(s, macros) == Lexeme(MINUS, None, Ungot(t, d), 0)
  {
    var u := ReadsFirst(s, [MINUS, d], t);
    assert [MINUS, d][1..] == [] + [d];
    LexPlain(s, MINUS, u, macros);
    ScanReads(u, [], d, t, [MINUS], ConfigLexer.IsDigit);
  }

  // ----- Other characters

  /** Characters that are tokens by themselves, line ends among them. */
  predicate IsAlone(c: int) {
    c >= 0 && !IsBlank(c) && !StartsWord(c) && c !in {HASH, DOLLAR, SINGLE_QUOTE, DOUBLE_QUOTE, MINUS}
  }

  lemma AloneRead(s: State, c: int, t: State, macros: Macros)
    requires s.files != [] && IsAlone(c) && ReadsAs(s, [c], t)
    ensures Lex(s, macros) == Lexeme(c, None, t, 0)
  {
    var u := ReadsFirst(s, [c], t);
    LexPlain(s, c, u, macros);
  }

  lemma EndRead(s: State, t: State, macros: Macros)
    requires s.files != [] && ReadsAs(s, [EOF], t)
    ensures Lex(s, macros) == Lexeme(0, None, t, 0)
  {
    var u := ReadsFirst(s, [EOF], t);
    LexPlain(s, EOF, u, macros);
  }

  lemma BlankRead(s: State, c: int, t: State, macros: Macros)
    requires s.files != [] && IsBlank(c) && ReadsAs(s, [c], t)
    ensures t.files != [] && Lex(s, macros) == Lex(t, macros)
  {
    var u := ReadsFirst(s, [c], t);
    LexBehind(s, c, u, macros);
  }

  lemma LexBehind(s: State, c: int, t: State, macros: Macros)
    requires s.files != [] && t.files != [] && Got(s, 0) == (c, t) && IsBlank(c)
    ensures Lex(s, macros) == Lex(t, macros)
  {
  }

  lemma {:induction false} LineRead(s: State, x: seq<int>, t: State)
    requires s.files != [] && ReadsAs(s, x + [NEWLINE], t) && NEWLINE !in x && EOF !in x
    ensures SkipLine(s) == (NEWLINE, t)
    decreases |x|
  {
    var u := ReadsFirst(s, x + [NEWLINE], t);
    if x == [] {
      assert (x + [NEWLINE])[0] == NEWLINE && (x + [NEWLINE])[1..] == [];
      SkipStop(s, u);
    } else {
      assert (x + [NEWLINE])[1..] == x[1..] + [NEWLINE];
      LineRead(u, x[1..], t);
      SkipMore(s, x[0], u);
    }
  }

  lemma SkipStop(s: State, u: State)
    requires s.files != [] && Got(s, 0) == (NEWLINE, u)
    ensures SkipLine(s) == (NEWLINE, u)
  {
  }

  lemma SkipMore(s: State, c: int, u: State)
    requires s.files != [] && u.files != [] && Got(s, 0) == (c, u) && c != NEWLINE && c != EOF
    ensures SkipLine(s) == SkipLine(u)
  {
  }

  /** A comment reads as the line end behind it. */
  lemma CommentRead(s: State, x: seq<int>, t: State, macros: Macros)
    requires s.files != [] && ReadsAs(s, [HASH] + x + [NEWLINE], t) && NEWLINE !in x && EOF !in x
    ensures Lex(s, macros) == Lexeme(NEWLINE, None, t, 0)
  {
    var w := [HASH] + x + [NEWLINE];
    var u := ReadsFirst(s, w, t);
    assert w[1..] == x + [NEWLINE];
    LineRead(u, x, t);
    LexComment(s, u, t, macros);
  }

  lemma LexComment(s: State, u: State, t: State, macros: Macros)
    requires s.files != [] && u.files != [] && Got(s, 0) == (HASH, u) && SkipLine(u) == (NEWLINE, t)
    ensures Lex(s, macros) == Lexeme(NEWLINE, None, t, 0)
  {
  }

  // ----- Macros

  lemma NameMore(s: State, c: int, u: State, buf: seq<int>)
    requires s.files != [] && u.files != [] && Got(s, 0) == (c, u) && InName(c) && |buf| < BUFSIZE - 2
    ensures ScanName(s, buf) == ScanName(u, buf + [c])
  {
  }

  lemma NameStop(s: State, c: int, u: State, buf: seq<int>)
    requires s.files != [] && Got(s, 0) == (c, u) && !InName(c) && c != EOF && |buf| < BUFSIZE - 2
    ensures ScanName(s, buf) == Name(buf, Ungot(u, c))
  {
  }

  lemma {:induction false} NameRead(s: State, w: seq<int>, d: int, t: State, buf: seq<int>)
    requires s.files != [] && ReadsAs(s, w + [d], t) && AllOf(w, InName) && !InName(d) && d != EOF
    requires |buf| + |w| < BUFSIZE - 2
    ensures ScanName(s, buf) == Name(buf + w, Ungot(t, d))
    decreases |w|
  {
    var u := ReadsFirst(s, w + [d], t);
    if w == [] {
      assert (w + [d])[0] == d && (w + [d])[1..] == [] && buf + w == buf;
      NameStop(s, d, u, buf);
    } else {
      assert (w + [d])[1..] == w[1..] + [d] && buf + [w[0]] + w[1..] == buf + w;
      NameMore(s, w[0], u, buf);
      NameRead(u, w[1..], d, t, buf + [w[0]]);
    }
  }

  lemma NoMacroStays(s: State)
    requires s.files != [] && s.parsebuf.None?
    ensures Got(s, 0).1.parsebuf.None?
  {
  }

  lemma LexDollar(s: State, u: State, name: seq<int>, t: State, macros: Macros)
    requires s.files != [] && u.files != [] && t.files != [] && Got(s, 0) == (DOLLAR, u) && u.parsebuf.None?
    requires ScanName(u, []) == Name(name, t)
    ensures name in macros ==> Lex(s, macros) == Lex(In(t, macros[name], 0), macros)
    ensures name !in macros ==> Lex(s, macros) == BadLine(Reported(t), 1)
  {
  }

  /** A macro that is defined is read from then on, and one that is not is an error. */
  lemma MacroExpands(s: State, name: seq<int>, d: int, t: State, macros: Macros)
    requires s.files != [] && t.files != [] && s.parsebuf.None? && ReadsAs(s, [DOLLAR] + (name + [d]), t)
    requires AllOf(name, InName) && |name| < BUFSIZE - 2 && !InName(d) && d != EOF
    ensures name in macros ==> Lex(s, macros) == Lex(In(Ungot(t, d), macros[name], 0), macros)
    ensures name !in macros ==> Lex(s, macros) == BadLine(Reported(Ungot(t, d)), 1)
  {
    var w := [DOLLAR] + (name + [d]);
    var u := ReadsFirst(s, w, t);
    assert w[1..] == name + [d] && [] + name == name;
    NoMacroStays(s);
    NameRead(u, name, d, t, []);
    LexDollar(s, u, name, Ungot(t, d), macros);
  }

  /** Behind the text of a macro comes the character that followed its name. */
  lemma MacroThenChar(s: State, text: seq<int>, d: Byte, rest: seq<Byte>)
    requires AtFile(s) && d < 128
    ensures var after := On(s, rest).(parseindex := |text| + 1);
            ReadsAs(In(Ungot(On(s, rest), d), text, 0), text + [d], after)
  {
    var u, after := Ungot(On(s, rest), d), On(s, rest).(parseindex := |text| + 1);
    assert u.pushback == [d] && [d][..0] == [];
    MacroReads(u, text, 0);
    assert text[0..] == text;
    var m := In(u, text, |text|);
    assert Got(m, 0) == (d, after);
    assert [d][1..] == [];
    assert ReadsAs(m, [d], after);
    ReadsBoth(In(u, text, 0), text, m, [d], after);
  }

  /** A word or a number. */
  predicate IsTokenText(w: seq<int>, d: int) {
    (IsWordText(w) && !AllowedInString(d)) || (IsNumberText(w) && EndsNumber(d))
  }

  /** What a word or a number is read as does not depend on where it stands. */
  lemma SameToken(s: State, s': State, w: seq<int>, d: int, t: State, t': State, macros: Macros)
    requires s.files != [] && s'.files != [] && t.files != [] && t'.files != [] && IsTokenText(w, d)
    requires ReadsAs(s, w + [d], t) && ReadsAs(s', w + [d], t')
    ensures var a, b := Lex(s, macros), Lex(s', macros);
            a.token == b.token && a.value == b.value && a.errors == b.errors
  {
    if IsWordText(w) && !AllowedInString(d) {
      WordRead(s, w, d, t, macros);
      WordRead(s', w, d, t', macros);
    } else {
      NumberRead(s, w, d, t, macros);
      NumberRead(s', w, d, t', macros);
    }
  }

  lemma FileReadsTo(s: State, w: seq<Byte>, d: Byte, rest: seq<Byte>)
    requires AtFile(s) && BACKSLASH !in w && d != BACKSLASH
    ensures ReadsAs(On(s, w + [d] + rest), w + [d], On(s, rest))
  {
    FileReads(s, w + [d], rest);
  }

  /** A macro for a word or a number is read as that word or number in its place. */
  lemma MacroIsText(s: State, name: seq<Byte>, text: seq<Byte>, d: Byte, rest: seq<Byte>, macros: Macros)
    requires AtFile(s) && AllOf(name, InName) && |name| < BUFSIZE - 2 && !InName(d) && d < 128 && d != BACKSLASH
    requires name in macros && macros[name] == text && IsTokenText(text, d) && BACKSLASH !in text
    ensures var a, b := Lex(On(s, [DOLLAR] + name + [d] + rest), macros), Lex(On(s, text + [d] + rest), macros);
            a.token == b.token && a.value == b.value && a.errors == b.errors
  {
    var w: seq<Byte> := [DOLLAR] + name;
    assert forall i :: 0 <= i < |name| ==> InName(name[i]);
    FileReadsTo(s, w, d, rest);
    assert w + [d] == [DOLLAR] + (name + [d]);
    MacroExpands(On(s, w + [d] + rest), name, d, On(s, rest), macros);
    MacroThenChar(s, text, d, rest);
    FileReadsTo(s, text, d, rest);
    SameToken(In(Ungot(On(s, rest), d), text, 0), On(s, text + [d] + rest), text, d,
              On(s, rest).(parseindex := |text| + 1), On(s, rest), macros);
  }
}
