/**
  Which texts can be written between quotes in a configuration file (yylex of
  ifconfigctl/parse.c): any 7-bit text that fits the buffer, except for line ends.
 */
module ConfigQuotes {
  import opened Numbers
  import opened ConfigFiles
  import opened ConfigLexer
  import Token = ConfigGrammar

  predicate IsQuote(q: Byte) {
    q == SINGLE_QUOTE || q == DOUBLE_QUOTE
  }

  /** A quote is written behind a backslash, and a backslash at the end before an escaped line end. */
  function Write(text: seq<Byte>, q: Byte): seq<Byte> {
    if text == [] then []
    else if text[0] == q then [BACKSLASH, q] + Write(text[1..], q)
    else if text == [BACKSLASH] then [BACKSLASH, BACKSLASH, NEWLINE]
    else [text[0]] + Write(text[1..], q)
  }

  /** The next character comes from the current file. */
  predicate AtFile(s: State) {
    s.files != [] && s.pushback == [] && s.parsebuf.None?
  }

  /** With this left in the current file. */
  function On(s: State, stream: seq<Byte>): (t: State)
    requires s.files != []
    ensures t.files != []
  {
    s.(files := WithLast(s.files, Last(s.files).(stream := stream)))
  }

  /** In quotes, the next character is c, and then t is left. */
  predicate Gives(s: State, q: int, c: int, t: State)
    requires s.files != []
  {
    Got(s, q) == (c, t) && ReadErrors(s, q) == 0
  }

  lemma FileGives(s: State, x: seq<Byte>, q: Byte)
    requires AtFile(s) && x != [] && q != 0
    ensures Gives(On(s, x), q, x[0], On(s, x[1..]))
  {
    assert WithLast(On(s, x).files, Last(On(s, x).files).(stream := x[1..])) == On(s, x[1..]).files;
  }

  lemma BackGives(s: State, x: seq<Byte>, c: Byte, q: Byte)
    requires AtFile(s) && c < 128
    ensures Gives(Ungot(On(s, x), c), q, c, On(s, x))
  {
    ReadBack(On(s, x), c, q);
  }

  lemma GivesRound(s: State, q: Byte, c: int, t: State, buf: seq<int>, n: nat, r: Round)
    requires s.files != [] && Gives(s, q, c, t) && r == Took(c, t, q, buf, n)
    ensures r.Stop? ==> ScanQuoted(s, q, buf, n) == r.result
    ensures r.Go? ==> r.input.files != [] && ScanQuoted(s, q, buf, n) == ScanQuoted(r.input, q, r.buf, r.errors)
  {
    RoundByRound(s, q, buf, n, c, t, n, r);
  }

  lemma GivesEscaped(s: State, q: Byte, c: int, t: State, buf: seq<int>, n: nat)
    requires s.files != [] && Gives(s, q, c, t) && c != EOF && (c == NEWLINE || |buf| < BUFSIZE - 2)
    requires IsQuote(q)
    ensures Escaped(s, q, buf, n) == if c == q then Go(t, buf + [AsChar(c)], n)
                                     else if c == NEWLINE then Go(t, buf, n)
                                     else Go(Ungot(t, c), buf + [AsChar(BACKSLASH)], n)
  {
  }

  /** A character that stands for itself. */
  lemma PlainStep(s: State, q: Byte, c: Byte, t: State, buf: seq<int>, n: nat)
    requires s.files != [] && t.files != [] && Gives(s, q, c, t) && |buf| < BUFSIZE - 2
    requires c < 128 && c != q && c != NEWLINE && c != BACKSLASH
    ensures ScanQuoted(s, q, buf, n) == ScanQuoted(t, q, buf + [c], n)
  {
    GivesRound(s, q, c, t, buf, n, Took(c, t, q, buf, n));
  }

  /** A backslash with what follows it. */
  lemma BackslashStep(s: State, q: Byte, t: State, d: Byte, u: State, buf: seq<int>, n: nat)
    requires s.files != [] && t.files != [] && u.files != [] && IsQuote(q) && d < 128
    requires Gives(s, q, BACKSLASH, t) && Gives(t, q, d, u) && (d == NEWLINE || |buf| < BUFSIZE - 2)
    ensures ScanQuoted(s, q, buf, n) == if d == q then ScanQuoted(u, q, buf + [q], n)
                                        else if d == NEWLINE then ScanQuoted(u, q, buf, n)
                                        else ScanQuoted(Ungot(u, d), q, buf + [BACKSLASH], n)
  {
    GivesEscaped(t, q, d, u, buf, n);
    GivesRound(s, q, BACKSLASH, t, buf, n, Escaped(t, q, buf, n));
  }

  predicate CanWrite(text: seq<Byte>) {
    IsText(text) && NEWLINE !in text
  }

  /** What is written starts with no quote and no line end. */
  lemma WriteStarts(text: seq<Byte>, q: Byte)
    requires CanWrite(text) && text != [] && IsQuote(q)
    ensures Write(text, q) != []
    ensures var d := Write(text, q)[0];
            d < 128 && d != q && d != NEWLINE
  {
  }

  function Closing(text: seq<Byte>, q: Byte, rest: seq<Byte>): (x: seq<Byte>)
    ensures x != []
  {
    Write(text, q) + ([q] + rest)
  }

  lemma ClosingParts(text: seq<Byte>, q: Byte, rest: seq<Byte>)
    ensures text == [] ==> Closing(text, q, rest) == [q] + rest
    ensures text != [] && text[0] == q ==>
              Closing(text, q, rest) == [BACKSLASH] + ([q] + Closing(text[1..], q, rest))
    ensures text == [BACKSLASH] && q != BACKSLASH ==>
              Closing(text, q, rest) == [BACKSLASH] + ([BACKSLASH] + ([NEWLINE] + Closing([], q, rest)))
    ensures text != [] && text[0] != q && text != [BACKSLASH] ==>
              Closing(text, q, rest) == [text[0]] + Closing(text[1..], q, rest)
  {
  }

  /** A backslash at the end is kept by an escaped line end. */
  lemma LastBackslash(s: State, u: State, q: Byte, buf: seq<int>, n: nat, x: seq<Byte>)
    requires AtFile(s) && u.files != [] && IsQuote(q) && |buf| < BUFSIZE - 2
    requires Gives(u, q, BACKSLASH, On(s, [BACKSLASH] + ([NEWLINE] + x)))
    ensures ScanQuoted(u, q, buf, n) == ScanQuoted(On(s, x), q, buf + [BACKSLASH], n)
  {
    var y := [NEWLINE] + x;
    FileGives(s, [BACKSLASH] + y, q);
    assert ([BACKSLASH] + y)[1..] == y && y[1..] == x;
    BackslashStep(u, q, On(s, [BACKSLASH] + y), BACKSLASH, On(s, y), buf, n);
    BackGives(s, y, BACKSLASH, q);
    FileGives(s, y, q);
    BackslashStep(Ungot(On(s, y), BACKSLASH), q, On(s, y), NEWLINE, On(s, x), buf + [BACKSLASH], n);
  }

  lemma TextParts(text: seq<Byte>, buf: seq<int>)
    requires text != [] && CanWrite(text)
    ensures CanWrite(text[1..]) && buf + [text[0]] + text[1..] == buf + text
  {
    assert text == [text[0]] + text[1..];
  }

  /** The loop over a quoted string takes back what was written, however the first character comes. */
  lemma {:induction false} ScanWritten(s: State, u: State, q: Byte, text: seq<Byte>, rest: seq<Byte>,
                                       buf: seq<int>, n: nat)
    requires AtFile(s) && u.files != [] && IsQuote(q) && CanWrite(text) && |buf| + |text| <= BUFSIZE - 2
    requires var x := Closing(text, q, rest);
             Gives(u, q, x[0], On(s, x[1..]))
    ensures ScanQuoted(u, q, buf, n) == Closed(buf + text, On(s, rest), n)
    decreases |text|
  {
    ClosingParts(text, q, rest);
    if text == [] {
      assert ([q] + rest)[1..] == rest && buf + text == buf;
      GivesRound(u, q, q, On(s, rest), buf, n, Stop(Closed(buf, On(s, rest), n)));
    } else {
      TextParts(text, buf);
      WrittenStep(s, u, q, text, rest, buf, n);
    }
  }

  lemma {:induction false} WrittenStep(s: State, u: State, q: Byte, text: seq<Byte>, rest: seq<Byte>,
                                       buf: seq<int>, n: nat)
    requires AtFile(s) && u.files != [] && IsQuote(q) && CanWrite(text) && |buf| + |text| <= BUFSIZE - 2
    requires text != [] && CanWrite(text[1..])
    requires var x := Closing(text, q, rest);
             Gives(u, q, x[0], On(s, x[1..]))
    ensures ScanQuoted(u, q, buf, n) == Closed(buf + [text[0]] + text[1..], On(s, rest), n)
    decreases |text|, 0
  {
    var x, y := Closing(text, q, rest), Closing(text[1..], q, rest);
    ClosingParts(text, q, rest);
    FileGives(s, y, q);
    if text[0] == q {
      assert x[1..] == [q] + y && ([q] + y)[1..] == y;
      FileGives(s, [q] + y, q);
      BackslashStep(u, q, On(s, [q] + y), q, On(s, y), buf, n);
      ScanWritten(s, On(s, y), q, text[1..], rest, buf + [q], n);
    } else if text == [BACKSLASH] {
      var z := [BACKSLASH] + ([NEWLINE] + y);
      assert x == [BACKSLASH] + z && x[1..] == z;
      LastBackslash(s, u, q, buf, n, y);
      ScanWritten(s, On(s, y), q, text[1..], rest, buf + [BACKSLASH], n);
    } else {
      assert x[1..] == y;
      if text[0] == BACKSLASH {
        WriteStarts(text[1..], q);
        assert y[0] == Write(text[1..], q)[0];
        BackslashStep(u, q, On(s, y), y[0], On(s, y[1..]), buf, n);
        BackGives(s, y[1..], y[0], q);
        ScanWritten(s, Ungot(On(s, y[1..]), y[0]), q, text[1..], rest, buf + [BACKSLASH], n);
      } else {
        PlainStep(u, q, text[0], On(s, y), buf, n);
        ScanWritten(s, On(s, y), q, text[1..], rest, buf + [text[0]], n);
      }
    }
  }

  lemma {:induction false} CStringOfText(text: seq<int>)
    requires IsText(text)
    ensures CString(text) == text
    decreases |text|
  {
    if text != [] {
      CStringOfText(text[1..]);
    }
  }

  /** A quote begins a string. */
  lemma LexQuote(s: State, q: Byte, x: seq<Byte>, macros: Macros)
    requires AtFile(s) && IsQuote(q)
    ensures Lex(On(s, [q] + x), macros) == QuotedString(On(s, x), q)
  {
    var t := On(s, [q] + x);
    assert ([q] + x)[1..] == x;
    assert WithLast(t.files, Last(t.files).(stream := x)) == On(s, x).files;
    LexFrom(t, macros, q, On(s, x));
  }

  lemma LexFrom(s: State, macros: Macros, q: Byte, t: State)
    requires s.files != [] && Got(s, 0) == (q, t) && IsQuote(q)
    ensures Lex(s, macros) == QuotedString(t, q)
  {
  }

  /** A text between quotes is read back. */
  lemma ReadsWritten(s: State, q: Byte, text: seq<Byte>, rest: seq<Byte>, macros: Macros)
    requires AtFile(s) && IsQuote(q) && CanWrite(text) && |text| <= BUFSIZE - 2
    ensures Lex(On(s, [q] + Closing(text, q, rest)), macros) ==
            Lexeme(Token.STRING, Some(Text(text)), On(s, rest), 0)
  {
    var x := Closing(text, q, rest);
    FileGives(s, x, q);
    ScanWritten(s, On(s, x), q, text, rest, [], 0);
    assert [] + text == text;
    CStringOfText(text);
    LexQuote(s, q, x, macros);
  }

  // ----- And nothing else

  lemma StoresNoLineEnd(c: int, t: State, q: Byte, buf: seq<int>, n: nat)
    requires t.files != [] && Clean(t) && FineChar(c, t) && IsQuote(q) && NEWLINE !in buf
    ensures match Took(c, t, q, buf, n)
            case Go(_, buf', _) => NEWLINE !in buf'
            case Stop(r) => r.Closed? ==> r.text == buf
  {
  }

  lemma {:induction false} NoLineEnd(s: State, q: Byte, buf: seq<int>, n: nat)
    requires s.files != [] && Clean(s) && IsQuote(q) && NEWLINE !in buf
    ensures var r := ScanQuoted(s, q, buf, n);
            r.Closed? ==> NEWLINE !in r.text
    decreases Left(s), MacroLeft(s)
  {
    var (c, t) := Got(s, q);
    var n' := ErrorsAfter(s, q, n);
    var r := Took(c, t, q, buf, n');
    GotFollows(true, s, q);
    TookFollows(true, s, c, t, q, buf, n, n');
    RoundByRound(s, q, buf, n, c, t, n', r);
    StoresNoLineEnd(c, t, q, buf, n');
    if r.Go? {
      NoLineEnd(r.input, q, r.buf, r.errors);
    }
  }

  lemma {:induction false} CStringWithin(buf: seq<int>)
    ensures NEWLINE !in buf ==> NEWLINE !in CString(buf)
    decreases |buf|
  {
    if buf != [] && buf[0] != 0 {
      CStringWithin(buf[1..]);
    }
  }

  /** yylex reads this text from what is written behind a quote. */
  predicate IsWritten(s: State, q: Byte, w: seq<Byte>, text: seq<Byte>, macros: Macros)
    requires s.files != []
  {
    IsText(w) && Lex(On(s, [q] + w), macros).value == Some(Text(text))
  }

  lemma WriteIsText(text: seq<Byte>, q: Byte)
    requires IsText(text) && IsQuote(q)
    ensures IsText(Closing(text, q, []))
    decreases |text|
  {
    ClosingParts(text, q, []);
    if text != [] {
      WriteIsText(text[1..], q);
    }
  }

  /** A text that fits the buffer can be written in quotes exactly if it has no line end. */
  lemma QuotesExactly(s: State, q: Byte, text: seq<Byte>, macros: Macros)
    requires AtFile(s) && Clean(s) && IsQuote(q) && IsText(text) && |text| <= BUFSIZE - 2
    ensures (exists w :: IsWritten(s, q, w, text, macros)) <==> NEWLINE !in text
  {
    if NEWLINE !in text {
      ReadsWritten(s, q, text, [], macros);
      WriteIsText(text, q);
      assert IsWritten(s, q, Closing(text, q, []), text, macros);
    }
    if w :| IsWritten(s, q, w, text, macros) {
      LexQuote(s, q, w, macros);
      NoLineEnd(On(s, w), q, [], 0);
      CStringWithin(match ScanQuoted(On(s, w), q, [], 0) case Closed(buf, _, _) => buf case _ => []);
    }
  }
}
