/**
  The configuration grammar (ifconfigctl/parse.c), and the proof that the tables parse it:
  a parse that is accepted without an error has read a sentence.
 */
module ConfigGrammar {
  import opened Numbers
  import opened LrMachine
  import opened LrGrammar
  import opened ConfigTables
  import opened ConfigParse

  const NEWLINE: int := 10
  const COMMA: int := 44
  const EQUALS: int := 61
  const OPEN: int := 123
  const CLOSE: int := 125
  const ERROR: int := 257
  const LISTEN: int := 258
  const ON: int := 259
  const TLS: int := 260
  const LDAPS: int := 261
  const PORT: int := 262
  const NAMESPACE: int := 263
  const ROOTDN: int := 264
  const ROOTPW: int := 265
  const INDEX: int := 266
  const SECURE: int := 267
  const RELAX: int := 268
  const STRICT: int := 269
  const SCHEMA: int := 270
  const USE: int := 271
  const COMPRESSION: int := 272
  const LEVEL: int := 273
  const INCLUDE: int := 274
  const CERTIFICATE: int := 275
  const FSYNC: int := 276
  const CACHE_SIZE: int := 277
  const INDEX_CACHE_SIZE: int := 278
  const DENY: int := 279
  const ALLOW: int := 280
  const READ: int := 281
  const WRITE: int := 282
  const BIND: int := 283
  const ACCESS: int := 284
  const TO: int := 285
  const ROOT: int := 286
  const REFERRAL: int := 287
  const ANY: int := 288
  const CHILDREN: int := 289
  const OF: int := 290
  const ATTRIBUTE: int := 291
  const IN: int := 292
  const SUBTREE: int := 293
  const BY: int := 294
  const SELF: int := 295
  const STRING: int := 296
  const NUMBER: int := 297

  const GRAMMAR: int := Nonterminal(0)
  const PORT_OPT: int := Nonterminal(1)
  const SSL: int := Nonterminal(2)
  const BOOLEAN: int := Nonterminal(3)
  const COMP_LEVEL: int := Nonterminal(4)
  const ACI_TYPE: int := Nonterminal(5)
  const ACI_ACCESS: int := Nonterminal(6)
  const ACI_RIGHTS: int := Nonterminal(7)
  const ACI_RIGHT: int := Nonterminal(8)
  const ACI_SCOPE: int := Nonterminal(9)
  const ACI_TARGET: int := Nonterminal(10)
  const ACI_SUBJECT: int := Nonterminal(11)
  const CERTNAME: int := Nonterminal(12)
  const ACI: int := Nonterminal(13)
  const INCLUDE_LINE: int := Nonterminal(14)
  const VARSET: int := Nonterminal(15)
  const CONF_MAIN: int := Nonterminal(16)
  const NAMESPACE_BLOCK: int := Nonterminal(17)
  const SCHEMA_LINE: int := Nonterminal(18)
  const NS_OPTS: int := Nonterminal(19)
  const MIDRULE: int := Nonterminal(20)
  const NS_OPT: int := Nonterminal(21)

  /** The right-hand sides of the rules. */
  function Rhs(r: int): seq<int> {
    match r
    case 2 => [GRAMMAR, NEWLINE]
    case 3 => [GRAMMAR, INCLUDE_LINE, NEWLINE]
    case 4 => [GRAMMAR, VARSET, NEWLINE]
    case 5 => [GRAMMAR, CONF_MAIN, NEWLINE]
    case 6 => [GRAMMAR, YYERRCODE, NEWLINE]
    case 7 => [GRAMMAR, NAMESPACE_BLOCK, NEWLINE]
    case 8 => [GRAMMAR, ACI, NEWLINE]
    case 9 => [GRAMMAR, SCHEMA_LINE, NEWLINE]
    case 11 => [TLS]
    case 12 => [LDAPS]
    case 13 => [SECURE]
    case 15 => [CERTIFICATE, STRING]
    case 16 => [PORT, STRING]
    case 17 => [PORT, NUMBER]
    case 19 => [LISTEN, ON, STRING, PORT_OPT, SSL, CERTNAME]
    case 20 => [REFERRAL, STRING]
    case 21 => [ROOTDN, STRING]
    case 22 => [ROOTPW, STRING]
    case 24 => [NAMESPACE, STRING, OPEN, NEWLINE, MIDRULE, NS_OPTS, CLOSE]
    case 25 => [STRING]
    case 26 => [ON]
    case 28 => [NS_OPTS, NEWLINE]
    case 29 => [NS_OPTS, NS_OPT, NEWLINE]
    case 30 => [ROOTDN, STRING]
    case 31 => [ROOTPW, STRING]
    case 32 => [INDEX, STRING]
    case 33 => [CACHE_SIZE, NUMBER]
    case 34 => [INDEX_CACHE_SIZE, NUMBER]
    case 35 => [FSYNC, BOOLEAN]
    case 36 => [ACI]
    case 37 => [RELAX, SCHEMA]
    case 38 => [STRICT, SCHEMA]
    case 39 => [USE, COMPRESSION, COMP_LEVEL]
    case 40 => [REFERRAL, STRING]
    case 42 => [LEVEL, NUMBER]
    case 43 => [ACI_TYPE, ACI_ACCESS, TO, ACI_SCOPE, ACI_TARGET, ACI_SUBJECT]
    case 44 => [ACI_TYPE, ACI_ACCESS]
    case 45 => [DENY]
    case 46 => [ALLOW]
    case 48 => [ACCESS]
    case 49 => [ACI_RIGHTS, ACCESS]
    case 50 => [ACI_RIGHT]
    case 51 => [ACI_RIGHTS, COMMA, ACI_RIGHT]
    case 52 => [READ]
    case 53 => [WRITE]
    case 54 => [BIND]
    case 56 => [SUBTREE]
    case 57 => [CHILDREN, OF]
    case 58 => [ANY]
    case 59 => [ROOT]
    case 60 => [STRING]
    case 62 => [BY, ANY]
    case 63 => [BY, STRING]
    case 64 => [BY, SELF]
    case 65 => [INCLUDE, STRING]
    case 66 => [STRING, EQUALS, STRING]
    case 67 => [SCHEMA, STRING]
    case _ => []
  }

  /** The symbol that every way into a state ends with; the bottom has none. */
  function AccessOf(i: int): int {
    if i < 1 then 0
    else if i < 11 then Row(i - 1, -1, 256, 258, 263, 264, 265, 270, 274, 279, 280)
    else if i < 21 then Row(i - 11, 287, 296, 10, -6, -14, -15, -16, -17, -18, -19)
    else if i < 31 then Row(i - 21, 10, 259, 296, 296, 296, 296, 296, 296, 61, 281)
    else if i < 41 then Row(i - 31, 282, 283, 284, -7, -8, -9, 10, 10, 10, 10)
    else if i < 51 then Row(i - 41, 10, 10, 296, 123, 296, 285, 284, 44, 262, -2)
    else if i < 61 then Row(i - 51, 10, 289, 293, -10, -9, 296, 297, 260, 261, 267)
    else if i < 71 then Row(i - 61, -3, -21, 290, 286, 288, 296, -11, 275, -13, -20)
    else if i < 81 then Row(i - 71, 294, -12, 296, 264, 265, 266, 268, 269, 271, 276)
    else if i < 91 then Row(i - 81, 277, 278, 287, 10, 125, -14, -22, 288, 295, 296)
    else if i < 101 then Row(i - 91, 296, 296, 296, 270, 270, 272, 259, 296, -4, 297)
    else if i < 111 then Row(i - 101, 297, 296, 10, 273, -5, 297, 0, 0, 0, 0)
    else 0
  }

  const GRAMMAR_RULES: Grammar := Grammar(68, YyLhs, Rhs)

  // ----- The certificate

  lemma ShiftsSpell(s: int, y: int)
    requires 0 <= s < 107 && 0 <= y <= 301 && YySindex(s) != 0 && YyCheck(y) >= 0 && YyCheck(y) == y - YySindex(s)
    ensures YyCheck(y) > 0 && AccessOf(YyTable(y)) == YyCheck(y)
  {
  }

  lemma GotosSpell(x: int, r: int)
    requires 0 <= x < 107 && 0 < r < 68
    ensures AccessOf(Goto(x, YyLhs(r))) == Nonterminal(YyLhs(r))
  {
  }

  /** The symbols from x down, over the states that may lie there, are the first m of the rule. */
  predicate Chain(x: int, m: nat, rhs: seq<int>)
    requires m <= |rhs|
    decreases m
  {
    m == 0 || (AccessOf(x) == rhs[m - 1] && (One(x) != -1 ==> Chain(One(x), m - 1, rhs) && Chain(Two(x), m - 1, rhs)))
  }

  lemma {:induction false} ChainSpells(x: int, m: nat, rhs: seq<int>)
    requires m <= |rhs| && Chain(x, m, rhs)
    ensures Spells(Below, AccessOf, x, m, rhs)
    decreases m
  {
    if m > 0 && One(x) != -1 {
      ChainSpells(One(x), m - 1, rhs);
      ChainSpells(Two(x), m - 1, rhs);
    }
  }

  lemma LengthsLow(r: int)
    requires 0 < r < 34
    ensures |Rhs(r)| == YyLen(r)
  {
  }

  lemma LengthsHigh(r: int)
    requires 34 <= r < 68
    ensures |Rhs(r)| == YyLen(r)
  {
  }

  lemma LengthsAgree(r: int)
    requires 0 < r < 68
    ensures |Rhs(r)| == YyLen(r)
  {
    if r < 34 { LengthsLow(r); } else { LengthsHigh(r); }
  }

  lemma LastLow(s: int, r: int)
    requires 0 <= s < 50 && r == YyDefred(s) != 0 && YyLen(r) >= 1
    ensures 0 < r < 68 && |Rhs(r)| == YyLen(r) && AccessOf(s) == Rhs(r)[YyLen(r) - 1]
  {
  }

  lemma LastHigh(s: int, r: int)
    requires 50 <= s < 107 && r == YyDefred(s) != 0 && YyLen(r) >= 1
    ensures 0 < r < 68 && |Rhs(r)| == YyLen(r) && AccessOf(s) == Rhs(r)[YyLen(r) - 1]
  {
  }

  /** The last symbol of a rule reduced by default, the one before it, and the one before that. */
  lemma LastSpelled(s: int, r: int)
    requires 0 <= s < 107 && r == YyDefred(s) != 0 && YyLen(r) >= 1
    ensures 0 < r < 68 && |Rhs(r)| == YyLen(r) && AccessOf(s) == Rhs(r)[YyLen(r) - 1]
  {
    if s < 50 { LastLow(s, r); } else { LastHigh(s, r); }
  }

  lemma SecondLow(s: int, r: int)
    requires 0 <= s < 40 && r == YyDefred(s) != 0 && YyLen(r) in {2, 3} && |Rhs(r)| == YyLen(r)
    ensures AccessOf(One(s)) == AccessOf(Two(s)) == Rhs(r)[YyLen(r) - 2]
  {
  }

  lemma SecondMid(s: int, r: int)
    requires 40 <= s < 55 && r == YyDefred(s) != 0 && YyLen(r) in {2, 3} && |Rhs(r)| == YyLen(r)
    ensures AccessOf(One(s)) == AccessOf(Two(s)) == Rhs(r)[YyLen(r) - 2]
  {
  }

  lemma SecondHigh(s: int, r: int)
    requires 55 <= s < 90 && r == YyDefred(s) != 0 && YyLen(r) in {2, 3} && |Rhs(r)| == YyLen(r)
    ensures AccessOf(One(s)) == AccessOf(Two(s)) == Rhs(r)[YyLen(r) - 2]
  {
  }

  lemma SecondTop(s: int, r: int)
    requires 90 <= s < 107 && r == YyDefred(s) != 0 && YyLen(r) in {2, 3} && |Rhs(r)| == YyLen(r)
    ensures AccessOf(One(s)) == AccessOf(Two(s)) == Rhs(r)[YyLen(r) - 2]
  {
  }

  lemma SecondSpelled(s: int, r: int)
    requires 0 <= s < 107 && r == YyDefred(s) != 0 && YyLen(r) in {2, 3} && |Rhs(r)| == YyLen(r)
    ensures AccessOf(One(s)) == AccessOf(Two(s)) == Rhs(r)[YyLen(r) - 2]
  {
    if s < 40 { SecondLow(s, r); }
    else if s < 55 { SecondMid(s, r); }
    else if s < 90 { SecondHigh(s, r); }
    else { SecondTop(s, r); }
  }

  lemma ThirdLow(s: int, r: int)
    requires 0 <= s < 43 && r == YyDefred(s) != 0 && YyLen(r) == 3 && |Rhs(r)| == 3
    ensures forall x :: x in {One(s), Two(s)} ==> AccessOf(One(x)) == AccessOf(Two(x)) == Rhs(r)[0]
  {
  }

  lemma ThirdHigh(s: int, r: int)
    requires 43 <= s < 107 && r == YyDefred(s) != 0 && YyLen(r) == 3 && |Rhs(r)| == 3
    ensures forall x :: x in {One(s), Two(s)} ==> AccessOf(One(x)) == AccessOf(Two(x)) == Rhs(r)[0]
  {
  }

  lemma LongSides()
    ensures Rhs(19) == [LISTEN, ON, STRING, PORT_OPT, SSL, CERTNAME]
    ensures Rhs(43) == [ACI_TYPE, ACI_ACCESS, TO, ACI_SCOPE, ACI_TARGET, ACI_SUBJECT]
    ensures Rhs(24) == [NAMESPACE, STRING, OPEN, NEWLINE, MIDRULE, NS_OPTS, CLOSE]
    ensures Rhs(44) == [ACI_TYPE, ACI_ACCESS]
  {
  }

  lemma Chain19(rhs: seq<int>)
    requires rhs == [LISTEN, ON, STRING, PORT_OPT, SSL, CERTNAME]
    ensures Chain(69, 6, rhs)
  {
    assert Chain(3, 1, rhs) && Chain(22, 2, rhs);
    assert Chain(43, 3, rhs) && Chain(50, 4, rhs) && Chain(61, 5, rhs);
  }

  lemma Chain43(rhs: seq<int>)
    requires rhs == [ACI_TYPE, ACI_ACCESS, TO, ACI_SCOPE, ACI_TARGET, ACI_SUBJECT]
    ensures Chain(72, 6, rhs)
  {
    assert Chain(14, 1, rhs) && Chain(34, 2, rhs);
    assert Chain(46, 3, rhs) && Chain(54, 4, rhs) && Chain(67, 5, rhs);
  }

  lemma Chain24(rhs: seq<int>)
    requires rhs == [NAMESPACE, STRING, OPEN, NEWLINE, MIDRULE, NS_OPTS, CLOSE]
    ensures Chain(85, 7, rhs)
  {
    assert Chain(4, 1, rhs) && Chain(23, 2, rhs) && Chain(44, 3, rhs);
    assert Chain(51, 4, rhs) && Chain(62, 5, rhs) && Chain(70, 6, rhs);
  }

  lemma Chain44(rhs: seq<int>)
    requires rhs == [ACI_TYPE, ACI_ACCESS]
    ensures Chain(34, 2, rhs)
  {
    assert Chain(14, 1, rhs);
  }

  lemma ShortSpelled(s: int, r: int)
    requires 0 <= s < 107 && r == YyDefred(s) != 0 && YyLen(r) in {1, 2, 3}
    ensures 0 < r < 68 && |Rhs(r)| == YyLen(r) && Chain(s, YyLen(r), Rhs(r))
  {
    var rhs := Rhs(r);
    LastSpelled(s, r);
    if YyLen(r) > 1 {
      SecondSpelled(s, r);
      if YyLen(r) == 3 {
        if s < 43 { ThirdLow(s, r); } else { ThirdHigh(s, r); }
        assert Chain(One(One(s)), 0, rhs);
        assert Chain(One(One(s)), 1, rhs) && Chain(Two(One(s)), 1, rhs);
      }
    }
  }

  lemma DefaultSpelled(s: int, r: int)
    requires 0 <= s < 107 && r == YyDefred(s) != 0
    ensures RuleSpelled(TABLES, Below, GRAMMAR_RULES, AccessOf, s, r)
  {
    ReducesShort(s, r);
    LengthsAgree(r);
    if YyLen(r) in {1, 2, 3} {
      ShortSpelled(s, r);
    } else if YyLen(r) > 3 {
      assert (s == 69 && r == 19) || (s == 72 && r == 43) || (s == 85 && r == 24);
      LongSides();
      if s == 69 { Chain19(Rhs(r)); } else if s == 72 { Chain43(Rhs(r)); } else { Chain24(Rhs(r)); }
    }
    ChainSpells(s, YyLen(r), Rhs(r));
  }

  lemma OnTokenSpelled(s: int, y: int)
    requires 0 <= s < 107 && 0 <= y <= 301 && YyRindex(s) != 0 && YyCheck(y) >= 0 && YyCheck(y) == y - YyRindex(s)
    ensures RuleSpelled(TABLES, Below, GRAMMAR_RULES, AccessOf, s, YyTable(y))
  {
    var r := YyTable(y);
    ReducesOnToken(s, y);
    TokenRulesFit();
    LengthsAgree(r);
    if r == 44 {
      LongSides();
      Chain44(Rhs(r));
    }
    ChainSpells(s, YyLen(r), Rhs(r));
  }

  lemma ShiftsAndGotos()
    ensures forall s, c :: TABLES.IsState(s) && c >= 0 && TABLES.Shift(s, c).Some?
              ==> c > 0 && AccessOf(TABLES.Shift(s, c).value) == c
    ensures forall t, r :: TABLES.IsState(t) && 0 < r < 68 ==> AccessOf(TABLES.Next(t, r)) == Nonterminal(YyLhs(r))
  {
    forall s, c | TABLES.IsState(s) && c >= 0 && TABLES.Shift(s, c).Some?
      ensures c > 0 && AccessOf(TABLES.Shift(s, c).value) == c
    {
      ShiftsSpell(s, YySindex(s) + c);
    }
    forall t, r | TABLES.IsState(t) && 0 < r < 68 ensures AccessOf(TABLES.Next(t, r)) == Nonterminal(YyLhs(r)) {
      NextIsGoto(t, r);
      GotosSpell(t, r);
    }
  }

  /** The tables are tables of the grammar. */
  lemma TablesSpelled()
    ensures Certificates(TABLES, Below, GRAMMAR_RULES, AccessOf)
  {
    TablesCertified();
    ShiftsAndGotos();
    forall s | TABLES.IsState(s) && TABLES.defred(s) != 0
      ensures RuleSpelled(TABLES, Below, GRAMMAR_RULES, AccessOf, s, TABLES.defred(s))
    {
      DefaultSpelled(s, YyDefred(s));
    }
    forall s, c | TABLES.IsState(s) && c >= 0 && TABLES.Reduction(s, c).Some?
      ensures RuleSpelled(TABLES, Below, GRAMMAR_RULES, AccessOf, s, TABLES.Reduction(s, c).value)
    {
      OnTokenSpelled(s, YyRindex(s) + c);
    }
  }

  // ----- Whole parses

  /** The tokens are a sentence of the grammar. */
  ghost predicate IsSentence(tokens: seq<int>) {
    Derives(GRAMMAR_RULES, GRAMMAR, tokens)
  }

  /** A parse without errors so far has built its tokens by the rules. */
  ghost predicate HasRead<V>(m: Machine<V>, read: seq<int>) {
    HasBuilt(GRAMMAR_RULES, AccessOf, m, read)
  }

  lemma StartRead<V>(v: V)
    ensures HasRead(Start(v), [])
  {
    assert Built(GRAMMAR_RULES, AccessOf, [0], -1, [], []);
  }

  /** Every step of yyparse keeps that, and if it accepts, the tokens are a sentence. */
  lemma StepReads<V>(m: Machine<V>, inp: Input<V>, read: seq<int>)
    requires Certified(TABLES, Below) && Inv(TABLES, Below, m) && HasRead(m, read)
    ensures var o := Step(TABLES, Below, m, inp);
            var now := read + Taken(TABLES, m, inp, o);
            && (o.Overflow? || HasRead(o.m, now))
            && (o.Accepted? && o.m.nerrs == 0 ==> IsSentence(now))
  {
    TablesSpelled();
    StepBuilds(TABLES, Below, GRAMMAR_RULES, AccessOf, m, inp, read);
    var o := Step(TABLES, Below, m, inp);
    if o.Accepted? && o.m.nerrs == 0 {
      AcceptedDerives(TABLES, Below, GRAMMAR_RULES, AccessOf, m, inp, read);
    }
  }

  /** What is left to read behind a step. */
  function Left<V>(m: Machine<V>, o: Outcome<V>, toks: seq<(int, V)>): seq<(int, V)>
    requires m.stack != []
  {
    if Reads(TABLES, m, o) && toks != [] then toks[1..] else toks
  }

  lemma CodesFirst<V>(toks: seq<(int, V)>)
    requires toks != []
    ensures Codes(toks) == [toks[0].0] + Codes(toks[1..])
  {
  }

  /** It makes up all tokens with what has been read. */
  lemma TakenAndLeft<V>(m: Machine<V>, lval: V, toks: seq<(int, V)>, act: (bool, V), o: Outcome<V>)
    requires m.stack != [] && forall i :: 0 <= i < |toks| ==> toks[i].0 > 0
    ensures Taken(TABLES, m, Given(TABLES, m, lval, toks, act), o) + Codes(Left(m, o, toks)) == Codes(toks)
  {
    if toks != [] {
      CodesFirst(toks);
    }
    assert [] + Codes(toks) == Codes(toks);
  }

  lemma EndLeft<V>(m: Machine<V>, lval: V, toks: seq<(int, V)>, act: (bool, V), o: Outcome<V>)
    requires m.stack != [] && (forall i :: 0 <= i < |toks| ==> toks[i].0 > 0) && (m.token == 0 ==> toks == [])
    requires TokenAfter(m.token, Given(TABLES, m, lval, toks, act).next, o.m.token)
    ensures o.m.token == 0 ==> Left(m, o, toks) == []
  {
  }

  lemma Regroup(a: seq<int>, b: seq<int>, c: seq<int>, d: seq<int>)
    requires b + c == d
    ensures a + b + c == a + d
  {
  }

  lemma StepLeaves<V>(m: Machine<V>, lval: V, toks: seq<(int, V)>, act: (bool, V), read: seq<int>, o: Outcome<V>)
    requires Certified(TABLES, Below) && Inv(TABLES, Below, m) && (m.token == 0 ==> toks == [])
    requires forall i :: 0 <= i < |toks| ==> toks[i].0 > 0
    requires o == Step(TABLES, Below, m, Given(TABLES, m, lval, toks, act))
    ensures read + Taken(TABLES, m, Given(TABLES, m, lval, toks, act), o) + Codes(Left(m, o, toks))
            == read + Codes(toks)
    ensures o.m.token == 0 ==> Left(m, o, toks) == []
  {
    var inp := Given(TABLES, m, lval, toks, act);
    StepToken(TABLES, Below, m, inp);
    TakenAndLeft(m, lval, toks, act, o);
    EndLeft(m, lval, toks, act, o);
    Regroup(read, Taken(TABLES, m, inp, o), Codes(Left(m, o, toks)), Codes(toks));
  }

  /** One step of the parse: what it leaves, and that it is nearer to the end. */
  lemma ParseStep<V>(m: Machine<V>, lval: V, toks: seq<(int, V)>, act: (bool, V), read: seq<int>)
      returns (o: Outcome<V>, left: seq<(int, V)>, now: seq<int>)
    requires Certified(TABLES, Below) && Good(m) && HasRead(m, read)
    requires (forall i :: 0 <= i < |toks| ==> toks[i].0 > 0) && (m.token == 0 ==> toks == [])
    ensures o == Step(TABLES, Below, m, Given(TABLES, m, lval, toks, act)) && left == Left(m, o, toks)
    ensures now + Codes(left) == read + Codes(toks) && (o.m.token == 0 ==> left == [])
    ensures o.Accepted? ==> left == [] && (o.m.nerrs == 0 ==> IsSentence(now))
    ensures o.Running? ==> Good(o.m) && HasRead(o.m, now)
  {
    var inp := Given(TABLES, m, lval, toks, act);
    o := Step(TABLES, Below, m, inp);
    left, now := Left(m, o, toks), read + Taken(TABLES, m, inp, o);
    StepGoes(m, inp);
    StepReads(m, inp, read);
    StepLeaves(m, lval, toks, act, read, o);
  }

  lemma {:induction false} ParseReads<V>(m: Machine<V>, lval: V, toks: seq<(int, V)>, act: nat -> (bool, V), n: nat,
                                         read: seq<int>)
    requires Good(m) && (forall i :: 0 <= i < |toks| ==> toks[i].0 > 0) && (m.token == 0 ==> toks == [])
    requires HasRead(m, read)
    ensures var o := Parse(m, lval, toks, act, n);
            o.Accepted? && o.m.nerrs == 0 ==> IsSentence(read + Codes(toks))
    decreases |toks| + Pending(m.token), Calm(m.errflag), Weight(m)
  {
    TablesCertified();
    var o, left, now := ParseStep(m, lval, toks, act(n), read);
    if o.Running? {
      StepGoes(m, Given(TABLES, m, lval, toks, act(n)));
      ParseReads(o.m, if Reads(TABLES, m, o) then ValueOf(lval, toks) else lval, left, act, Following(n), now);
    }
  }

  /** What yyparse accepts without an error is a sentence of the configuration grammar. */
  lemma ParseDerives<V>(v: V, toks: seq<(int, V)>, act: nat -> (bool, V))
    requires forall i :: 0 <= i < |toks| ==> toks[i].0 > 0
    ensures Good(Start(v))
    ensures var o := Parse(Start(v), v, toks, act, 0);
            o.Accepted? && o.m.nerrs == 0 ==> IsSentence(Codes(toks))
  {
    StartRead(v);
    ParseReads(Start(v), v, toks, act, 0, []);
    assert [] + Codes(toks) == Codes(toks);
  }
}
