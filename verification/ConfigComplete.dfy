/**
  That yyparse accepts every configuration (ifconfigctl/parse.c): with its own tables, every
  sentence of the grammar is parsed without an error, whatever the values and the actions,
  as long as no action fails and the stack has room.
 */
module ConfigComplete {
  import opened Numbers
  import opened LrMachine
  import opened LrGrammar
  import opened LrComplete
  import opened ConfigTables
  import opened ConfigParse
  import opened ConfigGrammar

  // ----- The certificate

  /** The states in which each nonterminal may start. */
  predicate StartsAt(s: int, a: int) {
    match a
    case 0 => s == 0
    case 1 => s == 43
    case 2 => s == 50
    case 3 => s == 80
    case 4 => s == 96
    case 5 => s in {1, 70}
    case 6 => s == 14
    case 7 => s == 14
    case 8 => s in {14, 48}
    case 9 => s == 46
    case 10 => s == 54
    case 11 => s == 67
    case 12 => s == 61
    case 13 => s in {1, 70}
    case 14 => s == 1
    case 15 => s == 1
    case 16 => s == 1
    case 17 => s == 1
    case 18 => s == 1
    case 19 => s == 62
    case 20 => s == 51
    case 21 => s == 70
    case _ => false
  }

  /** The tokens that may stand behind a nonterminal, as far as a reduction looks at them. */
  predicate Follows(a: int, c: int) {
    match a
    case 1 => c in {NEWLINE, TLS, LDAPS, SECURE, CERTIFICATE}
    case 2 => c in {NEWLINE, CERTIFICATE}
    case 6 => c in {NEWLINE, TO}
    case 9 => c in {ANY, ROOT, STRING}
    case 4 => c == NEWLINE
    case 11 => c == NEWLINE
    case 12 => c == NEWLINE
    case 13 => c == NEWLINE
    case 16 => c == NEWLINE
    case 21 => c == NEWLINE
    case _ => true
  }

  /** The tokens that may stand where a nonterminal starts; behind one that may be empty, what follows it. */
  predicate Begins(a: int, c: int) {
    match a
    case 2 => c in {NEWLINE, TLS, LDAPS, SECURE, CERTIFICATE}
    case 10 => c in {ANY, ROOT, STRING}
    case 12 => c in {NEWLINE, CERTIFICATE}
    case _ => a in {0, 1, 4, 6, 9, 11, 19, 20} || c != 0
  }

  const GUIDE: Guide := Guide(StartsAt, Follows, Begins)

  /** The reductions that look at the token. */
  predicate EndsIn(s: int, r: int) {
    || YyDefred(s) == r
    || (s, r) in {(14, 47), (34, 44), (43, 18), (46, 55), (50, 10), (61, 14), (67, 61), (96, 41)}
  }

  predicate Shifts(s: int, c: int) {
    YyDefred(s) == 0 && YySindex(s) != 0 && 0 <= YySindex(s) + c <= 301 && YyCheck(YySindex(s) + c) == c
  }

  function ShiftOf(s: int, c: int): int {
    YyTable(YySindex(s) + c)
  }

  /** The shifts that the grammar needs, by state and token. */
  function ShiftTable(s: int, x: int): int {
    match (s, x)
    case (1, 10) => 13
    case (1, 256) => 2
    case (1, 258) => 3
    case (1, 263) => 4
    case (1, 264) => 5
    case (1, 265) => 6
    case (1, 270) => 7
    case (1, 274) => 8
    case (1, 279) => 9
    case (1, 280) => 10
    case (1, 287) => 11
    case (1, 296) => 12
    case (2, 10) => 21
    case (3, 259) => 22
    case (4, 296) => 23
    case (5, 296) => 24
    case (6, 296) => 25
    case (7, 296) => 26
    case (8, 296) => 27
    case (11, 296) => 28
    case (12, 61) => 29
    case (14, 281) => 30
    case (14, 282) => 31
    case (14, 283) => 32
    case (14, 284) => 33
    case (15, 10) => 37
    case (16, 10) => 38
    case (17, 10) => 39
    case (18, 10) => 40
    case (19, 10) => 41
    case (20, 10) => 42
    case (22, 296) => 43
    case (23, 123) => 44
    case (29, 296) => 45
    case (34, 285) => 46
    case (35, 44) => 48
    case (35, 284) => 47
    case (43, 262) => 49
    case (44, 10) => 51
    case (46, 289) => 52
    case (46, 293) => 53
    case (48, 281) => 30
    case (48, 282) => 31
    case (48, 283) => 32
    case (49, 296) => 56
    case (49, 297) => 57
    case (50, 260) => 58
    case (50, 261) => 59
    case (50, 267) => 60
    case (52, 290) => 63
    case (54, 286) => 64
    case (54, 288) => 65
    case (54, 296) => 66
    case (61, 275) => 68
    case (67, 294) => 71
    case (68, 296) => 73
    case (70, 10) => 84
    case (70, 125) => 85
    case (70, 264) => 74
    case (70, 265) => 75
    case (70, 266) => 76
    case (70, 268) => 77
    case (70, 269) => 78
    case (70, 271) => 79
    case (70, 276) => 80
    case (70, 277) => 81
    case (70, 278) => 82
    case (70, 279) => 9
    case (70, 280) => 10
    case (70, 287) => 83
    case (71, 288) => 88
    case (71, 295) => 89
    case (71, 296) => 90
    case (74, 296) => 91
    case (75, 296) => 92
    case (76, 296) => 93
    case (77, 270) => 94
    case (78, 270) => 95
    case (79, 272) => 96
    case (80, 259) => 97
    case (80, 296) => 98
    case (81, 297) => 100
    case (82, 297) => 101
    case (83, 296) => 102
    case (87, 10) => 103
    case (96, 273) => 104
    case (104, 297) => 106
    case _ => -1
  }

  /** Where a shift stands in the packed tables. */
  lemma Packed(s: int, x: int, y: int, t: int)
    requires YyDefred(s) == 0 && YySindex(s) == y - x != 0 && 0 <= y <= 301 && YyCheck(y) == x && YyTable(y) == t
    ensures Shifts(s, x) && ShiftOf(s, x) == t
  {
  }

  lemma ShiftsIn1(s: int, x: int, t: int)
    requires s == 1 && ShiftTable(s, x) == t >= 0
    ensures Shifts(s, x) && ShiftOf(s, x) == t
  {
    match (s, x)
    case (1, 10) => Packed(s, x, 0, t);
    case (1, 256) => Packed(s, x, 246, t);
    case (1, 258) => Packed(s, x, 248, t);
    case (1, 263) => Packed(s, x, 253, t);
    case (1, 264) => Packed(s, x, 254, t);
    case (1, 265) => Packed(s, x, 255, t);
    case (1, 270) => Packed(s, x, 260, t);
    case (1, 274) => Packed(s, x, 264, t);
    case (1, 279) => Packed(s, x, 269, t);
    case (1, 280) => Packed(s, x, 270, t);
    case (1, 287) => Packed(s, x, 277, t);
    case (1, 296) => Packed(s, x, 286, t);
    case _ =>
  }

  lemma Shifts2To12(s: int, x: int, t: int)
    requires 2 <= s <= 12 && ShiftTable(s, x) == t >= 0
    ensures Shifts(s, x) && ShiftOf(s, x) == t
  {
    match (s, x)
    case (2, 10) => Packed(s, x, 11, t);
    case (3, 259) => Packed(s, x, 14, t);
    case (4, 296) => Packed(s, x, 20, t);
    case (5, 296) => Packed(s, x, 26, t);
    case (6, 296) => Packed(s, x, 34, t);
    case (7, 296) => Packed(s, x, 35, t);
    case (8, 296) => Packed(s, x, 36, t);
    case (11, 296) => Packed(s, x, 37, t);
    case (12, 61) => Packed(s, x, 38, t);
    case _ =>
  }

  lemma Shifts14To19(s: int, x: int, t: int)
    requires 14 <= s <= 19 && ShiftTable(s, x) == t >= 0
    ensures Shifts(s, x) && ShiftOf(s, x) == t
  {
    match (s, x)
    case (14, 281) => Packed(s, x, 27, t);
    case (14, 282) => Packed(s, x, 28, t);
    case (14, 283) => Packed(s, x, 29, t);
    case (14, 284) => Packed(s, x, 30, t);
    case (15, 10) => Packed(s, x, 39, t);
    case (16, 10) => Packed(s, x, 40, t);
    case (17, 10) => Packed(s, x, 42, t);
    case (18, 10) => Packed(s, x, 43, t);
    case (19, 10) => Packed(s, x, 44, t);
    case _ =>
  }

  lemma Shifts20To44(s: int, x: int, t: int)
    requires 20 <= s <= 44 && ShiftTable(s, x) == t >= 0
    ensures Shifts(s, x) && ShiftOf(s, x) == t
  {
    match (s, x)
    case (20, 10) => Packed(s, x, 45, t);
    case (22, 296) => Packed(s, x, 47, t);
    case (23, 123) => Packed(s, x, 46, t);
    case (29, 296) => Packed(s, x, 49, t);
    case (34, 285) => Packed(s, x, 48, t);
    case (35, 44) => Packed(s, x, 3, t);
    case (35, 284) => Packed(s, x, 243, t);
    case (43, 262) => Packed(s, x, 50, t);
    case (44, 10) => Packed(s, x, 51, t);
    case _ =>
  }

  lemma Shifts46To49(s: int, x: int, t: int)
    requires 46 <= s <= 49 && ShiftTable(s, x) == t >= 0
    ensures Shifts(s, x) && ShiftOf(s, x) == t
  {
    match (s, x)
    case (46, 289) => Packed(s, x, 21, t);
    case (46, 293) => Packed(s, x, 25, t);
    case (48, 281) => Packed(s, x, 31, t);
    case (48, 282) => Packed(s, x, 32, t);
    case (48, 283) => Packed(s, x, 33, t);
    case (49, 296) => Packed(s, x, 22, t);
    case (49, 297) => Packed(s, x, 23, t);
    case _ =>
  }

  lemma Shifts50To67(s: int, x: int, t: int)
    requires 50 <= s <= 67 && ShiftTable(s, x) == t >= 0
    ensures Shifts(s, x) && ShiftOf(s, x) == t
  {
    match (s, x)
    case (50, 260) => Packed(s, x, 12, t);
    case (50, 261) => Packed(s, x, 13, t);
    case (50, 267) => Packed(s, x, 19, t);
    case (52, 290) => Packed(s, x, 52, t);
    case (54, 286) => Packed(s, x, 5, t);
    case (54, 288) => Packed(s, x, 7, t);
    case (54, 296) => Packed(s, x, 15, t);
    case (61, 275) => Packed(s, x, 53, t);
    case (67, 294) => Packed(s, x, 54, t);
    case _ =>
  }

  lemma ShiftsIn68(s: int, x: int, t: int)
    requires s == 68 && ShiftTable(s, x) == t >= 0
    ensures Shifts(s, x) && ShiftOf(s, x) == t
  {
    match (s, x)
    case (68, 296) => Packed(s, x, 55, t);
    case _ =>
  }

  lemma ShiftsIn70(s: int, x: int, t: int)
    requires s == 70 && ShiftTable(s, x) == t >= 0
    ensures Shifts(s, x) && ShiftOf(s, x) == t
  {
    match (s, x)
    case (70, 10) => Packed(s, x, 24, t);
    case (70, 125) => Packed(s, x, 139, t);
    case (70, 264) => Packed(s, x, 278, t);
    case (70, 265) => Packed(s, x, 279, t);
    case (70, 266) => Packed(s, x, 280, t);
    case (70, 268) => Packed(s, x, 282, t);
    case (70, 269) => Packed(s, x, 283, t);
    case (70, 271) => Packed(s, x, 285, t);
    case (70, 276) => Packed(s, x, 290, t);
    case (70, 277) => Packed(s, x, 291, t);
    case (70, 278) => Packed(s, x, 292, t);
    case (70, 279) => Packed(s, x, 293, t);
    case (70, 280) => Packed(s, x, 294, t);
    case (70, 287) => Packed(s, x, 301, t);
    case _ =>
  }

  lemma Shifts71To79(s: int, x: int, t: int)
    requires 71 <= s <= 79 && ShiftTable(s, x) == t >= 0
    ensures Shifts(s, x) && ShiftOf(s, x) == t
  {
    match (s, x)
    case (71, 288) => Packed(s, x, 9, t);
    case (71, 295) => Packed(s, x, 16, t);
    case (71, 296) => Packed(s, x, 17, t);
    case (74, 296) => Packed(s, x, 57, t);
    case (75, 296) => Packed(s, x, 60, t);
    case (76, 296) => Packed(s, x, 61, t);
    case (77, 270) => Packed(s, x, 56, t);
    case (78, 270) => Packed(s, x, 59, t);
    case (79, 272) => Packed(s, x, 62, t);
    case _ =>
  }

  lemma Shifts80To104(s: int, x: int, t: int)
    requires 80 <= s <= 104 && ShiftTable(s, x) == t >= 0
    ensures Shifts(s, x) && ShiftOf(s, x) == t
  {
    match (s, x)
    case (80, 259) => Packed(s, x, 4, t);
    case (80, 296) => Packed(s, x, 41, t);
    case (81, 297) => Packed(s, x, 63, t);
    case (82, 297) => Packed(s, x, 64, t);
    case (83, 296) => Packed(s, x, 65, t);
    case (87, 10) => Packed(s, x, 58, t);
    case (96, 273) => Packed(s, x, 66, t);
    case (104, 297) => Packed(s, x, 67, t);
    case _ =>
  }

  lemma ShiftFound(s: int, x: int, t: int)
    requires ShiftTable(s, x) == t >= 0
    ensures Shifts(s, x) && ShiftOf(s, x) == t
  {
    if s <= 1 { ShiftsIn1(s, x, t); }
    else if s <= 12 { Shifts2To12(s, x, t); }
    else if s <= 19 { Shifts14To19(s, x, t); }
    else if s <= 44 { Shifts20To44(s, x, t); }
    else if s <= 49 { Shifts46To49(s, x, t); }
    else if s <= 67 { Shifts50To67(s, x, t); }
    else if s <= 68 { ShiftsIn68(s, x, t); }
    else if s <= 70 { ShiftsIn70(s, x, t); }
    else if s <= 79 { Shifts71To79(s, x, t); }
    else { Shifts80To104(s, x, t); }
  }

  lemma ShiftIs(s: int, x: int, t: int)
    requires Shifts(s, x) && ShiftOf(s, x) == t
    ensures TABLES.defred(s) == 0 && TABLES.Shift(s, x) == Some(t)
  {
  }

  /** The state to which the tables go over symbol x, or -1. */
  function MoveOf(s: int, x: int): int {
    if x >= 0 then ShiftTable(s, x)
    else if 0 <= s < 107 && -23 < x && StartsAt(s, -1 - x) then Goto(s, -1 - x)
    else -1
  }

  lemma GotoOfIsGoto(s: int, a: int)
    requires 0 <= s < 107 && 0 <= a < 22
    ensures GotoOf(TABLES, s, a) == Goto(s, a)
  {
  }

  lemma MoveIs(s: int, x: int, t: int)
    requires MoveOf(s, x) == t >= 0
    ensures Moved(TABLES, GUIDE, s, x) == Some(t)
  {
    if x < 0 {
      GotoOfIsGoto(s, -1 - x);
    } else {
      ShiftFound(s, x, t);
      ShiftIs(s, x, t);
    }
  }

  /** The reductions by token happen on every token that may follow. */
  lemma EndsByToken(s: int, r: int, c: int)
    requires (s, r) in {(14, 47), (34, 44), (43, 18), (46, 55), (50, 10), (61, 14), (67, 61), (96, 41)}
    requires Follows(YyLhs(r), c)
    ensures TABLES.Shift(s, c).None? && TABLES.Reduction(s, c) == Some(r)
  {
  }

  lemma NoDefault(s: int, r: int)
    requires (s, r) in {(14, 47), (34, 44), (43, 18), (46, 55), (50, 10), (61, 14), (67, 61), (96, 41)}
    ensures YyDefred(s) == 0
  {
  }

  lemma EndIs(s: int, r: int)
    requires EndsIn(s, r)
    ensures Reduces(TABLES, GUIDE, s, r)
  {
    if YyDefred(s) != r {
      NoDefault(s, r);
      forall c | c >= 0 && GUIDE.follows(TABLES.lhs(r), c)
        ensures TABLES.Shift(s, c).None? && TABLES.Reduction(s, c) == Some(r)
      {
        EndsByToken(s, r, c);
      }
    }
  }

  predicate OneMove(s: int, rhs: seq<int>, states: seq<int>, i: nat)
    requires i < |states| == |rhs|
  {
    MoveOf(At(s, states, i), rhs[i]) == At(s, states, i + 1) >= 0
  }

  /** A trail of the rule from state s on. */
  predicate IsTrail(s: int, r: int, states: seq<int>) {
    && |states| == |Rhs(r)|
    && (forall i :: 0 <= i < |states| ==> OneMove(s, Rhs(r), states, i))
    && EndsIn(At(s, states, |states|), r)
  }

  lemma RuleWalks(s: int, r: int, states: seq<int>)
    requires IsTrail(s, r, states)
    ensures Walk(TABLES, GRAMMAR_RULES, GUIDE, s, r, 0)
  {
    EndIs(At(s, states, |states|), r);
    forall i | 0 <= i < |states|
      ensures Moved(TABLES, GUIDE, At(s, states, i), Rhs(r)[i]) == Some(At(s, states, i + 1))
    {
      assert OneMove(s, Rhs(r), states, i);
      MoveIs(At(s, states, i), Rhs(r)[i], At(s, states, i + 1));
    }
    TrailWalks(TABLES, GRAMMAR_RULES, GUIDE, s, r, states, 0);
  }

  lemma Walk0(s: int, r: int)
    requires Rhs(r) == [] && EndsIn(s, r)
    ensures Walk(TABLES, GRAMMAR_RULES, GUIDE, s, r, 0)
  {
    RuleWalks(s, r, []);
  }

  lemma Walk1(s: int, r: int, x: int, t: int)
    requires Rhs(r) == [x] && MoveOf(s, x) == t >= 0 && EndsIn(t, r)
    ensures Walk(TABLES, GRAMMAR_RULES, GUIDE, s, r, 0)
  {
    RuleWalks(s, r, [t]);
  }

  lemma Walk2(s: int, r: int, x: int, t: int, y: int, u: int)
    requires Rhs(r) == [x, y] && MoveOf(s, x) == t >= 0 && MoveOf(t, y) == u >= 0 && EndsIn(u, r)
    ensures Walk(TABLES, GRAMMAR_RULES, GUIDE, s, r, 0)
  {
    RuleWalks(s, r, [t, u]);
  }

  lemma Walk3(s: int, r: int, x: int, t: int, y: int, u: int, z: int, v: int)
    requires Rhs(r) == [x, y, z] && EndsIn(v, r)
    requires MoveOf(s, x) == t >= 0 && MoveOf(t, y) == u >= 0 && MoveOf(u, z) == v >= 0
    ensures Walk(TABLES, GRAMMAR_RULES, GUIDE, s, r, 0)
  {
    RuleWalks(s, r, [t, u, v]);
  }

  // ----- The rules one by one

  /** The lines of a file. */
  lemma Lines(s: int, r: int)
    requires r in {1, 2, 3, 4, 5} && StartsAt(s, YyLhs(r))
    ensures Walk(TABLES, GRAMMAR_RULES, GUIDE, s, r, 0)
  {
    match r
    case 1 => Walk0(s, r);
    case 2 => Walk2(s, r, GRAMMAR, 1, NEWLINE, 13);
    case 3 => Walk3(s, r, GRAMMAR, 1, INCLUDE_LINE, 16, NEWLINE, 38);
    case 4 => Walk3(s, r, GRAMMAR, 1, VARSET, 17, NEWLINE, 39);
    case 5 => Walk3(s, r, GRAMMAR, 1, CONF_MAIN, 18, NEWLINE, 40);
  }

  lemma MoreLines(s: int, r: int)
    requires r in {6, 7, 8, 9} && StartsAt(s, YyLhs(r))
    ensures Walk(TABLES, GRAMMAR_RULES, GUIDE, s, r, 0)
  {
    match r
    case 6 => Walk3(s, r, GRAMMAR, 1, YYERRCODE, 2, NEWLINE, 21);
    case 7 => Walk3(s, r, GRAMMAR, 1, NAMESPACE_BLOCK, 19, NEWLINE, 41);
    case 8 => Walk3(s, r, GRAMMAR, 1, ACI, 15, NEWLINE, 37);
    case 9 => Walk3(s, r, GRAMMAR, 1, SCHEMA_LINE, 20, NEWLINE, 42);
  }

  /** The lines that set something. */
  lemma Settings(s: int, r: int)
    requires r in {20, 21, 22} && StartsAt(s, YyLhs(r))
    ensures Walk(TABLES, GRAMMAR_RULES, GUIDE, s, r, 0)
  {
    match r
    case 20 => Walk2(s, r, REFERRAL, 11, STRING, 28);
    case 21 => Walk2(s, r, ROOTDN, 5, STRING, 24);
    case 22 => Walk2(s, r, ROOTPW, 6, STRING, 25);
  }

  lemma Names(s: int, r: int)
    requires r in {65, 67} && StartsAt(s, YyLhs(r))
    ensures Walk(TABLES, GRAMMAR_RULES, GUIDE, s, r, 0)
  {
    match r
    case 65 => Walk2(s, r, INCLUDE, 8, STRING, 27);
    case 67 => Walk2(s, r, SCHEMA, 7, STRING, 26);
  }

  lemma Definition(s: int, r: int)
    requires r == 66 && StartsAt(s, YyLhs(r))
    ensures Walk(TABLES, GRAMMAR_RULES, GUIDE, s, r, 0)
  {
    Walk3(s, r, STRING, 12, EQUALS, 29, STRING, 45);
  }

  /** The parts of a listen line. */
  lemma Ports(s: int, r: int)
    requires r in {16, 17, 18} && StartsAt(s, YyLhs(r))
    ensures Walk(TABLES, GRAMMAR_RULES, GUIDE, s, r, 0)
  {
    match r
    case 16 => Walk2(s, r, PORT, 49, STRING, 56);
    case 17 => Walk2(s, r, PORT, 49, NUMBER, 57);
    case 18 => Walk0(s, r);
  }

  lemma Ssl(s: int, r: int)
    requires r in {10, 11, 12, 13} && StartsAt(s, YyLhs(r))
    ensures Walk(TABLES, GRAMMAR_RULES, GUIDE, s, r, 0)
  {
    match r
    case 10 => Walk0(s, r);
    case 11 => Walk1(s, r, TLS, 58);
    case 12 => Walk1(s, r, LDAPS, 59);
    case 13 => Walk1(s, r, SECURE, 60);
  }

  lemma Certificates(s: int, r: int)
    requires r in {14, 15} && StartsAt(s, YyLhs(r))
    ensures Walk(TABLES, GRAMMAR_RULES, GUIDE, s, r, 0)
  {
    match r
    case 14 => Walk0(s, r);
    case 15 => Walk2(s, r, CERTIFICATE, 68, STRING, 73);
  }

  /** The lines of a namespace block, and what they set. */
  lemma BlockEmpty(s: int, r: int)
    requires r in {23, 27} && StartsAt(s, YyLhs(r))
    ensures Walk(TABLES, GRAMMAR_RULES, GUIDE, s, r, 0)
  {
    match r
    case 23 => Walk0(s, r);
    case 27 => Walk0(s, r);
  }

  lemma BlockLines(s: int, r: int)
    requires r in {28, 29} && StartsAt(s, YyLhs(r))
    ensures Walk(TABLES, GRAMMAR_RULES, GUIDE, s, r, 0)
  {
    match r
    case 28 => Walk2(s, r, NS_OPTS, 70, NEWLINE, 84);
    case 29 => Walk3(s, r, NS_OPTS, 70, NS_OPT, 87, NEWLINE, 103);
  }

  lemma Roots(s: int, r: int)
    requires r in {30, 31} && StartsAt(s, YyLhs(r))
    ensures Walk(TABLES, GRAMMAR_RULES, GUIDE, s, r, 0)
  {
    match r
    case 30 => Walk2(s, r, ROOTDN, 74, STRING, 91);
    case 31 => Walk2(s, r, ROOTPW, 75, STRING, 92);
  }

  lemma Indexes(s: int, r: int)
    requires r in {32, 33} && StartsAt(s, YyLhs(r))
    ensures Walk(TABLES, GRAMMAR_RULES, GUIDE, s, r, 0)
  {
    match r
    case 32 => Walk2(s, r, INDEX, 76, STRING, 93);
    case 33 => Walk2(s, r, CACHE_SIZE, 81, NUMBER, 100);
  }

  lemma Sizes(s: int, r: int)
    requires r in {34, 35} && StartsAt(s, YyLhs(r))
    ensures Walk(TABLES, GRAMMAR_RULES, GUIDE, s, r, 0)
  {
    match r
    case 34 => Walk2(s, r, INDEX_CACHE_SIZE, 82, NUMBER, 101);
    case 35 => Walk2(s, r, FSYNC, 80, BOOLEAN, 99);
  }

  lemma AccessLine(s: int, r: int)
    requires r == 36 && StartsAt(s, YyLhs(r))
    ensures Walk(TABLES, GRAMMAR_RULES, GUIDE, s, r, 0)
  {
    Walk1(s, r, ACI, 86);
  }

  lemma Schemas(s: int, r: int)
    requires r in {37, 38} && StartsAt(s, YyLhs(r))
    ensures Walk(TABLES, GRAMMAR_RULES, GUIDE, s, r, 0)
  {
    match r
    case 37 => Walk2(s, r, RELAX, 77, SCHEMA, 94);
    case 38 => Walk2(s, r, STRICT, 78, SCHEMA, 95);
  }

  lemma Uses(s: int, r: int)
    requires r in {39, 40} && StartsAt(s, YyLhs(r))
    ensures Walk(TABLES, GRAMMAR_RULES, GUIDE, s, r, 0)
  {
    match r
    case 39 => Walk3(s, r, USE, 79, COMPRESSION, 96, COMP_LEVEL, 105);
    case 40 => Walk2(s, r, REFERRAL, 83, STRING, 102);
  }

  lemma Values(s: int, r: int)
    requires r in {25, 26} && StartsAt(s, YyLhs(r))
    ensures Walk(TABLES, GRAMMAR_RULES, GUIDE, s, r, 0)
  {
    match r
    case 25 => Walk1(s, r, STRING, 98);
    case 26 => Walk1(s, r, ON, 97);
  }

  lemma Levels(s: int, r: int)
    requires r in {41, 42} && StartsAt(s, YyLhs(r))
    ensures Walk(TABLES, GRAMMAR_RULES, GUIDE, s, r, 0)
  {
    match r
    case 41 => Walk0(s, r);
    case 42 => Walk2(s, r, LEVEL, 104, NUMBER, 106);
  }

  /** Access rules, the rights that they give, and to whom. */
  lemma Accesses(s: int, r: int)
    requires r in {44, 45, 46} && StartsAt(s, YyLhs(r))
    ensures Walk(TABLES, GRAMMAR_RULES, GUIDE, s, r, 0)
  {
    match r
    case 44 => Walk2(s, r, ACI_TYPE, 14, ACI_ACCESS, 34);
    case 45 => Walk1(s, r, DENY, 9);
    case 46 => Walk1(s, r, ALLOW, 10);
  }

  lemma Rights(s: int, r: int)
    requires r in {47, 48, 49} && StartsAt(s, YyLhs(r))
    ensures Walk(TABLES, GRAMMAR_RULES, GUIDE, s, r, 0)
  {
    match r
    case 47 => Walk0(s, r);
    case 48 => Walk1(s, r, ACCESS, 33);
    case 49 => Walk2(s, r, ACI_RIGHTS, 35, ACCESS, 47);
  }

  lemma RightLists(s: int, r: int)
    requires r in {50, 51} && StartsAt(s, YyLhs(r))
    ensures Walk(TABLES, GRAMMAR_RULES, GUIDE, s, r, 0)
  {
    match r
    case 50 => Walk1(s, r, ACI_RIGHT, 36);
    case 51 => Walk3(s, r, ACI_RIGHTS, 35, COMMA, 48, ACI_RIGHT, 55);
  }

  lemma OneRight(s: int, r: int)
    requires r in {52, 53, 54} && StartsAt(s, YyLhs(r))
    ensures Walk(TABLES, GRAMMAR_RULES, GUIDE, s, r, 0)
  {
    match r
    case 52 => Walk1(s, r, READ, 30);
    case 53 => Walk1(s, r, WRITE, 31);
    case 54 => Walk1(s, r, BIND, 32);
  }

  lemma NoScope(s: int, r: int)
    requires r == 55 && StartsAt(s, YyLhs(r))
    ensures Walk(TABLES, GRAMMAR_RULES, GUIDE, s, r, 0)
  {
    Walk0(s, r);
  }

  lemma Scopes(s: int, r: int)
    requires r in {56, 57} && StartsAt(s, YyLhs(r))
    ensures Walk(TABLES, GRAMMAR_RULES, GUIDE, s, r, 0)
  {
    match r
    case 56 => Walk1(s, r, SUBTREE, 53);
    case 57 => Walk2(s, r, CHILDREN, 52, OF, 63);
  }

  lemma Targets(s: int, r: int)
    requires r in {58, 59, 60} && StartsAt(s, YyLhs(r))
    ensures Walk(TABLES, GRAMMAR_RULES, GUIDE, s, r, 0)
  {
    match r
    case 58 => Walk1(s, r, ANY, 65);
    case 59 => Walk1(s, r, ROOT, 64);
    case 60 => Walk1(s, r, STRING, 66);
  }

  lemma Subjects(s: int, r: int)
    requires r in {61, 62} && StartsAt(s, YyLhs(r))
    ensures Walk(TABLES, GRAMMAR_RULES, GUIDE, s, r, 0)
  {
    match r
    case 61 => Walk0(s, r);
    case 62 => Walk2(s, r, BY, 71, ANY, 88);
  }

  lemma Other(s: int, r: int)
    requires r == 63 && StartsAt(s, YyLhs(r))
    ensures Walk(TABLES, GRAMMAR_RULES, GUIDE, s, r, 0)
  {
    Walk2(s, r, BY, 71, STRING, 90);
  }

  lemma Self(s: int, r: int)
    requires r == 64 && StartsAt(s, YyLhs(r))
    ensures Walk(TABLES, GRAMMAR_RULES, GUIDE, s, r, 0)
  {
    Walk2(s, r, BY, 71, SELF, 89);
  }

  /** The three long rules. */
  lemma Listen(s: int, r: int)
    requires r == 19 && StartsAt(s, YyLhs(r))
    ensures Walk(TABLES, GRAMMAR_RULES, GUIDE, s, r, 0)
  {
    LongSides();
    RuleWalks(s, r, [3, 22, 43, 50, 61, 69]);
  }

  lemma BlockMoves()
    ensures MoveOf(1, NAMESPACE) == 4 && MoveOf(4, STRING) == 23 && MoveOf(23, OPEN) == 44
    ensures MoveOf(44, NEWLINE) == 51 && MoveOf(51, MIDRULE) == 62 && MoveOf(62, NS_OPTS) == 70
    ensures MoveOf(70, CLOSE) == 85 && EndsIn(85, 24)
  {
  }

  lemma Block(s: int, r: int)
    requires r == 24 && StartsAt(s, YyLhs(r))
    ensures Walk(TABLES, GRAMMAR_RULES, GUIDE, s, r, 0)
  {
    LongSides();
    BlockMoves();
    RuleWalks(s, r, [4, 23, 44, 51, 62, 70, 85]);
  }

  lemma AccessTo(s: int, r: int)
    requires r == 43 && StartsAt(s, YyLhs(r))
    ensures Walk(TABLES, GRAMMAR_RULES, GUIDE, s, r, 0)
  {
    LongSides();
    RuleWalks(s, r, [14, 34, 46, 54, 67, 72]);
  }

  // ----- What may come next

  lemma BeginsLow(r: int, c: int)
    requires 0 < r < 24 && MayComeAt(GRAMMAR_RULES, GUIDE, r, 0, c)
    ensures Begins(YyLhs(r), c)
  {
  }

  lemma BeginsMiddle(r: int, c: int)
    requires 24 <= r < 44 && MayComeAt(GRAMMAR_RULES, GUIDE, r, 0, c)
    ensures Begins(YyLhs(r), c)
  {
  }

  lemma BeginsHigh(r: int, c: int)
    requires 44 <= r < 68 && MayComeAt(GRAMMAR_RULES, GUIDE, r, 0, c)
    ensures Begins(YyLhs(r), c)
  {
  }

  /** Rules of tokens alone say nothing about what follows. */
  lemma FollowsFirst(r: int, j: nat, c: int)
    requires 0 < r < 5 && j < |Rhs(r)|
    ensures FollowsAt(GRAMMAR_RULES, GUIDE, r, j, c)
  {
  }

  lemma FollowsLines(r: int, j: nat, c: int)
    requires 5 <= r < 10 && j < |Rhs(r)|
    ensures FollowsAt(GRAMMAR_RULES, GUIDE, r, j, c)
  {
  }

  lemma FollowsSettings(r: int, j: nat, c: int)
    requires 10 <= r < 24 && r != 19 && j < |Rhs(r)|
    ensures FollowsAt(GRAMMAR_RULES, GUIDE, r, j, c)
  {
  }

  lemma FollowsBlock(r: int, j: nat, c: int)
    requires 25 <= r < 34 && j < |Rhs(r)|
    ensures FollowsAt(GRAMMAR_RULES, GUIDE, r, j, c)
  {
  }

  lemma FollowsOption(r: int, j: nat, c: int)
    requires 34 <= r < 43 && j < |Rhs(r)|
    ensures FollowsAt(GRAMMAR_RULES, GUIDE, r, j, c)
  {
  }

  lemma FollowsAccess(r: int, j: nat, c: int)
    requires 44 <= r < 68 && j < |Rhs(r)|
    ensures FollowsAt(GRAMMAR_RULES, GUIDE, r, j, c)
  {
  }

  lemma FollowsLong(r: int, j: nat, c: int)
    requires r in {19, 24, 43} && j < |Rhs(r)|
    ensures FollowsAt(GRAMMAR_RULES, GUIDE, r, j, c)
  {
    LongSides();
  }

  lemma RuleIsGuided(r: int)
    requires 0 < r < 68
    ensures RuleGuided(GRAMMAR_RULES, GUIDE, r)
  {
    forall c | MayComeAt(GRAMMAR_RULES, GUIDE, r, 0, c) ensures GUIDE.begins(GRAMMAR_RULES.lhs(r), c) {
      if r < 24 { BeginsLow(r, c); } else if r < 44 { BeginsMiddle(r, c); } else { BeginsHigh(r, c); }
    }
    forall j, c | 0 <= j < |GRAMMAR_RULES.rhs(r)| ensures FollowsAt(GRAMMAR_RULES, GUIDE, r, j, c) {
      if r in {19, 24, 43} { FollowsLong(r, j, c); }
      else if r < 5 { FollowsFirst(r, j, c); }
      else if r < 10 { FollowsLines(r, j, c); }
      else if r < 24 { FollowsSettings(r, j, c); }
      else if r < 34 { FollowsBlock(r, j, c); }
      else if r < 43 { FollowsOption(r, j, c); }
      else { FollowsAccess(r, j, c); }
    }
  }

  lemma SidesOf(r: int)
    requires 0 < r < 68
    ensures YyLhs(r) >= 0
  {
  }

  lemma LowRule(s: int, r: int)
    requires 0 < r < 30 && StartsAt(s, YyLhs(r))
    ensures Walk(TABLES, GRAMMAR_RULES, GUIDE, s, r, 0)
  {
    if r < 6 { Lines(s, r); }
    else if r < 10 { MoreLines(s, r); }
    else if r < 14 { Ssl(s, r); }
    else if r < 16 { Certificates(s, r); }
    else if r < 19 { Ports(s, r); }
    else if r < 20 { Listen(s, r); }
    else if r < 23 { Settings(s, r); }
    else if r < 24 { BlockEmpty(s, r); }
    else if r < 25 { Block(s, r); }
    else if r < 27 { Values(s, r); }
    else if r < 28 { BlockEmpty(s, r); }
    else { BlockLines(s, r); }
  }

  lemma HighRule(s: int, r: int)
    requires 30 <= r < 68 && StartsAt(s, YyLhs(r))
    ensures Walk(TABLES, GRAMMAR_RULES, GUIDE, s, r, 0)
  {
    if r < 32 { Roots(s, r); }
    else if r < 34 { Indexes(s, r); }
    else if r < 36 { Sizes(s, r); }
    else if r < 37 { AccessLine(s, r); }
    else if r < 39 { Schemas(s, r); }
    else if r < 41 { Uses(s, r); }
    else if r < 43 { Levels(s, r); }
    else if r < 44 { AccessTo(s, r); }
    else if r < 47 { Accesses(s, r); }
    else if r < 50 { Rights(s, r); }
    else if r < 52 { RightLists(s, r); }
    else if r < 55 { OneRight(s, r); }
    else if r < 56 { NoScope(s, r); }
    else if r < 58 { Scopes(s, r); }
    else if r < 61 { Targets(s, r); }
    else if r < 63 { Subjects(s, r); }
    else if r < 64 { Other(s, r); }
    else if r < 65 { Self(s, r); }
    else if r == 66 { Definition(s, r); }
    else { Names(s, r); }
  }

  lemma EveryRule(s: int, r: int)
    requires 0 < r < 68 && StartsAt(s, YyLhs(r))
    ensures Walk(TABLES, GRAMMAR_RULES, GUIDE, s, r, 0)
  {
    if r < 30 { LowRule(s, r); } else { HighRule(s, r); }
  }

  /** The tables guide every parse along the grammar. */
  lemma TablesGuided()
    ensures Guided(TABLES, Below, GRAMMAR_RULES, GUIDE)
  {
    TablesCertified();
    forall r | 0 < r < 68
      ensures YyLhs(r) >= 0 && YyLen(r) == |Rhs(r)| && RuleGuided(GRAMMAR_RULES, GUIDE, r)
    {
      SidesOf(r);
      LengthsAgree(r);
      RuleIsGuided(r);
    }
    forall s, r | 0 < r < 68 && GUIDE.starts(s, GRAMMAR_RULES.lhs(r))
      ensures Walk(TABLES, GRAMMAR_RULES, GUIDE, s, r, 0)
    {
      EveryRule(s, r);
    }
  }

  // ----- Whole parses

  /** The parse from a configuration on. */
  function ParseOf<V>(c: Conf<V>, act: nat -> (bool, V)): Outcome<V>
    requires Good(c.m) && Positive(Codes(c.toks))
  {
    CodesPositive(c.toks);
    Parse(c.m, c.lval, c.toks, act, c.n)
  }

  lemma {:induction false} CodesPositive<V>(toks: seq<(int, V)>)
    ensures Positive(Codes(toks)) <==> forall i :: 0 <= i < |toks| ==> toks[i].0 > 0
    decreases |toks|
  {
    if toks != [] {
      CodesPositive(toks[1..]);
      var codes := Codes(toks);
      assert forall i :: 0 < i < |toks| ==> toks[i] == toks[1..][i - 1];
      assert codes[0] == toks[0].0 && codes[1..] == Codes(toks[1..]);
      assert forall i :: 0 < i < |codes| ==> codes[i] == codes[1..][i - 1];
    }
  }

  lemma StepStaysGood<V>(c: Conf<V>, act: nat -> (bool, V), o: Outcome<V>, d: Conf<V>)
    requires Certified(TABLES, Below) && Good(c.m) && Positive(Codes(c.toks))
    requires o == StepOf(TABLES, Below, c, act) && d == NextOf(TABLES, c, o)
    ensures (o.Running? ==> Good(d.m)) && Positive(Codes(d.toks))
  {
    StepGoes(c.m, Given(TABLES, c.m, c.lval, c.toks, act(c.n)));
    CodesPositive(c.toks);
    CodesPositive(if c.toks == [] then [] else c.toks[1..]);
  }

  lemma ParseStepOf<V>(c: Conf<V>, act: nat -> (bool, V), o: Outcome<V>, d: Conf<V>)
    requires Certified(TABLES, Below) && Good(c.m) && Positive(Codes(c.toks)) && Positive(Codes(d.toks))
    requires o == StepOf(TABLES, Below, c, act) && d == NextOf(TABLES, c, o) && (o.Running? ==> Good(d.m))
    ensures ParseOf(c, act) == if o.Running? then ParseOf(d, act) else o
  {
    CodesPositive(c.toks);
    CodesPositive(d.toks);
  }

  lemma {:induction false} ParseLeads<V>(c: Conf<V>, d: Conf<V>, act: nat -> (bool, V), k: nat)
    requires Certified(TABLES, Below) && Good(c.m) && Positive(Codes(c.toks)) && Leads(TABLES, Below, act, c, d, k)
    ensures Good(d.m) && Positive(Codes(d.toks)) && ParseOf(c, act) == ParseOf(d, act)
    decreases k
  {
    if k > 0 {
      var o := StepOf(TABLES, Below, c, act);
      var b := LeadsFirst(TABLES, Below, act, c, d, k);
      StepStaysGood(c, act, o, b);
      ParseStepOf(c, act, o, b);
      ParseLeads(b, d, act, Less(k));
    }
  }

  lemma StartStands<V>(v: V, toks: seq<(int, V)>)
    requires Positive(Codes(toks))
    ensures Stands(TABLES, Below, Conf(Start(v), v, toks, 0), [0], Codes(toks)) && Good(Start(v))
  {
    assert [] + Codes(toks) == Codes(toks);
  }

  lemma TreeAccepted<V>(c: Conf<V>, act: nat -> (bool, V), t: Tree)
    requires Guided(TABLES, Below, GRAMMAR_RULES, GUIDE) && Willing(act) && Good(c.m) && Positive(Codes(c.toks))
    requires IsTree(GRAMMAR_RULES, t) && Root(GRAMMAR_RULES, t) == GRAMMAR && Positive(Yield(t))
    requires Stands(TABLES, Below, c, [0], Yield(t))
    ensures ParseOf(c, act).Accepted? && ParseOf(c, act).m.nerrs == 0
  {
    IsInner(GRAMMAR_RULES, t);
    var d, k := SentenceRuns(TABLES, Below, GRAMMAR_RULES, GUIDE, act, t, c);
    ParseLeads(c, d, act, k);
    var o := StepOf(TABLES, Below, d, act);
    NeverFull(o);
    StepStaysGood(d, act, o, NextOf(TABLES, d, o));
    ParseStepOf(d, act, o, NextOf(TABLES, d, o));
  }

  /** yyparse accepts every sentence of the grammar without an error, as long as no action fails. */
  lemma ParseAccepts<V>(v: V, toks: seq<(int, V)>, act: nat -> (bool, V))
    requires (forall i :: 0 <= i < |toks| ==> toks[i].0 > 0) && Willing(act) && IsSentence(Codes(toks))
    ensures Good(Start(v))
    ensures var o := Parse(Start(v), v, toks, act, 0);
            o.Accepted? && o.m.nerrs == 0
  {
    TablesGuided();
    CodesPositive(toks);
    StartStands(v, toks);
    var t :| IsTree(GRAMMAR_RULES, t) && Root(GRAMMAR_RULES, t) == GRAMMAR && Yield(t) == Codes(toks);
    TreeAccepted(Conf(Start(v), v, toks, 0), act, t);
  }

  /** So yyparse recognises exactly its grammar. */
  lemma RecognisesExactly<V>(v: V, toks: seq<(int, V)>, act: nat -> (bool, V))
    requires (forall i :: 0 <= i < |toks| ==> toks[i].0 > 0) && Willing(act)
    ensures Good(Start(v))
    ensures var o := Parse(Start(v), v, toks, act, 0);
            o.Accepted? && o.m.nerrs == 0 <==> IsSentence(Codes(toks))
  {
    ParseDerives(v, toks, act);
    if IsSentence(Codes(toks)) {
      ParseAccepts(v, toks, act);
    }
  }
}
