/**
  The tables of the configuration grammar (ifconfigctl/parse.c), row by row as yacc wrote
  them, and the proof that they are safe for the machine.
 */
module ConfigTables {
  import opened Numbers
  import opened LrMachine

  /** Ten entries of a table. */
  function Row(i: int, a: int, b: int, c: int, d: int, e: int, f: int, g: int, h: int, j: int, k: int): int {
    if i < 5 then (if i < 2 then (if i < 1 then a else b) else if i < 3 then c else if i < 4 then d else e)
    else (if i < 7 then (if i < 6 then f else g) else if i < 8 then h else if i < 9 then j else k)
  }

  /** yylhs */
  function YyLhs(i: int): int {
    if i < 1 then -1
    else if i < 11 then Row(i - 1, 0, 0, 0, 0, 0, 0, 0, 0, 0, 2)
    else if i < 21 then Row(i - 11, 2, 2, 2, 12, 12, 1, 1, 1, 16, 16)
    else if i < 31 then Row(i - 21, 16, 16, 20, 17, 3, 3, 19, 19, 19, 21)
    else if i < 41 then Row(i - 31, 21, 21, 21, 21, 21, 21, 21, 21, 21, 21)
    else if i < 51 then Row(i - 41, 4, 4, 13, 13, 5, 5, 6, 6, 6, 7)
    else if i < 61 then Row(i - 51, 7, 8, 8, 8, 9, 9, 9, 10, 10, 10)
    else if i < 71 then Row(i - 61, 11, 11, 11, 11, 14, 15, 18, -1, -1, -1)
    else -1
  }

  /** yylen */
  function YyLen(i: int): int {
    if i < 1 then (if i == 0 then 2 else 0)
    else if i < 11 then Row(i - 1, 0, 2, 3, 3, 3, 3, 3, 3, 3, 0)
    else if i < 21 then Row(i - 11, 1, 1, 1, 0, 2, 2, 2, 0, 6, 2)
    else if i < 31 then Row(i - 21, 2, 2, 0, 7, 1, 1, 0, 2, 3, 2)
    else if i < 41 then Row(i - 31, 2, 2, 2, 2, 2, 1, 2, 2, 3, 2)
    else if i < 51 then Row(i - 41, 0, 2, 6, 2, 1, 1, 0, 1, 2, 1)
    else if i < 61 then Row(i - 51, 3, 1, 1, 1, 0, 1, 2, 1, 1, 1)
    else if i < 71 then Row(i - 61, 0, 2, 2, 2, 2, 3, 2, 0, 0, 0)
    else 0
  }

  /** yydefred */
  function YyDefred(i: int): int {
    if i < 1 then (if i == 0 then 1 else 0)
    else if i < 11 then Row(i - 1, 0, 0, 0, 0, 0, 0, 0, 0, 45, 46)
    else if i < 21 then (if i == 13 then 2 else 0)
    else if i < 31 then Row(i - 21, 6, 0, 0, 21, 22, 67, 65, 20, 0, 52)
    else if i < 41 then Row(i - 31, 53, 54, 48, 0, 0, 50, 8, 3, 4, 5)
    else if i < 51 then Row(i - 41, 7, 9, 0, 0, 66, 0, 49, 0, 0, 0)
    else if i < 61 then Row(i - 51, 23, 0, 56, 0, 51, 16, 17, 11, 12, 13)
    else if i < 71 then Row(i - 61, 0, 27, 57, 59, 58, 60, 0, 0, 19, 0)
    else if i < 81 then Row(i - 71, 0, 43, 15, 0, 0, 0, 0, 0, 0, 0)
    else if i < 91 then Row(i - 81, 0, 0, 0, 28, 24, 36, 0, 62, 64, 63)
    else if i < 101 then Row(i - 91, 30, 31, 32, 37, 38, 0, 26, 25, 35, 33)
    else if i < 111 then Row(i - 101, 34, 40, 29, 0, 39, 42, 0, 0, 0, 0)
    else 0
  }

  /** yydgoto */
  function YyDgoto(i: int): int {
    if i < 1 then (if i == 0 then 1 else 0)
    else if i < 11 then Row(i - 1, 50, 61, 99, 105, 14, 34, 35, 36, 54, 67)
    else if i < 21 then Row(i - 11, 72, 69, 15, 16, 17, 18, 19, 20, 70, 62)
    else if i < 31 then (if i == 21 then 87 else 0)
    else 0
  }

  /** yysindex */
  function YySindex(i: int): int {
    if i < 1 then 0
    else if i < 11 then Row(i - 1, -10, 1, -245, -276, -270, -262, -261, -260, 0, 0)
    else if i < 21 then Row(i - 11, -259, -23, 0, -254, 29, 30, 32, 33, 34, 35)
    else if i < 31 then Row(i - 21, 0, -249, -77, 0, 0, 0, 0, 0, -247, 0)
    else if i < 41 then Row(i - 31, 0, 0, 0, -237, -41, 0, 0, 0, 0, 0)
    else if i < 51 then Row(i - 41, 0, 0, -212, 41, 0, -268, 0, -250, -274, -248)
    else if i < 61 then Row(i - 51, 0, -238, 0, -281, 0, 0, 0, 0, 0, 0)
    else if i < 71 then Row(i - 61, -222, 0, 0, 0, 0, 0, -240, -241, 0, 14)
    else if i < 81 then Row(i - 71, -279, 0, 0, -239, -236, -235, -214, -211, -210, -255)
    else if i < 91 then Row(i - 81, -234, -233, -231, 0, 0, 0, 48, 0, 0, 0)
    else if i < 101 then (if i == 96 then -207 else 0)
    else if i < 111 then (if i == 104 then -230 else 0)
    else 0
  }

  /** yyrindex */
  function YyRindex(i: int): int {
    if i < 1 then 0
    else if i < 11 then 0
    else if i < 21 then (if i == 14 then -9 else 0)
    else if i < 31 then 0
    else if i < 41 then (if i == 34 then 58 else 0)
    else if i < 51 then Row(i - 41, 0, 0, -4, 0, 0, -278, 0, 0, 0, -8)
    else if i < 61 then 0
    else if i < 71 then Row(i - 61, 59, 0, 0, 0, 0, 0, 60, 0, 0, 0)
    else if i < 91 then 0
    else if i < 101 then (if i == 96 then 34 else 0)
    else if i < 111 then 0
    else 0
  }

  /** yygindex */
  function YyGindex(i: int): int {
    if i < 1 then 0
    else if i < 11 then (if i == 8 then 23 else 0)
    else if i < 21 then (if i == 13 then 2 else 0)
    else if i < 31 then 0
    else 0
  }

  /** yytable */
  function YyTable(i: int): int {
    if i < 1 then (if i == 0 then 13 else 0)
    else if i < 11 then Row(i - 1, 47, 10, 48, 97, 64, 18, 65, 55, 88, 55)
    else if i < 21 then Row(i - 11, 21, 58, 59, 22, 66, 89, 90, 55, 60, 23)
    else if i < 31 then Row(i - 21, 52, 56, 57, 84, 53, 24, 30, 31, 32, 33)
    else if i < 41 then Row(i - 31, 30, 31, 32, 25, 26, 27, 28, 29, 37, 38)
    else if i < 51 then Row(i - 41, 98, 39, 40, 41, 42, 44, 43, 46, 45, 49)
    else if i < 61 then Row(i - 51, 51, 63, 68, 71, 73, 94, 91, 103, 95, 92)
    else if i < 71 then Row(i - 61, 93, 96, 100, 101, 102, 104, 106, 44, 14, 61)
    else if i < 81 then Row(i - 71, 55, 86, 0, 0, 0, 0, 0, 0, 0, 0)
    else if i < 131 then 0
    else if i < 141 then (if i == 139 then 85 else 0)
    else if i < 241 then 0
    else if i < 251 then Row(i - 241, 0, 0, 47, 0, 0, 2, 0, 3, 0, 0)
    else if i < 261 then Row(i - 251, 0, 0, 4, 5, 6, 18, 18, 0, 0, 7)
    else if i < 271 then Row(i - 261, 0, 0, 18, 8, 0, 0, 10, 0, 9, 10)
    else if i < 281 then Row(i - 271, 18, 0, 0, 0, 0, 47, 11, 74, 75, 76)
    else if i < 291 then Row(i - 281, 0, 77, 78, 0, 79, 12, 0, 0, 0, 80)
    else if i < 301 then Row(i - 291, 81, 82, 9, 10, 0, 0, 0, 0, 0, 0)
    else if i < 311 then (if i == 301 then 83 else 0)
    else 0
  }

  /** yycheck */
  function YyCheck(i: int): int {
    if i < 1 then (if i == 0 then 10 else -1)
    else if i < 11 then Row(i - 1, 10, 10, 44, 259, 286, 10, 288, 286, 288, 288)
    else if i < 21 then Row(i - 11, 10, 260, 261, 259, 296, 295, 296, 296, 267, 296)
    else if i < 31 then Row(i - 21, 289, 296, 297, 10, 293, 296, 281, 282, 283, 284)
    else if i < 41 then Row(i - 31, 281, 282, 283, 296, 296, 296, 296, 61, 10, 10)
    else if i < 51 then Row(i - 41, 296, 10, 10, 10, 10, 123, 296, 285, 296, 262)
    else if i < 61 then Row(i - 51, 10, 290, 275, 294, 296, 270, 296, 10, 270, 296)
    else if i < 71 then Row(i - 61, 296, 272, 297, 297, 296, 273, 297, 10, 10, 10)
    else if i < 81 then Row(i - 71, 48, 70, -1, -1, -1, -1, -1, -1, -1, -1)
    else if i < 131 then -1
    else if i < 141 then (if i == 139 then 125 else -1)
    else if i < 241 then -1
    else if i < 251 then Row(i - 241, -1, -1, 284, -1, -1, 256, -1, 258, -1, -1)
    else if i < 261 then Row(i - 251, -1, -1, 263, 264, 265, 260, 261, -1, -1, 270)
    else if i < 271 then Row(i - 261, -1, -1, 267, 274, -1, -1, 275, -1, 279, 280)
    else if i < 281 then Row(i - 271, 275, -1, -1, -1, -1, 285, 287, 264, 265, 266)
    else if i < 291 then Row(i - 281, -1, 268, 269, -1, 271, 296, -1, -1, -1, 276)
    else if i < 301 then Row(i - 291, 277, 278, 279, 280, -1, -1, -1, -1, -1, -1)
    else if i < 311 then (if i == 301 then 287 else -1)
    else -1
  }

  /** A state that may lie directly under each state; only six states have a second one. */
  function One(s: int): int {
    if s < 1 then -1
    else if s < 11 then Row(s - 1, 0, 1, 1, 1, 1, 1, 1, 1, 1, 1)
    else if s < 21 then Row(s - 11, 1, 1, 1, 1, 1, 1, 1, 1, 1, 1)
    else if s < 31 then Row(s - 21, 2, 3, 4, 5, 6, 7, 8, 11, 12, 14)
    else if s < 41 then Row(s - 31, 14, 14, 14, 14, 14, 14, 15, 16, 17, 18)
    else if s < 51 then Row(s - 41, 19, 20, 22, 23, 29, 34, 35, 35, 43, 43)
    else if s < 61 then Row(s - 51, 44, 46, 46, 46, 48, 49, 49, 50, 50, 50)
    else if s < 71 then Row(s - 61, 50, 51, 52, 54, 54, 54, 54, 61, 61, 62)
    else if s < 81 then Row(s - 71, 67, 67, 68, 70, 70, 70, 70, 70, 70, 70)
    else if s < 91 then Row(s - 81, 70, 70, 70, 70, 70, 70, 70, 71, 71, 71)
    else if s < 101 then Row(s - 91, 74, 75, 76, 77, 78, 79, 80, 80, 80, 81)
    else if s < 111 then Row(s - 101, 82, 83, 87, 96, 96, 104, -1, -1, -1, -1)
    else -1
  }

  function Two(s: int): int {
    if s in {9, 10, 14} then 70 else if s in {30, 31, 32} then 48 else One(s)
  }

  function Below(s: int): seq<int> {
    if One(s) == -1 then [] else if Two(s) == One(s) then [One(s)] else [One(s), Two(s)]
  }

  /** The rules whose action may raise YYERROR. */
  predicate MayFail(r: int) {
    r in {16, 17, 19, 20, 25, 32, 40, 43, 44, 65, 67}
  }

  const TABLES: Tables := Tables(
    107, 68, 22, 301, YyLhs, YyLen, YyDefred, YyDgoto, YySindex, YyRindex, YyGindex, YyTable, YyCheck, MayFail)

  // ----- Shifts

  lemma ShiftsFit(s: int, y: int)
    requires 0 <= s < 107 && 0 <= y <= 301 && YySindex(s) != 0 && YyCheck(y) >= 0 && YyCheck(y) == y - YySindex(s)
    ensures 0 < YyTable(y) < 107 && (s == One(YyTable(y)) || s == Two(YyTable(y)))
  {
  }

  // ----- Reductions

  /** The goto entries that differ from the default are two. */
  function Goto(x: int, a: int): int {
    if x == 0 && a == 0 then 1
    else if a == 8 && x == 48 then 55
    else if a == 13 && x == 70 then 86
    else YyDgoto(a)
  }

  lemma NextIsGoto(x: int, r: int)
    requires 0 <= x < 107
    ensures TABLES.Next(x, r) == Goto(x, YyLhs(r))
  {
  }

  predicate Lands(x: int, r: int) {
    var n := Goto(x, YyLhs(r));
    0 <= x < 107 && 0 < n < 107 && (x == One(n) || x == Two(n))
  }

  predicate Down(x: int, m: nat, r: int)
    decreases m
  {
    if m == 0 then Lands(x, r) else 0 < x < 107 && Down(One(x), m - 1, r) && Down(Two(x), m - 1, r)
  }

  lemma {:induction false} DownReaches(x: int, m: nat, r: int)
    requires Down(x, m, r)
    ensures Reaches(TABLES, Below, x, m, r)
    decreases m
  {
    if m == 0 {
      NextIsGoto(x, r);
    } else {
      DownReaches(One(x), m - 1, r);
      DownReaches(Two(x), m - 1, r);
    }
  }

  /** The default reductions, by the length of their rule. */
  lemma ReducesShort(s: int, r: int)
    requires 0 <= s < 107 && r == YyDefred(s) != 0
    ensures 0 < r < 68 && YyLen(r) in {0, 1, 2, 3, 6, 7}
    ensures YyLen(r) <= 1 ==> Down(s, YyLen(r), r)
  {
    if YyLen(r) == 0 {
      assert Down(s, 0, r);
    } else if YyLen(r) == 1 {
      assert Down(s, 1, r);
    }
  }

  lemma ReducesTwoMid(s: int, r: int)
    requires 30 <= s < 60 && r == YyDefred(s) != 0 && YyLen(r) == 2
    ensures Down(s, 2, r)
  {
  }

  lemma ReducesTwoLow(s: int, r: int)
    requires 0 <= s < 30 && r == YyDefred(s) != 0 && YyLen(r) == 2
    ensures Down(s, 2, r)
  {
  }

  lemma ReducesTwoHigh(s: int, r: int)
    requires 60 <= s < 107 && r == YyDefred(s) != 0 && YyLen(r) == 2
    ensures Down(s, 2, r)
  {
  }

  lemma ReducesThreeLow(s: int, r: int)
    requires 0 <= s < 41 && r == YyDefred(s) != 0 && YyLen(r) == 3
    ensures Down(s, 3, r)
  {
    assert Down(One(s), 2, r);
    assert Down(Two(s), 2, r);
  }

  lemma ReducesThreeMid(s: int, r: int)
    requires 41 <= s < 50 && r == YyDefred(s) != 0 && YyLen(r) == 3
    ensures Down(s, 3, r)
  {
    assert Down(One(s), 2, r);
    assert Down(Two(s), 2, r);
  }

  lemma ReducesThreeHigh(s: int, r: int)
    requires 50 <= s < 107 && r == YyDefred(s) != 0 && YyLen(r) == 3
    ensures Down(s, 3, r)
  {
    assert (s == 55 && r == 51) || (s == 103 && r == 29) || (s == 105 && r == 39);
    LongRules();
  }

  lemma LongRules()
    ensures Down(55, 3, 51) && Down(103, 3, 29) && Down(105, 3, 39)
  {
    assert Down(14, 0, 51) && Down(35, 1, 51) && Down(48, 2, 51);
    assert Down(62, 0, 29) && Down(70, 1, 29) && Down(87, 2, 29);
    assert Down(70, 0, 39) && Down(79, 1, 39) && Down(96, 2, 39);
  }

  /** The chains of states under the three longest rules. */
  lemma Rule19Fits()
    ensures Down(69, 6, 19)
  {
  }

  lemma Rule43Fits()
    ensures Down(72, 6, 43)
  {
  }

  lemma Rule24Fits()
    ensures Down(85, 7, 24)
  {
  }

  lemma ReducesLong(s: int, r: int)
    requires 0 <= s < 107 && r == YyDefred(s) != 0 && YyLen(r) in {6, 7}
    ensures Down(s, YyLen(r), r)
  {
    assert (s == 69 && r == 19) || (s == 72 && r == 43) || (s == 85 && r == 24);
    if s == 69 { Rule19Fits(); } else if s == 72 { Rule43Fits(); } else { Rule24Fits(); }
  }

  /** The reductions that look at the token. */
  lemma ReducesOnToken(s: int, y: int)
    requires 0 <= s < 107 && 0 <= y <= 301 && YyRindex(s) != 0 && YyCheck(y) >= 0 && YyCheck(y) == y - YyRindex(s)
    ensures (s, YyTable(y)) in {(14, 47), (34, 44), (43, 18), (46, 55), (50, 10), (61, 14), (67, 61), (96, 41)}
  {
  }

  lemma TokenRulesFit()
    ensures Down(14, 0, 47) && Down(34, 2, 44) && Down(43, 0, 18) && Down(46, 0, 55)
    ensures Down(50, 0, 10) && Down(61, 0, 14) && Down(67, 0, 61) && Down(96, 0, 41)
    ensures YyLen(47) == 0 && YyLen(44) == 2 && YyLen(18) == 0 && YyLen(55) == 0
    ensures YyLen(10) == 0 && YyLen(14) == 0 && YyLen(61) == 0 && YyLen(41) == 0
  {
  }

  lemma ReducesFit(s: int, r: int)
    requires 0 <= s < 107 && r == YyDefred(s) != 0
    ensures RuleFits(TABLES, Below, s, r)
  {
    ReducesShort(s, r);
    if YyLen(r) == 2 {
      if s < 30 { ReducesTwoLow(s, r); } else if s < 60 { ReducesTwoMid(s, r); } else { ReducesTwoHigh(s, r); }
    } else if YyLen(r) == 3 {
      if s < 41 { ReducesThreeLow(s, r); } else if s < 50 { ReducesThreeMid(s, r); } else { ReducesThreeHigh(s, r); }
    } else if YyLen(r) > 3 {
      ReducesLong(s, r);
    }
    DownReaches(s, YyLen(r), r);
  }

  lemma TokenReducesFit(s: int, y: int)
    requires 0 <= s < 107 && 0 <= y <= 301 && YyRindex(s) != 0 && YyCheck(y) >= 0 && YyCheck(y) == y - YyRindex(s)
    ensures RuleFits(TABLES, Below, s, YyTable(y))
  {
    ReducesOnToken(s, y);
    TokenRulesFit();
    DownReaches(s, YyLen(YyTable(y)), YyTable(y));
  }

  /** The tables of the configuration grammar are safe. */
  lemma TablesCertified()
    ensures Certified(TABLES, Below)
  {
    forall s, c | TABLES.IsState(s) && c >= 0 && TABLES.Shift(s, c).Some?
      ensures TABLES.IsState(TABLES.Shift(s, c).value) && s in Below(TABLES.Shift(s, c).value)
    {
      ShiftsFit(s, YySindex(s) + c);
    }
    forall s | TABLES.IsState(s) && TABLES.defred(s) != 0 ensures RuleFits(TABLES, Below, s, TABLES.defred(s)) {
      ReducesFit(s, YyDefred(s));
    }
    forall s, c | TABLES.IsState(s) && c >= 0 && TABLES.Reduction(s, c).Some?
      ensures RuleFits(TABLES, Below, s, TABLES.Reduction(s, c).value)
    {
      TokenReducesFit(s, YyRindex(s) + c);
    }
  }
}
