/**
  What the expression evaluator is for: an expression written out with its operators'
  precedence is read back as that expression, its value is the one 32-bit arithmetic gives,
  and the side that || or && decides against is only parsed.
 */
module ExprMeaning {
  import opened Numbers
  import opened Expr
  import opened ExprArith
  import Matching

  // ----- Parsing does not depend on evaluation

  /** One level of an evaluation, given those of its operands. */
  lemma AtLevel<W>(env: Env<W>, level: nat, v: seq<string>, f: Flags, w: W)
    requires level < PRIMARY
    ensures var r := Exp(env, level + 1, v, f, w);
            Exp(env, level, v, f, w) ==
            if r.Fail? || OpAt(level, r.rest).None? then Alone(level, r)
            else Join(level, OpAt(level, r.rest).value.0, f.ignore, r.value,
                      Exp(env, RightLevel(level), r.rest[OpAt(level, r.rest).value.1..],
                          RightFlags(level, OpAt(level, r.rest).value.0, f, r.value), r.world))
  {
  }

  /** The same, for an operand that an operator of the level follows. */
  lemma AtOperator<W>(env: Env<W>, level: nat, v: seq<string>, f: Flags, w: W, p1: Value, rest1: seq<string>, w1: W,
                      op: string, len: nat, x: seq<string>)
    requires level < PRIMARY && Exp(env, level + 1, v, f, w) == Ok(p1, rest1, w1)
    requires OpAt(level, rest1) == Some((op, len)) && rest1[len..] == x
    ensures Exp(env, level, v, f, w) ==
            Join(level, op, f.ignore, p1, Exp(env, RightLevel(level), x, RightFlags(level, op, f, p1), w1))
  {
    AtLevel(env, level, v, f, w);
  }

  /** The evaluation of what stands behind an operand and its operator. */
  ghost function Behind<W>(env: Env<W>, level: nat, a: Outcome<W>, f: Flags): Outcome<W>
    requires level < PRIMARY && a.Ok? && TypedAt(level + 1, a.value) && OpAt(level, a.rest).Some?
  {
    var (op, len) := OpAt(level, a.rest).value;
    Exp(env, RightLevel(level), a.rest[len..], RightFlags(level, op, f, a.value), a.world)
  }

  /** Where an evaluation at a level stops, if it does. */
  ghost predicate StopsWith<W>(env: Env<W>, level: nat, a: Outcome<W>, f: Flags, r: Outcome<W>)
    requires level < PRIMARY && (a.Ok? ==> TypedAt(level + 1, a.value))
  {
    r.Ok? ==>
      && a.Ok?
      && if OpAt(level, a.rest).None? then r.rest == a.rest
         else Behind(env, level, a, f).Ok? && r.rest == Behind(env, level, a, f).rest
  }

  lemma LevelStops<W>(env: Env<W>, level: nat, v: seq<string>, f: Flags, w: W)
    requires level < PRIMARY
    ensures StopsWith(env, level, Exp(env, level + 1, v, f, w), f, Exp(env, level, v, f, w))
  {
    AtLevel(env, level, v, f, w);
  }

  lemma LeafSameStop<W, X>(env1: Env<W>, env2: Env<X>, v: seq<string>, f1: Flags, f2: Flags, w1: W, w2: X)
    ensures var r1 := Leaf(env1, v, f1, w1);
            var r2 := Leaf(env2, v, f2, w2);
            r1.Ok? && r2.Ok? ==> r1.rest == r2.rest
  {
  }

  ghost predicate Alike<W, X>(r1: Outcome<W>, r2: Outcome<X>) {
    r1.Ok? && r2.Ok? ==> r1.rest == r2.rest
  }

  lemma {:induction false} PrimarySameStop<W, X>(env1: Env<W>, env2: Env<X>, v: seq<string>, f1: Flags, f2: Flags,
                                                 w1: W, w2: X)
    ensures Alike(Exp(env1, PRIMARY, v, f1, w1), Exp(env2, PRIMARY, v, f2, w2))
    decreases |v|, 0
  {
    if v != [] && v[0] in {"!", "~"} {
      PrimarySameStop(env1, env2, v[1..], f1, f2, w1, w2);
    } else if v != [] && v[0] == "(" {
      SameStop(env1, env2, 0, v[1..], f1, f2, w1, w2);
    } else {
      LeafSameStop(env1, env2, v, f1, f2, w1, w2);
    }
  }

  lemma LevelAlike<W, X>(env1: Env<W>, env2: Env<X>, level: nat, a1: Outcome<W>, a2: Outcome<X>, f1: Flags, f2: Flags,
                         r1: Outcome<W>, r2: Outcome<X>)
    requires level < PRIMARY && (a1.Ok? ==> TypedAt(level + 1, a1.value)) && (a2.Ok? ==> TypedAt(level + 1, a2.value))
    requires StopsWith(env1, level, a1, f1, r1) && StopsWith(env2, level, a2, f2, r2) && Alike(a1, a2)
    requires a1.Ok? && a2.Ok? && OpAt(level, a1.rest).Some? ==>
               Alike(Behind(env1, level, a1, f1), Behind(env2, level, a2, f2))
    ensures Alike(r1, r2)
  {
  }

  /**
    Two evaluations of the same words, under whatever flags, worlds and environments, that
    both succeed stop at the same word.
   */
  lemma {:induction false} SameStop<W, X>(env1: Env<W>, env2: Env<X>, level: nat, v: seq<string>, f1: Flags, f2: Flags,
                                          w1: W, w2: X)
    requires level <= PRIMARY
    ensures Alike(Exp(env1, level, v, f1, w1), Exp(env2, level, v, f2, w2))
    decreases |v|, PRIMARY + 1 - level
  {
    if level == PRIMARY {
      PrimarySameStop(env1, env2, v, f1, f2, w1, w2);
    } else {
      SameStop(env1, env2, level + 1, v, f1, f2, w1, w2);
      var a1, a2 := Exp(env1, level + 1, v, f1, w1), Exp(env2, level + 1, v, f2, w2);
      if a1.Ok? && a2.Ok? && OpAt(level, a1.rest).Some? {
        BehindSameStop(env1, env2, level, a1, a2, f1, f2, |v|);
      }
      LevelStops(env1, level, v, f1, w1);
      LevelStops(env2, level, v, f2, w2);
      LevelAlike(env1, env2, level, a1, a2, f1, f2, Exp(env1, level, v, f1, w1), Exp(env2, level, v, f2, w2));
    }
  }

  lemma {:induction false} BehindSameStop<W, X>(env1: Env<W>, env2: Env<X>, level: nat, a1: Outcome<W>, a2: Outcome<X>,
                                                f1: Flags, f2: Flags, n: nat)
    requires level < PRIMARY && a1.Ok? && a2.Ok? && TypedAt(level + 1, a1.value) && TypedAt(level + 1, a2.value)
    requires a1.rest == a2.rest && |a1.rest| <= n && OpAt(level, a1.rest).Some?
    ensures Alike(Behind(env1, level, a1, f1), Behind(env2, level, a2, f2))
    decreases n, 0
  {
    var (op, len) := OpAt(level, a1.rest).value;
    SameStop(env1, env2, RightLevel(level), a1.rest[len..],
             RightFlags(level, op, f1, a1.value), RightFlags(level, op, f2, a2.value), a1.world, a2.world);
  }

  // ----- What is left is the end of the list

  predicate IsEndOf(rest: seq<string>, v: seq<string>) {
    |rest| <= |v| && rest == v[|v| - |rest|..]
  }

  lemma EndOfEnd(a: seq<string>, b: seq<string>, c: seq<string>)
    requires IsEndOf(a, b) && IsEndOf(b, c)
    ensures IsEndOf(a, c)
  {
    assert b[|b| - |a|..] == c[|c| - |b|..][|b| - |a|..] == c[|c| - |a|..];
  }

  lemma Dropped(v: seq<string>, n: nat)
    requires n <= |v|
    ensures IsEndOf(v[n..], v)
  {
  }

  lemma CommandLeavesEnd<W>(env: Env<W>, v: seq<string>, f: Flags, w: W)
    ensures var r := Command(env, v, f, w);
            r.Ok? ==> IsEndOf(r.rest, v)
  {
    if BraceEnd(v).Some? {
      Dropped(v, BraceEnd(v).value + 1);
    }
  }

  lemma LeafLeavesEnd<W>(env: Env<W>, v: seq<string>, f: Flags, w: W)
    ensures var r := Leaf(env, v, f, w);
            r.Ok? ==> IsEndOf(r.rest, v)
  {
    if v != [] {
      Dropped(v, 1);
      if v[0] == "{" {
        CommandLeavesEnd(env, v[1..], f, w);
        var r := Command(env, v[1..], f, w);
        if r.Ok? {
          EndOfEnd(r.rest, v[1..], v);
        }
      }
    }
  }

  ghost predicate LeavesEnd<W>(r: Outcome<W>, v: seq<string>) {
    r.Ok? ==> IsEndOf(r.rest, v)
  }

  lemma {:induction false} PrimaryLeavesEnd<W>(env: Env<W>, v: seq<string>, f: Flags, w: W)
    ensures LeavesEnd(Exp(env, PRIMARY, v, f, w), v)
    decreases |v|, 0
  {
    if v != [] && v[0] in {"!", "~"} {
      PrimaryLeavesEnd(env, v[1..], f, w);
      BehindFirst(Exp(env, PRIMARY, v[1..], f, w), v);
    } else if v != [] && v[0] == "(" {
      RestIsEnd(env, 0, v[1..], f, w);
      BehindFirst(Exp(env, 0, v[1..], f, w), v);
    } else {
      LeafLeavesEnd(env, v, f, w);
    }
  }

  lemma BehindFirst<W>(r: Outcome<W>, v: seq<string>)
    requires v != [] && LeavesEnd(r, v[1..])
    ensures r.Ok? ==> IsEndOf(r.rest, v) && (r.rest != [] ==> IsEndOf(r.rest[1..], v))
  {
    if r.Ok? {
      Dropped(v, 1);
      EndOfEnd(r.rest, v[1..], v);
      if r.rest != [] {
        Dropped(r.rest, 1);
        EndOfEnd(r.rest[1..], r.rest, v);
      }
    }
  }

  /** Whatever the words, an evaluation that succeeds leaves an end of the list. */
  lemma {:induction false} RestIsEnd<W>(env: Env<W>, level: nat, v: seq<string>, f: Flags, w: W)
    requires level <= PRIMARY
    ensures LeavesEnd(Exp(env, level, v, f, w), v)
    decreases |v|, PRIMARY + 1 - level
  {
    if level == PRIMARY {
      PrimaryLeavesEnd(env, v, f, w);
    } else {
      RestIsEnd(env, level + 1, v, f, w);
      LevelStops(env, level, v, f, w);
      var a := Exp(env, level + 1, v, f, w);
      if a.Ok? && OpAt(level, a.rest).Some? {
        BehindLeavesEnd(env, level, a, f, v);
      }
    }
  }

  lemma {:induction false} BehindLeavesEnd<W>(env: Env<W>, level: nat, a: Outcome<W>, f: Flags, v: seq<string>)
    requires level < PRIMARY && a.Ok? && TypedAt(level + 1, a.value) && IsEndOf(a.rest, v) && OpAt(level, a.rest).Some?
    ensures LeavesEnd(Behind(env, level, a, f), v)
    decreases |v|, 0
  {
    var (op, len) := OpAt(level, a.rest).value;
    var b := Behind(env, level, a, f);
    RestIsEnd(env, RightLevel(level), a.rest[len..], RightFlags(level, op, f, a.value), a.world);
    if b.Ok? {
      Dropped(a.rest, len);
      EndOfEnd(b.rest, a.rest[len..], a.rest);
      EndOfEnd(b.rest, a.rest, v);
    }
  }

  // ----- The ignored side

  /** An ignored comparison, match, sum or product is not computed: its value is the same for any operands. */
  lemma IgnoredNotComputed(level: nat, op: string, p1: Value, p2: Value, q1: Value, q2: Value)
    requires EQUALITY <= level < PRIMARY && level != 7 && p1.Word? && p2.Word? && q1.Word? && q2.Word?
    ensures Combine(level, op, true, p1, p2).Good?
    ensures Combine(level, op, true, p1, p2) == Combine(level, op, true, q1, q2)
  {
  }

  /** An outcome that changed nothing and did not come from evaluating an operator. */
  ghost predicate Inert<W>(r: Outcome<W>, w: W) {
    r.world == w && (r.Fail? ==> r.error !in {Div0, Mod0, BadPattern})
  }

  lemma LeafIgnored<W>(env1: Env<W>, env2: Env<W>, v: seq<string>, f: Flags, w: W)
    requires f.ignore && env2.glob == env1.glob && env2.exists_ == env1.exists_
    ensures Leaf(env1, v, f, w) == Leaf(env2, v, f, w) && Inert(Leaf(env1, v, f, w), w)
  {
  }

  lemma EgetnErrors(s: string)
    ensures Egetn(s).Bad? ==> Egetn(s).error in {Expression, BadNumber}
  {
  }

  lemma UnaryInert<W>(op: string, r: Outcome<W>, w: W)
    requires Inert(r, w) && (r.Ok? ==> r.value.Word?)
    ensures Inert(Unary(op, r), w)
  {
  }

  lemma ShiftOps(v: seq<string>)
    ensures OpAt(7, v).Some? ==> OpAt(7, v).value.0 in {"<<", ">>"}
  {
    if OpAt(7, v).Some? {
      assert v[0][..2] == [v[0][0], v[0][0]];
    }
  }

  lemma JoinInert<W>(level: nat, v: seq<string>, p1: Value, r: Outcome<W>, w: W)
    requires level < PRIMARY && OpAt(level, v).Some? && Inert(r, w)
    requires if level < EQUALITY then p1.Num? && IsInt(p1.n) else p1.Word?
    requires r.Ok? ==> if level < EQUALITY then r.value.Num? && IsInt(r.value.n) else r.value.Word?
    ensures Inert(Join(level, OpAt(level, v).value.0, true, p1, r), w)
  {
    ShiftOps(v);
    if r.Ok? && level >= EQUALITY && level != 7 {
      IgnoredNotComputed(level, OpAt(level, v).value.0, p1, r.value, p1, r.value);
    }
  }

  lemma {:induction false} PrimaryIgnored<W>(env1: Env<W>, env2: Env<W>, v: seq<string>, f: Flags, w: W)
    requires f.ignore && env2.glob == env1.glob && env2.exists_ == env1.exists_
    ensures Exp(env1, PRIMARY, v, f, w) == Exp(env2, PRIMARY, v, f, w) && Inert(Exp(env1, PRIMARY, v, f, w), w)
    decreases |v|, 0
  {
    if v != [] && v[0] in {"!", "~"} {
      PrimaryIgnored(env1, env2, v[1..], f, w);
      UnaryInert(v[0], Exp(env1, PRIMARY, v[1..], f, w), w);
    } else if v != [] && v[0] == "(" {
      IgnoredIsInert(env1, env2, 0, v[1..], f, w);
    } else {
      LeafIgnored(env1, env2, v, f, w);
    }
  }

  /**
    An ignored expression, whatever its words, runs no command, reads nothing of a file but
    whether it can be found, matches no pattern and never divides: its outcome does not
    depend on what these would give.
   */
  lemma {:induction false} IgnoredIsInert<W>(env1: Env<W>, env2: Env<W>, level: nat, v: seq<string>, f: Flags, w: W)
    requires level <= PRIMARY && f.ignore && env2.glob == env1.glob && env2.exists_ == env1.exists_
    ensures Exp(env1, level, v, f, w) == Exp(env2, level, v, f, w) && Inert(Exp(env1, level, v, f, w), w)
    decreases |v|, PRIMARY + 1 - level
  {
    if level == PRIMARY {
      PrimaryIgnored(env1, env2, v, f, w);
    } else {
      IgnoredIsInert(env1, env2, level + 1, v, f, w);
      AtLevel(env1, level, v, f, w);
      AtLevel(env2, level, v, f, w);
      var a := Exp(env1, level + 1, v, f, w);
      if a.Ok? && OpAt(level, a.rest).Some? {
        var op, len := OpAt(level, a.rest).value.0, OpAt(level, a.rest).value.1;
        var g := RightFlags(level, op, f, a.value);
        IgnoredIsInert(env1, env2, RightLevel(level), a.rest[len..], g, w);
        JoinInert(level, a.rest, a.value, Exp(env1, RightLevel(level), a.rest[len..], g, w), w);
      } else if a.Ok? && level == EQUALITY {
        EgetnErrors(a.value.s);
      }
    }
  }

  // ----- Expressions and their values

  /** A written expression; Like is word =~ pattern or word !~ pattern. */
  datatype Tree =
    | Lit(n: int)
    | Prefix(op: string, t: Tree)
    | Group(t: Tree)
    | Ran(words: seq<string>)
    | Probe(c: char, name: string)
    | Like(op: string, word: string, pattern: string)
    | Bin(level: nat, op: string, l: Tree, r: Tree)

  predicate IsOp(level: nat, op: string) {
    match level
    case 0 => op == "||"
    case 1 => op == "&&"
    case 2 => op == "|"
    case 3 => op == "^"
    case 4 => op == "&"
    case 5 => op in {"==", "!="}
    case 6 => op in {"<", ">", "<=", ">="}
    case 7 => op in {"<<", ">>"}
    case 8 => op in {"+", "-"}
    case 9 => op in {"*", "/", "%"}
    case _ => false
  }

  /** A word that exp6 takes for an operand as it stands. */
  predicate IsPlain(s: string) {
    s != "" && s !in {"!", "~", "(", "{"} && !IsAnyOp(s) && !IsInquiry(s)
  }

  /** The expression can be written at a level without parentheses around it; operators group to the right. */
  predicate Fits(level: nat, t: Tree)
    decreases t
  {
    match t
    case Lit(n) => IsInt(n)
    case Prefix(op, t) => op in {"!", "~"} && Fits(PRIMARY, t)
    case Group(t) => Fits(0, t)
    case Ran(words) => "}" !in words
    case Probe(c, name) => c in "erwxfdzopls" && !IsAnyOp(name)
    case Like(op, word, pattern) => level <= EQUALITY && op in {"=~", "!~"} && IsPlain(word) && IsPlain(pattern)
    case Bin(k, op, l, r) => level <= k && IsOp(k, op) && Fits(k + 1, l) && Fits(RightLevel(k), r)
  }

  function OpWords(op: string): seq<string> {
    if op == "<=" then ["<", "="] else if op == ">=" then [">", "="] else [op]
  }

  function Print(t: Tree): seq<string> {
    match t
    case Lit(n) => [Putn(n)]
    case Prefix(op, t) => [op] + Print(t)
    case Group(t) => ["("] + Print(t) + [")"]
    case Ran(words) => ["{"] + words + ["}"]
    case Probe(c, name) => [['-', c], name]
    case Like(op, word, pattern) => [word, op, pattern]
    case Bin(k, op, l, r) => Print(l) + (OpWords(op) + Print(r))
  }

  datatype Meant<+W> = Val(n: int, world: W) | Err(error: Error, world: W)

  /**
    The value of an expression on ints: no decimal words, no flags, and a decided side is not
    there.  An operator has the value that it denotes on the integers.
   */
  ghost function Meaning<W>(env: Env<W>, t: Tree, w: W): Meant<W> {
    match t
    case Lit(n) => Val(n, w)
    case Prefix(op, t) => Prefixed(op, Meaning(env, t, w))
    case Group(t) => Meaning(env, t, w)
    case Ran(words) => Val(Truth(env.run(w, words).0), env.run(w, words).1)
    case Probe(c, name) => (
      match env.glob(w, name)
      case None => Err(NoMatch, w)
      case Some(file) => Val(Truth(env.test(w, c, file)), w)
    )
    case Like(op, word, pattern) => (
      match Matching.GMatch(word, pattern)
      case Said(yes) => Val(Truth(yes == (op == "=~")), w)
      case _ => Err(BadPattern, w)
    )
    case Bin(k, op, l, r) =>
      match Meaning(env, l, w)
      case Err(e, w1) => Err(e, w1)
      case Val(a, w1) =>
        if k == 0 && a != 0 then Val(1, w1)
        else if k == 1 && a == 0 then Val(0, w1)
        else Both(op, a, Meaning(env, r, w1))
  }

  ghost function Prefixed(op: string, m: Meant): Meant {
    match m
    case Err(e, w) => m
    case Val(n, w) =>
      if op == "!" then Val(if n == 0 then 1 else 0, w)
      else if exists k :: DenotesNot(n, k) then
        var k :| DenotesNot(n, k);
        Val(k, w)
      else Err(Expression, w)
  }

  ghost function Both(op: string, a: int, right: Meant): Meant {
    match right
    case Err(e, w) => right
    case Val(b, w) =>
      if op == "/" && b == 0 then Err(Div0, w)
      else if op == "%" && b == 0 then Err(Mod0, w)
      else if exists n :: Denotes(op, a, b, n) then
        var n :| Denotes(op, a, b, n);
        Val(n, w)
      else Err(Expression, w)
  }

  /** No operator of the level or above continues the expression. */
  ghost predicate Stops(level: nat, rest: seq<string>) {
    forall j :: level <= j < PRIMARY ==> OpAt(j, rest).None?
  }

  /** Globbing leaves the numerals and the words to match as they are. */
  ghost predicate GlobKeeps<W(!new)>(env: Env<W>, s: string) {
    forall w :: env.glob(w, s) == Some(s)
  }

  ghost predicate Unglobbed<W(!new)>(env: Env<W>, t: Tree) {
    match t
    case Lit(n) => GlobKeeps(env, Putn(n))
    case Prefix(_, t) => Unglobbed(env, t)
    case Group(t) => Unglobbed(env, t)
    case Like(_, word, _) => GlobKeeps(env, word)
    case Bin(_, _, l, r) => Unglobbed(env, l) && Unglobbed(env, r)
    case _ => true
  }

  function AsValue(level: nat, n: int): Value {
    if level <= EQUALITY then Num(n) else Word(Putn(n))
  }

  /** What the evaluator should answer: the meaning, or when ignored any value that reads as a number. */
  ghost predicate Right<W(!new)>(level: nat, m: Meant<W>, rest: seq<string>, ignore: bool, w: W, r: Outcome<W>) {
    if ignore then
      r.Ok? && r.rest == rest && r.world == w && (level > EQUALITY ==> r.value.Word? && Egetn(r.value.s).Good?)
    else match m
      case Val(n, w') => IsInt(n) && r == Ok(AsValue(level, n), rest, w')
      case Err(e, w') => r == Fail(e, w')
  }

  lemma EgetnOfPutn(n: int)
    requires IsInt(n)
    ensures Egetn(Putn(n)) == Good(n)
  {
    GetnOfPutn(n);
    assert IsDigit(PutDigits(if n < 0 then -n else n)[0]);
  }

  lemma NumeralIsPlain(n: int)
    requires IsInt(n)
    ensures IsPlain(Putn(n)) && Putn(n) != "="
  {
    var s := Putn(n);
    assert IsDigit(PutDigits(if n < 0 then -n else n)[0]);
    if n < 0 {
      assert s[0] == '-' && |s| > 1 && IsDigit(s[1]);
    }
  }

  lemma {:induction false} FirstWord(level: nat, t: Tree)
    requires level <= PRIMARY && Fits(level, t)
    ensures Print(t) != [] && (level > EQUALITY ==> Print(t)[0] != "=")
    decreases t
  {
    match t
    case Lit(n) => NumeralIsPlain(n);
    case Bin(k, op, l, r) => FirstWord(k + 1, l);
    case _ =>
  }

  /** A written operator is found at its level, and not above. */
  lemma OpParsed(level: nat, op: string, x: seq<string>)
    requires IsOp(level, op) || (level == EQUALITY && op in {"=~", "!~"})
    requires x != [] && (level == 6 ==> x[0] != "=")
    ensures var v := OpWords(op) + x;
            OpAt(level, v) == Some((op, |OpWords(op)|)) && v[|OpWords(op)|..] == x && Stops(level + 1, v)
  {
    var v := OpWords(op) + x;
    if level == 6 {
      assert v[0][..1] == v[0];
      assert "<" + "=" == "<=" && ">" + "=" == ">=";
    } else if level == 7 {
      assert v[0][..2] == op;
    }
  }

  /** Operands in decimal words are combined as the ints they stand for. */
  lemma CombineIsArith(level: nat, op: string, a: int, b: int)
    requires IsOp(level, op) && IsInt(a) && IsInt(b)
    ensures Combine(level, op, false, AsValue(level + 1, a), AsValue(RightLevel(level), b)) ==
            match Arith(op, a, b) { case Good(n) => Good(AsValue(level, n)) case Bad(e) => Bad(e) }
  {
    if level == EQUALITY {
      PutnInjective(a, b);
    } else if level > EQUALITY {
      EgetnOfPutn(a);
      EgetnOfPutn(b);
    }
  }

  /** The value that an operator denotes is the one that the code computes. */
  lemma BothIsArith<W>(level: nat, op: string, a: int, b: int, w: W)
    requires IsOp(level, op) && IsInt(a) && IsInt(b)
    ensures Both(op, a, Val(b, w)) == match Arith(op, a, b) { case Good(n) => Val(n, w) case Bad(e) => Err(e, w) }
  {
    ArithDenotes(op, a, b);
    if Arith(op, a, b).Good? {
      var m := Arith(op, a, b).value;
      assert Denotes(op, a, b, m);
      forall n | Denotes(op, a, b, n) ensures n == m {
        DenotesOnce(op, a, b, m, n);
      }
    }
  }

  /** Operands in decimal words are combined to what their operator denotes on the ints they stand for. */
  lemma CombineDenotes(level: nat, op: string, a: int, b: int)
    requires IsOp(level, op) && IsInt(a) && IsInt(b)
    ensures var r := Combine(level, op, false, AsValue(level + 1, a), AsValue(RightLevel(level), b));
            if op == "/" && b == 0 then r == Bad(Div0)
            else if op == "%" && b == 0 then r == Bad(Mod0)
            else exists n :: Denotes(op, a, b, n) && r == Good(AsValue(level, n))
  {
    CombineIsArith(level, op, a, b);
    ArithDenotes(op, a, b);
  }

  lemma PrefixedIs<W>(op: string, n: int, w: W)
    requires IsInt(n)
    ensures Prefixed(op, Val(n, w)) == Val(if op == "!" then Truth(n == 0) else -1 - n, w)
  {
    if op != "!" {
      NotFlips(n);
      assert DenotesNot(n, -1 - n);
      forall k | DenotesNot(n, k) ensures k == -1 - n {
        NotOnce(n, k, -1 - n);
      }
    }
  }

  /** Combining ignored operands cannot fail and again reads as a number. */
  lemma CombineIgnored(level: nat, op: string, p1: Value, p2: Value)
    requires IsOp(level, op)
    requires if level < EQUALITY then p1.Num? && p2.Num? && IsInt(p1.n) && IsInt(p2.n) else p1.Word? && p2.Word?
    requires level > EQUALITY ==> Egetn(p1.s).Good? && Egetn(p2.s).Good?
    ensures var r := Combine(level, op, true, p1, p2);
            r.Good? && (level > EQUALITY ==> Egetn(r.value.s).Good?)
  {
    if level == 7 {
      EgetnOfPutn(Arith(op, Egetn(p1.s).value, Egetn(p2.s).value).value);
    } else if level > EQUALITY {
      EgetnOfPutn(Ignored(op));
    }
  }

  lemma PassUp<W(!new)>(env: Env<W>, level: nat, v: seq<string>, rest: seq<string>, f: Flags, m: Meant<W>, w: W)
    requires level < PRIMARY && OpAt(level, rest).None?
    requires Right(level + 1, m, rest, f.ignore, w, Exp(env, level + 1, v, f, w))
    ensures Right(level, m, rest, f.ignore, w, Exp(env, level, v, f, w))
  {
    AtLevel(env, level, v, f, w);
    if level == EQUALITY && !f.ignore && m.Val? {
      EgetnOfPutn(m.n);
    }
  }

  /** The step of a binary operator, given that both operands came out right. */
  lemma JoinRight<W(!new)>(env: Env<W>, t: Tree, p1: Value, a: int, r2: Outcome<W>, rest: seq<string>, f: Flags,
                           w: W, w1: W)
    requires t.Bin? && IsOp(t.level, t.op)
    requires if t.level < EQUALITY then p1.Num? && IsInt(p1.n) else p1.Word?
    requires r2.Ok? ==> TypedAt(RightLevel(t.level), r2.value)
    requires if f.ignore then w1 == w && (t.level > EQUALITY ==> Egetn(p1.s).Good?)
             else Meaning(env, t.l, w) == Val(a, w1) && IsInt(a) && p1 == AsValue(t.level + 1, a)
    requires Right(RightLevel(t.level), Meaning(env, t.r, w1), rest, RightFlags(t.level, t.op, f, p1).ignore, w1, r2)
    ensures Right(t.level, Meaning(env, t, w), rest, f.ignore, w, Join(t.level, t.op, f.ignore, p1, r2))
  {
    if f.ignore {
      CombineIgnored(t.level, t.op, p1, r2.value);
    } else if Meaning(env, t.r, w1).Val? && !RightFlags(t.level, t.op, f, p1).ignore {
      var b := Meaning(env, t.r, w1);
      CombineIsArith(t.level, t.op, a, b.n);
      BothIsArith(t.level, t.op, a, b.n, b.world);
    }
  }

  lemma PrintBin(t: Tree, rest: seq<string>)
    requires t.Bin?
    ensures Print(t) + rest == Print(t.l) + (OpWords(t.op) + (Print(t.r) + rest))
  {
  }

  lemma {:induction false} BinRuns<W(!new)>(env: Env<W>, t: Tree, rest: seq<string>, f: Flags, w: W)
    requires t.Bin? && Fits(t.level, t) && Unglobbed(env, t) && Stops(t.level, rest)
    ensures Right(t.level, Meaning(env, t, w), rest, f.ignore, w, Exp(env, t.level, Print(t) + rest, f, w))
    decreases t, 0
  {
    var k, x := t.level, Print(t.r) + rest;
    var v := Print(t) + rest;
    FirstWord(RightLevel(k), t.r);
    OpParsed(k, t.op, x);
    PrintBin(t, rest);
    Runs(env, t.l, k + 1, OpWords(t.op) + x, f, w);
    var r1 := Exp(env, k + 1, v, f, w);
    if r1.Fail? {
      AtLevel(env, k, v, f, w);
    } else {
      AtOperator(env, k, v, f, w, r1.value, r1.rest, r1.world, t.op, |OpWords(t.op)|, x);
      var g := RightFlags(k, t.op, f, r1.value);
      Runs(env, t.r, RightLevel(k), rest, g, r1.world);
      var a := if f.ignore then 0 else Meaning(env, t.l, w).n;
      JoinRight(env, t, r1.value, a, Exp(env, RightLevel(k), x, g, r1.world), rest, f, w, r1.world);
    }
  }

  lemma PlainLeaf<W>(env: Env<W>, word: string, rest: seq<string>, f: Flags, w: W)
    requires IsPlain(word) && (f.noglob || env.glob(w, word) == Some(word))
    ensures Exp(env, PRIMARY, [word] + rest, f, w) == Ok(Word(word), rest, w)
  {
    assert ([word] + rest)[1..] == rest;
  }

  lemma WordAlone<W>(env: Env<W>, level: nat, v: seq<string>, word: string, rest: seq<string>, f: Flags, w: W)
    requires EQUALITY < level < PRIMARY && OpAt(level, rest).None?
    requires Exp(env, level + 1, v, f, w) == Ok(Word(word), rest, w)
    ensures Exp(env, level, v, f, w) == Ok(Word(word), rest, w)
  {
    AtLevel(env, level, v, f, w);
  }

  /** A plain word that globbing keeps comes through every level above the equality operators. */
  lemma {:induction false} PlainWord<W>(env: Env<W>, level: nat, word: string, rest: seq<string>, f: Flags, w: W)
    requires EQUALITY < level <= PRIMARY && IsPlain(word) && Stops(level, rest)
    requires f.noglob || env.glob(w, word) == Some(word)
    ensures Exp(env, level, [word] + rest, f, w) == Ok(Word(word), rest, w)
    decreases PRIMARY - level
  {
    if level < PRIMARY {
      PlainWord(env, level + 1, word, rest, f, w);
      WordAlone(env, level, [word] + rest, word, rest, f, w);
    } else {
      PlainLeaf(env, word, rest, f, w);
    }
  }

  lemma LikeRuns<W(!new)>(env: Env<W>, t: Tree, rest: seq<string>, f: Flags, w: W)
    requires t.Like? && Fits(EQUALITY, t) && Unglobbed(env, t) && Stops(EQUALITY, rest)
    ensures Right(EQUALITY, Meaning(env, t, w), rest, f.ignore, w, Exp(env, EQUALITY, Print(t) + rest, f, w))
  {
    var x := [t.pattern] + rest;
    OpParsed(EQUALITY, t.op, x);
    assert Print(t) + rest == [t.word] + (OpWords(t.op) + x);
    PlainWord(env, EQUALITY + 1, t.word, OpWords(t.op) + x, f, w);
    AtLevel(env, EQUALITY, Print(t) + rest, f, w);
    PlainWord(env, EQUALITY + 1, t.pattern, rest, f.(noglob := true), w);
  }

  lemma {:induction false} BraceFound(words: seq<string>, rest: seq<string>)
    requires "}" !in words
    ensures BraceEnd(words + ["}"] + rest) == Some(|words|)
  {
    if words != [] {
      BraceFound(words[1..], rest);
      assert (words + ["}"] + rest)[1..] == words[1..] + ["}"] + rest;
    }
  }

  lemma LitRuns<W(!new)>(env: Env<W>, t: Tree, rest: seq<string>, f: Flags, w: W)
    requires t.Lit? && Fits(PRIMARY, t) && Unglobbed(env, t)
    ensures Right(PRIMARY, Meaning(env, t, w), rest, f.ignore, w, Exp(env, PRIMARY, Print(t) + rest, f, w))
  {
    NumeralIsPlain(t.n);
    EgetnOfPutn(t.n);
    PlainLeaf(env, Putn(t.n), rest, f, w);
  }

  lemma RanRuns<W(!new)>(env: Env<W>, t: Tree, rest: seq<string>, f: Flags, w: W)
    requires t.Ran? && Fits(PRIMARY, t)
    ensures Right(PRIMARY, Meaning(env, t, w), rest, f.ignore, w, Exp(env, PRIMARY, Print(t) + rest, f, w))
  {
    var v, words := Print(t) + rest, t.words;
    BraceFound(words, rest);
    assert v[0] == "{" && v[1..] == words + ["}"] + rest;
    assert v[1..][..|words|] == words && v[1..][|words| + 1..] == rest;
  }

  lemma ProbeRuns<W(!new)>(env: Env<W>, t: Tree, rest: seq<string>, f: Flags, w: W)
    requires t.Probe? && Fits(PRIMARY, t)
    ensures Right(PRIMARY, Meaning(env, t, w), rest, f.ignore, w, Exp(env, PRIMARY, Print(t) + rest, f, w))
  {
    var v := Print(t) + rest;
    assert v[0] == ['-', t.c] && v[1] == t.name && v[2..] == rest;
  }

  /** The step of a prefix operator, given that its operand came out right. */
  lemma PrefixRight<W(!new)>(op: string, m: Meant<W>, r: Outcome<W>, rest: seq<string>, ignore: bool, w: W)
    requires Right(PRIMARY, m, rest, ignore, w, r) && (r.Ok? ==> r.value.Word?)
    ensures Right(PRIMARY, Prefixed(op, m), rest, ignore, w, Unary(op, r))
  {
    if r.Ok? {
      if !ignore {
        EgetnOfPutn(m.n);
        PrefixedIs(op, m.n, m.world);
      }
      var n := Egetn(r.value.s).value;
      EgetnOfPutn(if op == "!" then Truth(n == 0) else -1 - n);
    }
  }

  lemma {:induction false} PrefixRuns<W(!new)>(env: Env<W>, t: Tree, rest: seq<string>, f: Flags, w: W)
    requires t.Prefix? && Fits(PRIMARY, t) && Unglobbed(env, t) && Stops(PRIMARY, rest)
    ensures Right(PRIMARY, Meaning(env, t, w), rest, f.ignore, w, Exp(env, PRIMARY, Print(t) + rest, f, w))
    decreases t, 0
  {
    Runs(env, t.t, PRIMARY, rest, f, w);
    var v := Print(t) + rest;
    assert v[0] == t.op && v[1..] == Print(t.t) + rest;
    PrefixRight(t.op, Meaning(env, t.t, w), Exp(env, PRIMARY, v[1..], f, w), rest, f.ignore, w);
  }

  lemma {:induction false} GroupRuns<W(!new)>(env: Env<W>, t: Tree, rest: seq<string>, f: Flags, w: W)
    requires t.Group? && Fits(PRIMARY, t) && Unglobbed(env, t)
    ensures Right(PRIMARY, Meaning(env, t, w), rest, f.ignore, w, Exp(env, PRIMARY, Print(t) + rest, f, w))
    decreases t, 0
  {
    Runs(env, t.t, 0, [")"] + rest, f, w);
    var v := Print(t) + rest;
    assert v[1..] == Print(t.t) + ([")"] + rest);
    var r := Exp(env, 0, v[1..], f, w);
    if r.Ok? {
      EgetnOfPutn(r.value.n);
      assert ([")"] + rest)[1..] == rest;
    }
  }

  /**
    Every expression, written at any level with anything behind it that does not continue
    it, is evaluated to its meaning and consumed exactly; when ignored, it is consumed just
    the same and nothing happens.
   */
  lemma {:induction false} Runs<W(!new)>(env: Env<W>, t: Tree, level: nat, rest: seq<string>, f: Flags, w: W)
    requires level <= PRIMARY && Fits(level, t) && Unglobbed(env, t) && Stops(level, rest)
    ensures Right(level, Meaning(env, t, w), rest, f.ignore, w, Exp(env, level, Print(t) + rest, f, w))
    decreases t, PRIMARY + 1 - level
  {
    if t.Bin? && t.level == level {
      BinRuns(env, t, rest, f, w);
    } else if t.Like? && level == EQUALITY {
      LikeRuns(env, t, rest, f, w);
    } else if level < PRIMARY {
      Runs(env, t, level + 1, rest, f, w);
      PassUp(env, level, Print(t) + rest, rest, f, Meaning(env, t, w), w);
    } else if t.Prefix? {
      PrefixRuns(env, t, rest, f, w);
    } else if t.Group? {
      GroupRuns(env, t, rest, f, w);
    } else if t.Lit? {
      LitRuns(env, t, rest, f, w);
    } else if t.Ran? {
      RanRuns(env, t, rest, f, w);
    } else {
      ProbeRuns(env, t, rest, f, w);
    }
  }

  /** expr on exactly the words of an expression. */
  lemma ExprIsMeaning<W(!new)>(env: Env<W>, t: Tree, w: W)
    requires Fits(0, t) && Unglobbed(env, t)
    ensures match Meaning(env, t, w)
            case Val(n, w') => Exp(env, 0, Print(t), Flags(false, false), w) == Ok(Num(n), [], w')
            case Err(e, w') => Exp(env, 0, Print(t), Flags(false, false), w) == Fail(e, w')
  {
    assert Print(t) + [] == Print(t);
    Runs(env, t, 0, [], Flags(false, false), w);
  }

  // ----- Any expression can be written

  /** The operators of an expression are ones, and its words can stand where they do. */
  predicate WellFormed(t: Tree) {
    match t
    case Prefix(op, t) => op in {"!", "~"} && WellFormed(t)
    case Group(t) => WellFormed(t)
    case Like(op, word, pattern) => Fits(EQUALITY, t)
    case Bin(k, op, l, r) => k < PRIMARY && IsOp(k, op) && WellFormed(l) && WellFormed(r)
    case _ => Fits(PRIMARY, t)
  }

  /** The expression with parentheses where its operators need them at a level. */
  function Parens(level: nat, t: Tree): Tree
    decreases t
  {
    match t
    case Prefix(op, t) => Prefix(op, Parens(PRIMARY, t))
    case Group(t) => Group(Parens(0, t))
    case Like(_, _, _) => if level <= EQUALITY then t else Group(t)
    case Bin(k, op, l, r) =>
      var bin := Bin(k, op, Parens(k + 1, l), Parens(RightLevel(k), r));
      if level <= k then bin else Group(bin)
    case _ => t
  }

  lemma {:induction false} ParensFit(level: nat, t: Tree)
    requires level <= PRIMARY && WellFormed(t)
    ensures Fits(level, Parens(level, t))
    decreases t
  {
    match t
    case Prefix(op, t) => ParensFit(PRIMARY, t);
    case Group(t) => ParensFit(0, t);
    case Bin(k, op, l, r) =>
      ParensFit(k + 1, l);
      ParensFit(RightLevel(k), r);
    case _ =>
  }

  lemma {:induction false} ParensMean<W(!new)>(env: Env<W>, level: nat, t: Tree, w: W)
    ensures Meaning(env, Parens(level, t), w) == Meaning(env, t, w)
    ensures Unglobbed(env, t) ==> Unglobbed(env, Parens(level, t))
    decreases t
  {
    match t
    case Prefix(op, t) => ParensMean(env, PRIMARY, t, w);
    case Group(t) => ParensMean(env, 0, t, w);
    case Bin(k, op, l, r) =>
      ParensMean(env, k + 1, l, w);
      ParensMean(env, RightLevel(k), r, Meaning(env, l, w).world);
    case _ =>
  }

  /** Any expression, written with the parentheses it needs, is evaluated to its meaning. */
  lemma AnyExpression<W(!new)>(env: Env<W>, t: Tree, w: W)
    requires WellFormed(t) && Unglobbed(env, t)
    ensures var r := Exp(env, 0, Print(Parens(0, t)), Flags(false, false), w);
            match Meaning(env, t, w)
            case Val(n, w') => r == Ok(Num(n), [], w')
            case Err(e, w') => r == Fail(e, w')
  {
    ParensFit(0, t);
    ParensMean(env, 0, t, w);
    ExprIsMeaning(env, Parens(0, t), w);
  }

  /** The side that || or && has decided against adds nothing to the value or the world. */
  lemma DecidedSide<W>(env: Env<W>, level: nat, v: seq<string>, f: Flags, w: W)
    requires level <= 1 && !f.ignore
    ensures var a, r := Exp(env, level + 1, v, f, w), Exp(env, level, v, f, w);
            a.Ok? && OpAt(level, a.rest).Some? && (a.value.n != 0 <==> level == 0)
            ==> r.world == a.world && (r.Ok? ==> r.value == Num(Truth(level == 0)))
  {
    var a := Exp(env, level + 1, v, f, w);
    if a.Ok? && OpAt(level, a.rest).Some? && (a.value.n != 0 <==> level == 0) {
      var op := OpAt(level, a.rest).value.0;
      AtOperator(env, level, v, f, w, a.value, a.rest, a.world, op, 1, a.rest[1..]);
      IgnoredIsInert(env, env, level, a.rest[1..], Flags(true, false), a.world);
    }
  }

  /** A number is digits, with a minus sign or none, or no digit at all; the errors tell the other words apart. */
  lemma NumberWords(s: string)
    ensures Egetn(s).Good? <==> AllDigits(s) || (|s| > 1 && s[0] == '-' && AllDigits(s[1..]))
    ensures Egetn(s) == Bad(Expression) <==> s != "" && s[0] != '-' && !IsDigit(s[0])
    ensures AllDigits(s) ==> Egetn(s) == Good(Wrap(DigitsValue(s))) && Egetn("") == Good(0)
  {
    if s != "" && AllDigits(s) {
      assert IsDigit(s[0]);
    }
  }

  /** Where a value is ignored no operator can fail, but for a shift: that reads its operands all the same. */
  lemma IgnoredOperators(level: nat, op: string, a: string, b: string)
    requires EQUALITY <= level <= 9 && (level == 7 ==> op in {"<<", ">>"})
    ensures Combine(level, op, true, Word(a), Word(b)).Good? <==> level != 7 || (Egetn(a).Good? && Egetn(b).Good?)
  {
  }
}
