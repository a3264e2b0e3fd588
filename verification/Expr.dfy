/**
  The expression evaluator of the C shell (usr/src/bin/csh/exp.c).  The functions exp0 to
  exp5 of the source are one function here, indexed by precedence level; exp6 is level
  PRIMARY.  Files, commands and globbing are an environment over a world that only commands
  change.
 */
module Expr {
  import opened Numbers
  import Matching

  const PRIMARY: nat := 10
  const EQUALITY: nat := 5               // the level of exp2c: its operands are words, its result an int

  datatype Error = Expression | BadNumber | Div0 | Mod0 | MissingBrace | FileInquiry | FileName | NoMatch | BadPattern
  datatype Result<+T> = Good(value: T) | Bad(error: Error)
  datatype Value = Num(n: int) | Word(s: string)
  datatype Flags = Flags(ignore: bool, noglob: bool)
  datatype Outcome<+W> = Ok(value: Value, rest: seq<string>, world: W) | Fail(error: Error, world: W)

  datatype Env<!W> = Env(glob: (W, string) -> Option<string>, exists_: (W, string) -> bool,
                         test: (W, char, string) -> bool, run: (W, seq<string>) -> (bool, W))

  // ----- Arithmetic of a 32-bit int

  function BitsOf(f: (bool, bool) -> bool, a: nat, b: nat, n: nat): nat {
    if n == 0 then 0
    else BitsOf(f, a / 2, b / 2, n - 1) * 2 + (if f(a % 2 == 1, b % 2 == 1) then 1 else 0)
  }

  function Bitwise(f: (bool, bool) -> bool, a: int, b: int): int {
    Wrap(BitsOf(f, a % TWO32, b % TWO32, 32))
  }

  function Pow2(n: nat): (p: int)
    ensures p > 0
  {
    if n == 0 then 1 else 2 * Pow2(n - 1)
  }

  function Magnitude(a: int): nat {
    if a < 0 then -a else a
  }

  /** Division of C: the quotient is truncated toward zero. */
  function Quotient(a: int, b: int): int
    requires b != 0
  {
    var q := Magnitude(a) / Magnitude(b);
    Wrap(if (a < 0) == (b < 0) then q else -q)
  }

  function Remainder(a: int, b: int): int
    requires b != 0
  {
    var r := Magnitude(a) % Magnitude(b);
    Wrap(if a < 0 then -r else r)
  }

  lemma {:induction false} Multiple(q: nat, n: nat)
    requires n > 0
    ensures q <= q * n && (n > 1 ==> 2 * q <= q * n)
  {
    if q > 0 {
      Multiple(q - 1, n);
      assert q * n == (q - 1) * n + n;
    }
  }

  /** A quotient of magnitudes with its remainder, and the same with the signs of C. */
  lemma Signs(a: int, b: int, q: nat, r: nat)
    requires b != 0 && q * Magnitude(b) + r == Magnitude(a)
    ensures (if (a < 0) == (b < 0) then q else 0 - q) * b + (if a < 0 then 0 - r else r) == a
  {
    var n: int := Magnitude(b);
    if b < 0 {
      assert q * b == -(q * n);
    }
  }

  lemma NoWrap(a: int, b: int, q: nat, r: nat)
    requires IsInt(a) && IsInt(b) && b != 0 && !(a == INT_MIN && b == -1)
    requires q * Magnitude(b) + r == Magnitude(a)
    ensures IsInt(if (a < 0) == (b < 0) then q else 0 - q) && IsInt(if a < 0 then 0 - r else r)
  {
    Multiple(q, Magnitude(b));
  }

  lemma QuotientOfNats(m: nat, n: nat, q: int, r: int)
    requires 0 <= r < n && q * n + r == m
    ensures q >= 0
  {
  }

  /** The division laws of C, wherever the quotient is an int. */
  lemma QuotientAndRemainder(a: int, b: int)
    requires IsInt(a) && IsInt(b) && b != 0 && !(a == INT_MIN && b == -1)
    ensures var q, r := Quotient(a, b), Remainder(a, b);
            q * b + r == a && Magnitude(r) < Magnitude(b) && (r == 0 || (r < 0 <==> a < 0))
  {
    var q, r := Magnitude(a) / Magnitude(b), Magnitude(a) % Magnitude(b);
    assert q * Magnitude(b) + r == Magnitude(a);
    QuotientOfNats(Magnitude(a), Magnitude(b), q, r);
    NoWrap(a, b, q, r);
    Signs(a, b, q, r);
  }

  /** Bit i of a number. */
  predicate BitAt(x: nat, i: nat) {
    if i == 0 then x % 2 == 1 else BitAt(x / 2, i - 1)
  }

  lemma {:induction false} BitsOfBelow(f: (bool, bool) -> bool, a: nat, b: nat, n: nat)
    ensures BitsOf(f, a, b, n) < Pow2(n)
  {
    if n > 0 {
      BitsOfBelow(f, a / 2, b / 2, n - 1);
    }
  }

  lemma {:induction false} BitsOfBits(f: (bool, bool) -> bool, a: nat, b: nat, n: nat, i: nat)
    requires i < n
    ensures BitAt(BitsOf(f, a, b, n), i) == f(BitAt(a, i), BitAt(b, i))
  {
    if i > 0 {
      BitsOfBits(f, a / 2, b / 2, n - 1, i - 1);
    }
  }

  lemma {:induction false} Pow2Sum(m: nat, n: nat)
    ensures Pow2(m + n) == Pow2(m) * Pow2(n)
  {
    if m > 0 {
      Pow2Sum(m - 1, n);
    }
  }

  lemma Pow2Of32()
    ensures Pow2(32) == TWO32
  {
    assert Pow2(4) == 16;
    Pow2Sum(4, 4);
    Pow2Sum(8, 8);
    Pow2Sum(16, 16);
  }

  /** The operators on bits work bit by bit, on the two's complement of 32 bits. */
  lemma BitwiseBits(f: (bool, bool) -> bool, a: int, b: int, i: nat)
    requires i < 32
    ensures BitAt(Bitwise(f, a, b) % TWO32, i) == f(BitAt(a % TWO32, i), BitAt(b % TWO32, i))
  {
    var bits := BitsOf(f, a % TWO32, b % TWO32, 32);
    assert bits < TWO32 by {
      BitsOfBelow(f, a % TWO32, b % TWO32, 32);
      Pow2Of32();
    }
    WrapKeepsBits(bits);
    BitsOfBits(f, a % TWO32, b % TWO32, 32, i);
  }

  lemma WrapKeepsBits(n: nat)
    requires n < TWO32
    ensures Wrap(n) % TWO32 == n
  {
  }

  function Truth(b: bool): int {
    if b then 1 else 0
  }

  /** The value of a binary operator on ints that its operands do not short-circuit. */
  function Arith(op: string, a: int, b: int): (r: Result<int>)
    ensures r.Good? && IsInt(a) && IsInt(b) ==> IsInt(r.value)
    ensures r == Bad(Div0) <==> op == "/" && b == 0
    ensures r == Bad(Mod0) <==> op == "%" && b == 0
  {
    match op
    case "||" => Good(Truth(a != 0 || b != 0))
    case "&&" => Good(Truth(a != 0 && b != 0))
    case "|" => Good(Bitwise((x, y) => x || y, a, b))
    case "^" => Good(Bitwise((x, y) => x != y, a, b))
    case "&" => Good(Bitwise((x, y) => x && y, a, b))
    case "==" => Good(Truth(a == b))
    case "!=" => Good(Truth(a != b))
    case "<" => Good(Truth(a < b))
    case ">" => Good(Truth(a > b))
    case "<=" => Good(Truth(a <= b))
    case ">=" => Good(Truth(a >= b))
    case "<<" => Good(Wrap(a * Pow2(b % 32)))
    case ">>" => Good(Wrap(a / Pow2(b % 32)))
    case "+" => Good(Wrap(a + b))
    case "-" => Good(Wrap(a - b))
    case "*" => Good(Wrap(a * b))
    case "/" => if b == 0 then Bad(Div0) else Good(Quotient(a, b))
    case "%" => if b == 0 then Bad(Mod0) else Good(Remainder(a, b))
    case _ => Bad(Expression)
  }

  // ----- Words

  /** isa(cp, ANYOP) of a word. */
  predicate IsAnyOp(s: string) {
    || s in {"+", "-", "*", "/", "%", "(", ")", "!", "~", "^", "\""}
    || s in {"|&", "<<", ">>", "==", "=~", "!=", "!~"}
    || (s != "" && (s[0] == '<' || s[0] == '>'))
  }

  /** egetn. */
  function Egetn(s: string): (r: Result<int>)
    ensures r.Good? ==> IsInt(r.value)
  {
    if s != "" && s[0] != '-' && !IsDigit(s[0]) then Bad(Expression)
    else match Getn(s)
      case Some(n) => Good(n)
      case None => Bad(BadNumber)
  }

  /** The operator of a level that a word list starts with, and how many words it takes. */
  function OpAt(level: nat, v: seq<string>): (r: Option<(string, nat)>)
    ensures r.Some? ==> 1 <= r.value.1 <= |v|
  {
    if v == [] then None
    else match level
      case 0 => if v[0] == "||" then Some(("||", 1)) else None
      case 1 => if v[0] == "&&" then Some(("&&", 1)) else None
      case 2 => if v[0] == "|" then Some(("|", 1)) else None
      case 3 => if v[0] == "^" then Some(("^", 1)) else None
      case 4 => if v[0] == "&" then Some(("&", 1)) else None
      case 5 => if v[0] in {"==", "!=", "=~", "!~"} then Some((v[0], 1)) else None
      case 6 =>
        if v[0] != "" && (v[0][0] == '<' || v[0][0] == '>') then
          if |v| > 1 && v[1] == "=" then Some((v[0][..1] + "=", 2)) else Some((v[0][..1], 1))
        else None
      case 7 =>
        if |v[0]| > 1 && v[0][0] == v[0][1] && (v[0][0] == '<' || v[0][0] == '>') then Some((v[0][..2], 1)) else None
      case 8 => if v[0] in {"+", "-"} then Some((v[0], 1)) else None
      case 9 => if v[0] in {"*", "/", "%"} then Some((v[0], 1)) else None
      case _ => None
  }

  // ----- Evaluation

  predicate TypedAt(level: nat, value: Value) {
    if level <= EQUALITY then value.Num? && IsInt(value.n) else value.Word?
  }

  /** The level of the operand to the right of an operator. */
  function RightLevel(level: nat): nat {
    if level == EQUALITY then EQUALITY + 1 else level
  }

  /** The flags under which the right operand is evaluated. */
  function RightFlags(level: nat, op: string, f: Flags, p1: Value): Flags
    requires TypedAt(level + 1, p1) || level == EQUALITY
    requires level < EQUALITY ==> p1.Num?
  {
    if level == 0 then Flags(f.ignore || p1.n != 0, false)
    else if level == 1 then Flags(f.ignore || p1.n == 0, false)
    else if level == EQUALITY && op in {"=~", "!~"} then f.(noglob := true)
    else f
  }

  /** What an operator leaves behind when its value is ignored. */
  function Ignored(op: string): int {
    match op
    case "==" => 1
    case "!=" => 6
    case "=~" => 7
    case "!~" => 8
    case ">" => 2
    case ">=" => 3
    case "<" => 4
    case "<=" => 5
    case _ => 0
  }

  function OnNumbers(op: string, p1: string, p2: string): Result<Value> {
    match (Egetn(p1), Egetn(p2))
    case (_, Bad(e)) => Bad(e)
    case (Bad(e), Good(b)) =>
      if b == 0 && op == "/" then Bad(Div0) else if b == 0 && op == "%" then Bad(Mod0) else Bad(e)
    case (Good(a), Good(b)) =>
      match Arith(op, a, b)
      case Good(n) => Good(Word(Putn(n)))
      case Bad(e) => Bad(e)
  }

  function Combine(level: nat, op: string, ignore: bool, p1: Value, p2: Value): (r: Result<Value>)
    requires if level < EQUALITY then p1.Num? && p2.Num? && IsInt(p1.n) && IsInt(p2.n) else p1.Word? && p2.Word?
    ensures r.Good? ==> TypedAt(level, r.value)
  {
    if level < EQUALITY then
      match Arith(op, p1.n, p2.n)
      case Good(n) => Good(Num(n))
      case Bad(e) => Bad(e)
    else if ignore && level != 7 then
      if level == EQUALITY then Good(Num(Ignored(op))) else Good(Word(Putn(Ignored(op))))
    else if level == EQUALITY then
      if op in {"=~", "!~"} then
        match Matching.GMatch(p1.s, p2.s)
        case Said(yes) => Good(Num(Truth(yes == (op == "=~"))))
        case _ => Bad(BadPattern)
      else Good(Num(Truth((p1.s == p2.s) == (op == "=="))))
    else OnNumbers(op, p1.s, p2.s)
  }

  /** The words before the closing brace. */
  function BraceEnd(v: seq<string>): (r: Option<nat>)
    ensures r.Some? ==> r.value < |v|
  {
    if v == [] then None
    else if v[0] == "}" then Some(0)
    else match BraceEnd(v[1..])
      case Some(n) => Some(n + 1)
      case None => None
  }

  function Unary(op: string, r: Outcome): (r': Outcome)
    requires r.Ok? ==> r.value.Word?
    ensures r'.Ok? ==> r.Ok? && r'.rest == r.rest && r'.value.Word?
  {
    match r
    case Fail(e, w) => r
    case Ok(p, rest, w) =>
      match Egetn(p.s)
      case Bad(e) => Fail(e, w)
      case Good(n) => Ok(Word(Putn(if op == "!" then Truth(n == 0) else -1 - n)), rest, w)
  }

  predicate IsInquiry(s: string) {
    |s| > 1 && s[0] == '-' && s[1] in "erwxfdzopls"
  }

  /** A file inquiry such as -e name; v starts at the inquiry. */
  function Inquire<W>(env: Env<W>, v: seq<string>, f: Flags, w: W): (r: Outcome<W>)
    requires v != [] && IsInquiry(v[0])
    ensures r.Ok? ==> |v| >= 2 && r.rest == v[2..] && r.value.Word?
  {
    if |v[0]| > 2 then Fail(FileInquiry, w)
    else if |v| == 1 || (IsAnyOp(v[1]) && !env.exists_(w, v[1])) then Fail(FileName, w)
    else if f.ignore then Ok(Word(""), v[2..], w)
    else match env.glob(w, v[1])
      case None => Fail(NoMatch, w)
      case Some(ep) => Ok(Word(Putn(Truth(env.test(w, v[0][1], ep)))), v[2..], w)
  }

  /** The command between braces; v starts behind the opening brace. */
  function Command<W>(env: Env<W>, v: seq<string>, f: Flags, w: W): (r: Outcome<W>)
    ensures r.Ok? ==> |r.rest| < |v| && r.value.Word?
  {
    match BraceEnd(v)
    case None => Fail(MissingBrace, w)
    case Some(n) =>
      if f.ignore then Ok(Word(""), v[n + 1..], w)
      else
        var (ok, w') := env.run(w, v[..n]);
        Ok(Word(Putn(Truth(ok))), v[n + 1..], w')
  }

  /** The closing parenthesis after an expression; only its first character is looked at. */
  function Close(r: Outcome): (r': Outcome)
    requires r.Ok? ==> r.value.Num?
    ensures r'.world == r.world
    ensures r'.Ok? ==> r.Ok? && r.rest != [] && r'.rest == r.rest[1..] && r'.value == Word(Putn(r.value.n))
    ensures r'.Fail? ==> if r.Fail? then r' == r else r'.error == Expression
  {
    match r
    case Fail(e, w) => r
    case Ok(p, rest, w) =>
      if rest == [] || rest[0] == "" || rest[0][0] != ')' then Fail(Expression, w)
      else Ok(Word(Putn(p.n)), rest[1..], w)
  }

  /** An operand that no operator of its level follows. */
  function Alone(level: nat, r: Outcome): (r': Outcome)
    requires r.Ok? ==> if level < EQUALITY then r.value.Num? && IsInt(r.value.n) else r.value.Word?
    ensures r'.world == r.world
    ensures r'.Ok? ==> r.Ok? && r'.rest == r.rest && TypedAt(level, r'.value)
    ensures r.Fail? || level != EQUALITY ==> r' == r
  {
    if r.Fail? || level != EQUALITY then r
    else match Egetn(r.value.s)
      case Bad(e) => Fail(e, r.world)
      case Good(n) => Ok(Num(n), r.rest, r.world)
  }

  /** An operator between an operand and what evaluating the other one gave. */
  function Join(level: nat, op: string, ignore: bool, p1: Value, r: Outcome): (r': Outcome)
    requires if level < EQUALITY then p1.Num? && IsInt(p1.n) else p1.Word?
    requires r.Ok? ==> if level < EQUALITY then r.value.Num? && IsInt(r.value.n) else r.value.Word?
    ensures r'.world == r.world
    ensures r'.Ok? ==> r.Ok? && r'.rest == r.rest && TypedAt(level, r'.value)
    ensures r.Fail? ==> r' == r
  {
    if r.Fail? then r
    else match Combine(level, op, ignore, p1, r.value)
      case Bad(e) => Fail(e, r.world)
      case Good(p) => Ok(p, r.rest, r.world)
  }

  /** The cases of exp6 that evaluate no expression inside. */
  function Leaf<W>(env: Env<W>, v: seq<string>, f: Flags, w: W): (r: Outcome<W>)
    ensures r.Ok? ==> |r.rest| <= |v| && r.value.Word?
  {
    if v == [] then Fail(Expression, w)
    else if v[0] == "{" then Command(env, v[1..], f, w)
    else if IsAnyOp(v[0]) then Ok(Word(""), v, w)
    else if IsInquiry(v[0]) then Inquire(env, v, f, w)
    else if f.noglob then Ok(Word(v[0]), v[1..], w)
    else match env.glob(w, v[0])
      case None => Fail(NoMatch, w)
      case Some(s) => Ok(Word(s), v[1..], w)
  }

  /** exp0 to exp5 by level, and exp6. */
  function Exp<W>(env: Env<W>, level: nat, v: seq<string>, f: Flags, w: W): (r: Outcome<W>)
    requires level <= PRIMARY
    ensures r.Ok? ==> |r.rest| <= |v| && TypedAt(level, r.value)
    decreases |v|, PRIMARY - level
  {
    if level == PRIMARY then
      if v != [] && v[0] in {"!", "~"} then Unary(v[0], Exp(env, PRIMARY, v[1..], f, w))
      else if v != [] && v[0] == "(" then Close(Exp(env, 0, v[1..], f, w))
      else Leaf(env, v, f, w)
    else
      var r := Exp(env, level + 1, v, f, w);
      if r.Fail? || OpAt(level, r.rest).None? then Alone(level, r)
      else
        var (op, len) := OpAt(level, r.rest).value;
        Join(level, op, f.ignore, r.value,
             Exp(env, RightLevel(level), r.rest[len..], RightFlags(level, op, f, r.value), r.world))
  }
}
