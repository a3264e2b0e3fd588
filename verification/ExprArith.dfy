/**
  What the operators of C shell expressions compute (usr/src/bin/csh/exp.c), in terms of the
  integers, their order and their 32 bits.
 */
module ExprArith {
  import opened Numbers
  import opened Expr

  // ----- Two's complement

  /** The same number to 32 bits. */
  predicate Same32(m: int, n: int) {
    (m - n) % TWO32 == 0
  }

  /** Bit i of an int. */
  predicate Bit(n: int, i: nat) {
    BitAt(n % TWO32, i)
  }

  lemma WrapIsSame(n: int)
    ensures Same32(Wrap(n), n)
  {
    var d := n - INT_MIN;
    assert d == TWO32 * (d / TWO32) + d % TWO32;
    assert Wrap(n) - n == TWO32 * (-(d / TWO32));
  }

  /** An int is determined by its 32 bits. */
  lemma SameInt(m: int, n: int)
    requires IsInt(m) && IsInt(n) && Same32(m, n)
    ensures m == n
  {
    var k := (m - n) / TWO32;
    assert m - n == TWO32 * k;
  }

  lemma Same32Chain(m: int, n: int, k: int)
    requires Same32(m, k) && Same32(n, k)
    ensures Same32(m, n)
  {
    var i, j := (m - k) / TWO32, (n - k) / TWO32;
    assert m - n == TWO32 * (i - j);
  }

  lemma SameResidue(m: int, n: int)
    requires m % TWO32 == n % TWO32
    ensures Same32(m, n)
  {
    var i, j := m / TWO32, n / TWO32;
    assert m - n == TWO32 * (i - j);
  }

  lemma {:induction false} SameBits(x: nat, y: nat, k: nat)
    requires x < Pow2(k) && y < Pow2(k) && forall i :: 0 <= i < k ==> BitAt(x, i) == BitAt(y, i)
    ensures x == y
    decreases k
  {
    if k > 0 {
      forall i | 0 <= i < k - 1 ensures BitAt(x / 2, i) == BitAt(y / 2, i) {
        assert BitAt(x, i + 1) == BitAt(y, i + 1);
      }
      SameBits(x / 2, y / 2, k - 1);
      assert BitAt(x, 0) == BitAt(y, 0);
    }
  }

  lemma BitsDecide(m: int, n: int)
    requires IsInt(m) && IsInt(n) && forall i :: 0 <= i < 32 ==> Bit(m, i) == Bit(n, i)
    ensures m == n
  {
    Pow2Of32();
    forall i | 0 <= i < 32 ensures BitAt(m % TWO32, i) == BitAt(n % TWO32, i) {
      assert Bit(m, i) == Bit(n, i);
    }
    SameBits(m % TWO32, n % TWO32, 32);
    SameResidue(m, n);
    SameInt(m, n);
  }

  lemma {:induction false} FlippedBits(x: nat, k: nat, i: nat)
    requires x < Pow2(k) && i < k
    ensures BitAt(Pow2(k) - 1 - x, i) == !BitAt(x, i)
    decreases k
  {
    var y := Pow2(k) - 1 - x;
    if i > 0 {
      assert y / 2 == Pow2(k - 1) - 1 - x / 2;
      FlippedBits(x / 2, k - 1, i - 1);
    }
  }

  // ----- What an operator means

  /** Doubled n times. */
  function Doubled(a: int, n: nat): int {
    if n == 0 then a else Doubled(a, n - 1) + Doubled(a, n - 1)
  }

  /** The largest number that doubled n times is no more than a. */
  predicate IsHalved(a: int, n: nat, r: int) {
    Doubled(r, n) <= a < Doubled(r + 1, n)
  }

  /** The quotient of C: what remains is less than the divisor, and has the sign of the dividend. */
  predicate IsQuotient(a: int, b: int, q: int) {
    var r := a - q * b;
    0 - Magnitude(b) < r < Magnitude(b) && (r < 0 ==> a < 0) && (r > 0 ==> a > 0)
  }

  ghost predicate DividesTo(a: int, b: int, n: int) {
    exists q :: IsQuotient(a, b, q) && Same32(n, q)
  }

  ghost predicate LeavesOver(a: int, b: int, n: int) {
    exists q :: IsQuotient(a, b, q) && Same32(n, a - q * b)
  }

  /** n is the value of an operator on a and b; shift counts are taken modulo 32. */
  ghost predicate Denotes(op: string, a: int, b: int, n: int) {
    && IsInt(n)
    && match op
       case "||" => n == if a != 0 || b != 0 then 1 else 0
       case "&&" => n == if a != 0 && b != 0 then 1 else 0
       case "|" => forall i :: 0 <= i < 32 ==> Bit(n, i) == (Bit(a, i) || Bit(b, i))
       case "^" => forall i :: 0 <= i < 32 ==> Bit(n, i) == (Bit(a, i) != Bit(b, i))
       case "&" => forall i :: 0 <= i < 32 ==> Bit(n, i) == (Bit(a, i) && Bit(b, i))
       case "==" => n == if a == b then 1 else 0
       case "!=" => n == if a == b then 0 else 1
       case "<" => n == if a < b then 1 else 0
       case ">" => n == if a > b then 1 else 0
       case "<=" => n == if a <= b then 1 else 0
       case ">=" => n == if a >= b then 1 else 0
       case "<<" => Same32(n, Doubled(a, b % 32))
       case ">>" => IsHalved(a, b % 32, n)
       case "+" => Same32(n, a + b)
       case "-" => Same32(n, a - b)
       case "*" => Same32(n, a * b)
       case "/" => b != 0 && DividesTo(a, b, n)
       case "%" => b != 0 && LeavesOver(a, b, n)
       case _ => false
  }

  /** m is ~n. */
  ghost predicate DenotesNot(n: int, m: int) {
    IsInt(m) && forall i :: 0 <= i < 32 ==> Bit(m, i) == !Bit(n, i)
  }

  // ----- There is one value

  lemma {:induction false} DoubledIs(a: int, n: nat)
    ensures Doubled(a, n) == a * Pow2(n)
  {
    if n > 0 {
      DoubledIs(a, n - 1);
    }
  }

  lemma Scaled(a: int, b: int, p: int)
    requires p > 0
    ensures a * p < b * p <==> a < b
  {
  }

  lemma HalvedOnce(a: int, n: nat, r: int, s: int)
    requires IsHalved(a, n, r) && IsHalved(a, n, s)
    ensures r == s
  {
    DoubledIs(r, n);
    DoubledIs(s, n);
    DoubledIs(r + 1, n);
    DoubledIs(s + 1, n);
    Scaled(r, s + 1, Pow2(n));
    Scaled(s, r + 1, Pow2(n));
  }

  lemma ProductOfMagnitudes(d: int, b: int)
    ensures Magnitude(d * b) == Magnitude(b) * Magnitude(d)
  {
    var m, n: int := Magnitude(d), Magnitude(b);
    if d < 0 && b < 0 {
      assert d * b == n * m;
    } else if d < 0 {
      assert d * b == -(n * m);
    } else if b < 0 {
      assert d * b == -(n * m);
    }
  }

  lemma Apart(d: int, b: int)
    requires d != 0
    ensures Magnitude(d * b) >= Magnitude(b)
  {
    ProductOfMagnitudes(d, b);
    Multiple(Magnitude(b), Magnitude(d));
  }

  lemma QuotientOnce(a: int, b: int, p: int, q: int)
    requires b != 0 && IsQuotient(a, b, p) && IsQuotient(a, b, q)
    ensures p == q
  {
    assert (a - q * b) - (a - p * b) == (p - q) * b;
    if p != q {
      Apart(p - q, b);
    }
  }

  lemma DenotesOnce(op: string, a: int, b: int, m: int, n: int)
    requires Denotes(op, a, b, m) && Denotes(op, a, b, n)
    ensures m == n
  {
    if op in {"|", "^", "&"} {
      BitsDecide(m, n);
    } else if op == ">>" {
      HalvedOnce(a, b % 32, m, n);
    } else if op == "/" {
      var p :| IsQuotient(a, b, p) && Same32(m, p);
      var q :| IsQuotient(a, b, q) && Same32(n, q);
      QuotientOnce(a, b, p, q);
      Same32Chain(m, n, p);
      SameInt(m, n);
    } else if op == "%" {
      var p :| IsQuotient(a, b, p) && Same32(m, a - p * b);
      var q :| IsQuotient(a, b, q) && Same32(n, a - q * b);
      QuotientOnce(a, b, p, q);
      Same32Chain(m, n, a - p * b);
      SameInt(m, n);
    } else if op in {"+", "-", "*", "<<"} {
      Same32Chain(m, n, match op case "+" => a + b case "-" => a - b case "*" => a * b case _ => Doubled(a, b % 32));
      SameInt(m, n);
    }
  }

  lemma NotOnce(n: int, m: int, k: int)
    requires DenotesNot(n, m) && DenotesNot(n, k)
    ensures m == k
  {
    BitsDecide(m, k);
  }

  // ----- And the code computes it

  lemma NotFlips(n: int)
    requires IsInt(n)
    ensures DenotesNot(n, -1 - n)
  {
    Pow2Of32();
    var x := n % TWO32;
    assert (-1 - n) % TWO32 == TWO32 - 1 - x by {
      assert -1 - n == TWO32 * (-(n / TWO32) - 1) + (TWO32 - 1 - x);
    }
    forall i | 0 <= i < 32 ensures Bit(-1 - n, i) == !Bit(n, i) {
      FlippedBits(x, 32, i);
    }
  }

  lemma FloorOf(a: int, p: int)
    requires p > 0
    ensures a / p * p <= a < (a / p + 1) * p
  {
  }

  lemma HalfIsInt(a: int, p: int)
    requires IsInt(a) && p > 0
    ensures IsInt(a / p)
  {
  }

  lemma ShiftsRight(a: int, b: int)
    requires IsInt(a)
    ensures Denotes(">>", a, b, Wrap(a / Pow2(b % 32)))
  {
    var k := b % 32;
    HalfIsInt(a, Pow2(k));
    var r := a / Pow2(k);
    FloorOf(a, Pow2(k));
    DoubledIs(r, k);
    DoubledIs(r + 1, k);
  }

  lemma MathQuotient(a: int, b: int) returns (q: int)
    requires b != 0
    ensures IsQuotient(a, b, q)
    ensures Quotient(a, b) == Wrap(q) && Remainder(a, b) == Wrap(a - q * b)
  {
    var m, r := Magnitude(a) / Magnitude(b), Magnitude(a) % Magnitude(b);
    assert m * Magnitude(b) + r == Magnitude(a);
    QuotientOfNats(Magnitude(a), Magnitude(b), m, r);
    Signs(a, b, m, r);
    q := if (a < 0) == (b < 0) then m else 0 - m;
  }

  lemma Divides(a: int, b: int)
    requires b != 0
    ensures Denotes("/", a, b, Quotient(a, b)) && Denotes("%", a, b, Remainder(a, b))
  {
    var q := MathQuotient(a, b);
    WrapIsSame(q);
    WrapIsSame(a - q * b);
  }

  lemma BitwiseDenotes(a: int, b: int)
    ensures Denotes("|", a, b, Bitwise((x, y) => x || y, a, b))
    ensures Denotes("^", a, b, Bitwise((x, y) => x != y, a, b))
    ensures Denotes("&", a, b, Bitwise((x, y) => x && y, a, b))
  {
    forall i | 0 <= i < 32
      ensures Bit(Bitwise((x, y) => x || y, a, b), i) == (Bit(a, i) || Bit(b, i))
      ensures Bit(Bitwise((x, y) => x != y, a, b), i) == (Bit(a, i) != Bit(b, i))
      ensures Bit(Bitwise((x, y) => x && y, a, b), i) == (Bit(a, i) && Bit(b, i))
    {
      BitwiseBits((x, y) => x || y, a, b, i);
      BitwiseBits((x, y) => x != y, a, b, i);
      BitwiseBits((x, y) => x && y, a, b, i);
    }
  }

  predicate IsBinary(op: string) {
    op in {"||", "&&", "|", "^", "&", "==", "!=", "<", ">", "<=", ">=", "<<", ">>", "+", "-", "*", "/", "%"}
  }

  /** Every operator on ints gives the one value that it denotes, and only a zero divisor has none. */
  lemma ArithDenotes(op: string, a: int, b: int)
    requires IsBinary(op) && IsInt(a) && IsInt(b)
    ensures var r := Arith(op, a, b);
            if op == "/" && b == 0 then r == Bad(Div0)
            else if op == "%" && b == 0 then r == Bad(Mod0)
            else r.Good? && Denotes(op, a, b, r.value)
  {
    WrapIsSame(a + b);
    WrapIsSame(a - b);
    WrapIsSame(a * b);
    if op in {"|", "^", "&"} {
      BitwiseDenotes(a, b);
    } else if op == "<<" {
      DoubledIs(a, b % 32);
      WrapIsSame(a * Pow2(b % 32));
    } else if op == ">>" {
      ShiftsRight(a, b);
    } else if op in {"/", "%"} && b != 0 {
      Divides(a, b);
    }
  }

  // ----- The laws of the operators

  /** Sums, differences and products are those of the integers where they are ints. */
  lemma NoOverflow(a: int, b: int)
    requires IsInt(a) && IsInt(b)
    ensures IsInt(a + b) ==> Arith("+", a, b) == Good(a + b)
    ensures IsInt(a - b) ==> Arith("-", a, b) == Good(a - b)
    ensures IsInt(a * b) ==> Arith("*", a, b) == Good(a * b)
  {
  }

  /** Otherwise they wrap around: the result is the int that agrees with the integer to 32 bits. */
  lemma WrapsAround(a: int, b: int)
    requires IsInt(a) && IsInt(b)
    ensures var s, d, p := Arith("+", a, b), Arith("-", a, b), Arith("*", a, b);
            && s.Good? && IsInt(s.value) && Same32(s.value, a + b)
            && d.Good? && IsInt(d.value) && Same32(d.value, a - b)
            && p.Good? && IsInt(p.value) && Same32(p.value, a * b)
  {
    ArithDenotes("+", a, b);
    ArithDenotes("-", a, b);
    ArithDenotes("*", a, b);
  }

  /** Subtraction undoes addition, even when that has wrapped around. */
  lemma MinusUndoesPlus(a: int, b: int)
    requires IsInt(a) && IsInt(b)
    ensures var s := Arith("+", a, b);
            s.Good? && Arith("-", s.value, b) == Good(a)
  {
    ArithDenotes("+", a, b);
    var s := Arith("+", a, b).value;
    ArithDenotes("-", s, b);
    var d := Arith("-", s, b).value;
    SameMinus(s, a, b);
    Same32Chain(d, a, s - b);
    SameInt(d, a);
  }

  lemma SameMinus(s: int, a: int, b: int)
    requires Same32(s, a + b)
    ensures Same32(a, s - b)
  {
    var k := (s - (a + b)) / TWO32;
    assert s - (a + b) == TWO32 * k;
    assert a - (s - b) == TWO32 * (-k);
  }

  /** The comparisons are those of the integers: exactly one of less, equal and greater holds. */
  lemma Compares(a: int, b: int)
    requires IsInt(a) && IsInt(b)
    ensures a < b ==> Arith("<", a, b) == Good(1) && Arith("==", a, b) == Good(0) && Arith(">", a, b) == Good(0)
    ensures a == b ==> Arith("<", a, b) == Good(0) && Arith("==", a, b) == Good(1) && Arith(">", a, b) == Good(0)
    ensures a > b ==> Arith("<", a, b) == Good(0) && Arith("==", a, b) == Good(0) && Arith(">", a, b) == Good(1)
    ensures Arith("<=", a, b) == Good(1 - Arith(">", a, b).value)
    ensures Arith(">=", a, b) == Good(1 - Arith("<", a, b).value)
    ensures Arith("!=", a, b) == Good(1 - Arith("==", a, b).value)
  {
  }

  lemma CountBelow(k: nat)
    requires k < 32
    ensures k % 32 == k
  {
  }

  lemma ShiftLeftSame(a: int, k: nat)
    requires IsInt(a) && k < 32
    ensures var r := Arith("<<", a, k);
            r.Good? && IsInt(r.value) && Same32(r.value, Doubled(a, k))
  {
    CountBelow(k);
    ArithDenotes("<<", a, k);
  }

  lemma SameTwice(x: int, d: int)
    requires Same32(x, d)
    ensures Same32(x + x, d + d)
  {
    var k := (x - d) / TWO32;
    assert x - d == TWO32 * k;
    assert (x + x) - (d + d) == TWO32 * (k + k);
  }

  lemma TwiceIs(x: int, d: int, y: int, z: int)
    requires IsInt(y) && IsInt(z) && Same32(x, d) && Same32(y, d + d) && Same32(z, x + x)
    ensures y == z
  {
    SameTwice(x, d);
    Same32Chain(x + x, y, d + d);
    Same32Back(x + x, y);
    Same32Chain(y, z, x + x);
    SameInt(y, z);
  }

  lemma Same32Back(m: int, n: int)
    requires Same32(m, n)
    ensures Same32(n, m)
  {
    var k := (m - n) / TWO32;
    assert m - n == TWO32 * k;
    assert n - m == TWO32 * (-k);
  }

  /** A shift to the left by one more place adds the result to itself. */
  lemma ShiftDoubles(a: int, k: nat)
    requires IsInt(a) && k < 31
    ensures Arith("<<", a, 0) == Good(a)
    ensures var x := Arith("<<", a, k);
            x.Good? && Arith("<<", a, k + 1) == Arith("+", x.value, x.value)
  {
    ShiftLeftSame(a, 0);
    SameInt(Arith("<<", a, 0).value, a);
    ShiftLeftSame(a, k);
    ShiftLeftSame(a, k + 1);
    var x := Arith("<<", a, k).value;
    WrapsAround(x, x);
    TwiceIs(x, Doubled(a, k), Arith("<<", a, k + 1).value, Arith("+", x, x).value);
  }

  /** A shift to the right undoes one to the left that has lost nothing. */
  lemma ShiftBack(a: int, k: nat)
    requires IsInt(a) && k < 32 && IsInt(Doubled(a, k))
    ensures Arith("<<", a, k) == Good(Doubled(a, k)) && Arith(">>", Doubled(a, k), k) == Good(a)
  {
    var d := Doubled(a, k);
    CountBelow(k);
    ShiftLeftIs(a, k, d);
    ShiftRightIs(d, k, a);
  }

  lemma ShiftLeftIs(a: int, k: nat, d: int)
    requires IsInt(a) && k % 32 == k && d == Doubled(a, k) && IsInt(d)
    ensures Arith("<<", a, k) == Good(d)
  {
    ArithDenotes("<<", a, k);
    SameInt(Arith("<<", a, k).value, d);
  }

  lemma ShiftRightIs(d: int, k: nat, a: int)
    requires IsInt(d) && k % 32 == k && d == Doubled(a, k)
    ensures Arith(">>", d, k) == Good(a)
  {
    ArithDenotes(">>", d, k);
    DoubledMore(a, k);
    HalvedOnce(d, k, Arith(">>", d, k).value, a);
  }

  /** Shift counts are taken modulo 32. */
  lemma ShiftCounts(a: int, k: nat)
    ensures Arith("<<", a, k + 32) == Arith("<<", a, k) && Arith(">>", a, k + 32) == Arith(">>", a, k)
  {
    assert (k + 32) % 32 == k % 32;
  }

  lemma {:induction false} DoubledMore(a: int, n: nat)
    ensures Doubled(a, n) < Doubled(a + 1, n)
  {
    if n > 0 {
      DoubledMore(a, n - 1);
    }
  }

  /** Division and remainder belong together, as in C, wherever the quotient is an int. */
  lemma DivisionLaws(a: int, b: int)
    requires IsInt(a) && IsInt(b) && b != 0 && !(a == INT_MIN && b == -1)
    ensures var q, r := Arith("/", a, b), Arith("%", a, b);
            && q.Good? && r.Good? && q.value * b + r.value == a && Magnitude(r.value) < Magnitude(b)
            && (r.value == 0 || (r.value < 0 <==> a < 0))
  {
    QuotientAndRemainder(a, b);
  }
}
