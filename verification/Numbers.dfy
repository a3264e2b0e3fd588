/** Numbers as words: putn and getn of the C shell (usr/src/bin/csh/set.c). */
module Numbers {
  datatype Option<+T> = None | Some(value: T)

  const TWO32: int := 0x1_0000_0000
  const INT_MIN: int := -0x8000_0000
  const INT_MAX: int := 0x7fff_ffff

  predicate IsInt(n: int) {
    INT_MIN <= n <= INT_MAX
  }

  /** The 32-bit int that arithmetic leaves of a mathematical integer. */
  function Wrap(n: int): (r: int)
    ensures IsInt(r) && (IsInt(n) ==> r == n)
  {
    (n - INT_MIN) % TWO32 + INT_MIN
  }

  predicate IsDigit(c: char) {
    '0' <= c <= '9'
  }

  predicate AllDigits(s: string) {
    forall i :: 0 <= i < |s| ==> IsDigit(s[i])
  }

  function DigitsValue(s: string): nat
    requires AllDigits(s)
  {
    if s == "" then 0
    else DigitsValue(s[..|s| - 1]) * 10 + (s[|s| - 1] as int - '0' as int)
  }

  /** putn1: the decimal digits of n. */
  function PutDigits(n: nat): (s: string)
    ensures s != "" && AllDigits(s)
  {
    (if n > 9 then PutDigits(n / 10) else "") + [(n % 10 + '0' as int) as char]
  }

  function Putn(n: int): string {
    if n < 0 then "-" + PutDigits(-n) else PutDigits(n)
  }

  /** getn: an optional sign and digits; None is the error "Badly formed number". */
  function Getn(s: string): Option<int> {
    var cp := if |s| > 1 && s[0] == '+' then s[1..] else s;
    if cp != "" && cp[0] == '-' then
      if |cp| > 1 && AllDigits(cp[1..]) then Some(Wrap(0 - DigitsValue(cp[1..]))) else None
    else if AllDigits(cp) then Some(Wrap(DigitsValue(cp))) else None
  }

  lemma {:induction false} DigitsRoundTrip(n: nat)
    ensures DigitsValue(PutDigits(n)) == n
  {
    var s := PutDigits(n);
    if n > 9 {
      DigitsRoundTrip(n / 10);
      assert s[..|s| - 1] == PutDigits(n / 10);
    }
  }

  /** Reading back a printed int gives that int, over the whole 32-bit range. */
  lemma GetnOfPutn(n: int)
    requires IsInt(n)
    ensures Getn(Putn(n)) == Some(n)
  {
    DigitsRoundTrip(if n < 0 then -n else n);
    assert IsDigit(PutDigits(if n < 0 then -n else n)[0]);
    if n < 0 {
      assert Putn(n)[1..] == PutDigits(-n);
    }
  }

  /** Different ints print differently. */
  lemma PutnInjective(m: int, n: int)
    requires IsInt(m) && IsInt(n)
    ensures Putn(m) == Putn(n) <==> m == n
  {
    GetnOfPutn(m);
    GetnOfPutn(n);
  }

  /** Numbers are decimal: one more digit is ten times as much, and the digit. */
  lemma Decimal(n: nat, d: nat)
    requires d < 10
    ensures Putn(10) == "10"
    ensures n > 0 ==> PutDigits(10 * n + d) == PutDigits(n) + PutDigits(d)
  {
    assert PutDigits(1) == "1" && PutDigits(0) == "0";
    assert (10 * n + d) / 10 == n && (10 * n + d) % 10 == d;
  }
}
