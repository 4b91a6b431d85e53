/**
  The integer and character arithmetic of the interpreter, as C# performs it.

  A C# `int` is a 32-bit two's-complement integer. Its `+`, `-` and `*` wrap
  around (the default unchecked context), its `/` and `%` truncate toward zero,
  and a cast to `char` keeps the low 16 bits. A `char` is a UTF-16 code unit.
  Dafny's integers are unbounded and its `/` and `%` are Euclidean, so every one
  of these rules is written out here.
 */
module CSharpInt {

  const MinInt32: int := -0x8000_0000
  const MaxInt32: int := 0x7FFF_FFFF

  /** The values of a C# `int`. */
  type Int32 = x: int | -0x8000_0000 <= x < 0x8000_0000

  /** The values of a C# `char`: one UTF-16 code unit. */
  type CodeUnit = c: int | 0 <= c < 0x1_0000

  /** The code unit of a character literal of the Basic Multilingual Plane. */
  function Code(c: char): CodeUnit
    requires c as int < 0x1_0000
  {
    c as int
  }

  /** Reduction of an exact result to 32 bits, as unchecked `+`, `-` and `*` do. */
  function Wrap(x: int): (r: Int32)
    ensures (r - x) % 0x1_0000_0000 == 0
    ensures MinInt32 <= x <= MaxInt32 ==> r == x
  {
    (x + 0x8000_0000) % 0x1_0000_0000 - 0x8000_0000
  }

  /** `(char)v` on an `int`: the low 16 bits of the two's-complement value. */
  function ToCodeUnit(v: int): (c: CodeUnit)
    ensures (c - v) % 0x1_0000 == 0
    ensures 0 <= v < 0x1_0000 ==> c == v
  {
    v % 0x1_0000
  }

  function Abs(x: int): nat
  {
    if x < 0 then -x else x
  }

  /** C#'s `b / a`: the quotient rounded toward zero. */
  function Quot(b: int, a: int): int
    requires a != 0
  {
    var m := Abs(b) / Abs(a);
    if (b < 0) == (a < 0) then m else -m
  }

  /** C#'s `b % a`: the remainder that goes with `Quot`, with the sign of `b`. */
  function Rem(b: int, a: int): int
    requires a != 0
  {
    var m := Abs(b) % Abs(a);
    if b < 0 then -m else m
  }

  /** Euclidean division of naturals, the step both truncating operations use. */
  lemma NatDivision(n: nat, d: nat)
    requires d > 0
    ensures n == d * (n / d) + n % d && 0 <= n % d < d
    ensures d * (n / d) <= n && n / d <= n
    ensures d >= 2 ==> 2 * (n / d) <= n
  {
    var q, k := n / d, n % d;
    assert n == d * q + k && 0 <= k < d;
    assert 0 <= q;
    assert d * q <= n;
    assert q <= d * q;
    if d >= 2 {
      assert d * q == 2 * q + (d - 2) * q;
      assert 0 <= (d - 2) * q;
    }
  }

  lemma NegateProduct(x: int, y: int)
    ensures (-x) * y == -(x * y) && x * (-y) == -(x * y) && (-x) * (-y) == x * y
  {
  }

  /** Truncating division and remainder satisfy the division identity, the
      remainder is smaller than the divisor and takes the dividend's sign, and
      the quotient never overshoots the dividend (it rounds toward zero). */
  lemma QuotRem(b: int, a: int)
    requires a != 0
    ensures b == a * Quot(b, a) + Rem(b, a)
    ensures Abs(Rem(b, a)) < Abs(a)
    ensures Rem(b, a) == 0 || (Rem(b, a) < 0 <==> b < 0)
    ensures Abs(a) * Abs(Quot(b, a)) <= Abs(b)
  {
    QuotTowardZero(b, a);
    var m, k := Abs(b) / Abs(a), Abs(b) % Abs(a);
    NatDivision(Abs(b), Abs(a));
    assert Abs(b) == Abs(a) * m + k;
    if b < 0 && a < 0 {
      assert Quot(b, a) == m && Rem(b, a) == -k;
      NegateProduct(Abs(a), m);
      assert a * m == -(Abs(a) * m);
    } else if b < 0 {
      assert Quot(b, a) == -m && Rem(b, a) == -k;
      NegateProduct(a, m);
      assert a * (-m) == -(Abs(a) * m);
    } else if a < 0 {
      assert Quot(b, a) == -m && Rem(b, a) == k;
      NegateProduct(Abs(a), m);
      assert a * (-m) == Abs(a) * m;
    } else {
      assert Quot(b, a) == m && Rem(b, a) == k;
    }
  }

  lemma QuotTowardZero(b: int, a: int)
    requires a != 0
    ensures Abs(a) * Abs(Quot(b, a)) <= Abs(b)
  {
    var A, B := Abs(a), Abs(b);
    var m := B / A;
    NatDivision(B, A);
    assert Abs(Quot(b, a)) == m;
    calc {
      Abs(a) * Abs(Quot(b, a));
      A * m;
    <= B;
    }
  }

  /** The one 32-bit quotient that does not fit in 32 bits is
      `int.MinValue / -1`; every other quotient and every remainder does. */
  lemma QuotInRange(b: Int32, a: Int32)
    requires a != 0
    ensures !(b == MinInt32 && a == -1) ==> MinInt32 <= Quot(b, a) <= MaxInt32
    ensures b == MinInt32 && a == -1 ==> Quot(b, a) == MaxInt32 + 1
    ensures MinInt32 <= Rem(b, a) <= MaxInt32
  {
    NatDivision(Abs(b), Abs(a));
  }

  // ---------------------------------------------------------------------
  // Decimal text of an `int`, as `StringBuilder.Append(int)` writes it.

  const Minus: CodeUnit := '-' as int
  const Zero: CodeUnit := '0' as int

  predicate IsDigit(c: CodeUnit)
  {
    Zero <= c < Zero + 10
  }

  /** The decimal digits of `n`, most significant first, without leading zeros. */
  function Digits(n: nat): (s: seq<CodeUnit>)
    ensures |s| >= 1
    ensures forall i :: 0 <= i < |s| ==> IsDigit(s[i])
    ensures s[0] == Zero ==> n == 0
    decreases n
  {
    if n < 10 then [Zero + n] else Digits(n / 10) + [Zero + n % 10]
  }

  /** The text `.` appends for the popped value: a minus sign for a negative
      value, then the digits of its magnitude. */
  function Decimal(n: int): seq<CodeUnit>
  {
    if n < 0 then [Minus] + Digits(-n) else Digits(n)
  }

  /** The value of a digit string, read most significant digit first. */
  function DigitsValue(s: seq<CodeUnit>): nat
    requires forall i :: 0 <= i < |s| ==> IsDigit(s[i])
  {
    if s == [] then 0
    else
      assert IsDigit(s[|s| - 1]);
      10 * DigitsValue(s[..|s| - 1]) + (s[|s| - 1] - Zero)
  }

  /** Reading decimal text back: the inverse that `Decimal` is proved against. */
  function ParseDecimal(s: seq<CodeUnit>): (n: int)
    requires forall i :: 0 <= i < |s| ==> IsDigit(s[i]) || (i == 0 && s[i] == Minus)
  {
    if s != [] && s[0] == Minus then 0 - DigitsValue(s[1..]) else DigitsValue(s)
  }

  lemma {:induction false} DigitsRoundTrip(n: nat)
    ensures DigitsValue(Digits(n)) == n
    decreases n
  {
    if n >= 10 {
      DigitsRoundTrip(n / 10);
      var s := Digits(n);
      assert s[..|s| - 1] == Digits(n / 10);
    }
  }

  /** `Decimal` loses nothing: the text it writes reads back as the same
      number, and it begins with a digit or a minus sign followed by digits. */
  lemma DecimalRoundTrip(n: int)
    ensures var s := Decimal(n);
      (forall i :: 0 <= i < |s| ==> IsDigit(s[i]) || (i == 0 && s[i] == Minus)) &&
      ParseDecimal(s) == n
    ensures Decimal(n)[0] == Minus <==> n < 0
  {
    var s := Decimal(n);
    if n < 0 {
      DigitsRoundTrip(-n);
      assert s[1..] == Digits(-n);
    } else {
      DigitsRoundTrip(n);
    }
  }
}
