/** 32-bit signed integers as the C code sees them: the range, C's truncating
    division, and the two conversions the readers perform (strtol's clamp to a
    64-bit long and the implicit narrowing of a long to int32_t). */
module Int32Arith {

  const INT32_MIN: int := -0x8000_0000
  const INT32_MAX: int := 0x7fff_ffff
  const LONG_MIN: int := -0x8000_0000_0000_0000
  const LONG_MAX: int := 0x7fff_ffff_ffff_ffff

  predicate InInt32(x: int) {
    INT32_MIN <= x <= INT32_MAX
  }

  type Int32 = x: int | InInt32(x)

  function Abs(x: int): nat {
    if x < 0 then -x else x
  }

  /** C's `/` on ints: the quotient rounded toward zero (Dafny's `/` is Euclidean). */
  function TruncDiv(a: int, b: int): (q: int)
    requires b != 0
    ensures Abs(q) == Abs(a) / Abs(b)
    ensures q != 0 ==> ((q < 0) <==> ((a < 0) != (b < 0)))
  {
    var m: int := NatDiv(Abs(a), Abs(b));
    if (a < 0) == (b < 0) then m else -m
  }

  /** Division of naturals, with the facts about it the proofs below need. */
  function NatDiv(x: nat, y: nat): (m: nat)
    requires y > 0
    ensures m == x / y
    ensures m * y <= x < m * y + y
  {
    x / y
  }

  /** The remainder left by truncating division is smaller than the divisor and
      carries the sign of the dividend, which is what pins the quotient down. */
  lemma TruncDivRemainder(a: int, b: int)
    requires b != 0
    ensures var r := a - TruncDiv(a, b) * b;
            Abs(r) < Abs(b) && (r == 0 || ((r < 0) <==> (a < 0)))
  {
    var m := NatDiv(Abs(a), Abs(b));
    var k := Abs(a) - m * Abs(b);
    assert 0 <= k < Abs(b);
    var q := TruncDiv(a, b);
    if a >= 0 && b > 0 {
      assert q == m && a - q * b == k;
    } else if a >= 0 && b < 0 {
      assert q == -m && Abs(b) == -b;
      assert a - q * b == a + m * b == a - m * Abs(b) == k;
    } else if a < 0 && b > 0 {
      assert q == -m && Abs(a) == -a;
      assert a - q * b == a + m * b == -(m * b + k) + m * b == -k;
    } else {
      assert q == m && Abs(a) == -a && Abs(b) == -b;
      assert a - q * b == a - m * b == -(m * Abs(b) + k) + m * Abs(b) == -k;
    }
  }

  /** The one quotient of two int32 values that leaves the int32 range. */
  lemma TruncDivOverflow(a: Int32, b: Int32)
    requires b != 0
    ensures !InInt32(TruncDiv(a, b)) <==> (a == INT32_MIN && b == -1)
  {
    assert InInt32(a) && InInt32(b);
    assert INT32_MIN <= a <= INT32_MAX;
    var m := NatDiv(Abs(a), Abs(b));
    var q := TruncDiv(a, b);
    assert Abs(q) == m;
    if Abs(b) >= 2 {
      assert m * 2 <= m * Abs(b) by {
        MulMonotone(m, 2, Abs(b));
      }
      assert m * Abs(b) <= Abs(a) <= 0x8000_0000;
      assert m <= 0x4000_0000;
      assert InInt32(q);
    } else if b == 1 {
      assert q == a;
    } else {
      assert b == -1 && q == 0 - (a as int);
    }
  }

  lemma MulMonotone(m: nat, x: nat, y: nat)
    requires x <= y
    ensures m * x <= m * y
  {
  }

  /** strtol's result for a numeral whose value is `x`: saturated at the ends of
      a 64-bit long. */
  function ClampLong(x: int): (r: int)
    ensures LONG_MIN <= r <= LONG_MAX
    ensures LONG_MIN <= x <= LONG_MAX ==> r == x
    ensures x > LONG_MAX ==> r == LONG_MAX
    ensures x < LONG_MIN ==> r == LONG_MIN
  {
    if x < LONG_MIN then LONG_MIN else if x > LONG_MAX then LONG_MAX else x
  }

  /** Narrowing a wider integer to int32_t: two's-complement wrap-around, which is
      what the C compilers this code targets do. */
  function WrapInt32(x: int): (r: Int32)
    ensures (r - x) % 0x1_0000_0000 == 0
    ensures InInt32(x) ==> r == x
  {
    (x - INT32_MIN) % 0x1_0000_0000 + INT32_MIN
  }
}
