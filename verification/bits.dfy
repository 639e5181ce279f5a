/**
 Python's `&` between an arbitrary integer (the robot status) and a
 non-negative mask. Python integers behave as infinite two's complement, so
 bit j of `a` is `(a // 2^j) % 2` for negative `a` too; with a positive
 divisor Dafny's `/` and `%` agree with Python's floor division and modulo.
 */
module Bits {

  /** `a & b` for any integer `a` and any non-negative `b`. */
  function And(a: int, b: nat): (r: nat)
    ensures r <= b
    decreases b
  {
    if b == 0 then 0
    else 2 * And(a / 2, b / 2) + (if a % 2 == 1 && b % 2 == 1 then 1 else 0)
  }

  /** The defining step of `And` holds for a zero mask too. */
  lemma AndStep(a: int, b: nat)
    ensures And(a, b) == 2 * And(a / 2, b / 2) + (if a % 2 == 1 && b % 2 == 1 then 1 else 0)
  {
  }

  /** A zero status has no bit in common with any mask. */
  lemma {:induction false} AndZero(b: nat)
    ensures And(0, b) == 0
    decreases b
  {
    if b > 0 {
      AndZero(b / 2);
    }
  }

  /** Masking twice is masking once with the common bits of both masks. */
  lemma {:induction false} AndAssoc(s: int, big: nat, m: nat)
    ensures And(And(s, big), m) == And(s, And(big, m))
    decreases m
  {
    if m > 0 && big > 0 {
      var x := And(s, big);
      var y := And(big, m);
      AndStep(x, m);
      AndStep(s, y);
      assert x / 2 == And(s / 2, big / 2) && x % 2 == (if s % 2 == 1 && big % 2 == 1 then 1 else 0);
      assert y / 2 == And(big / 2, m / 2) && y % 2 == (if big % 2 == 1 && m % 2 == 1 then 1 else 0);
      AndAssoc(s / 2, big / 2, m / 2);
    } else if m > 0 {
      AndZero(m);
      AndStep(s, And(0, m));
    }
  }

  /** `2^k`. */
  function Pow2(k: nat): (p: nat)
    ensures p >= 1
  {
    if k == 0 then 1 else 2 * Pow2(k - 1)
  }

  /** Bit k of `a`: Python's `(a >> k) & 1`, which is floor division for negative `a` too. */
  predicate Bit(a: int, k: nat) {
    (a / Pow2(k)) % 2 == 1
  }

  /** Division by a positive divisor is determined by any quotient-remainder split. */
  lemma DivUnique(a: int, d: int, q: int, r: int)
    requires d > 0 && a == d * q + r && 0 <= r < d
    ensures a / d == q
  {
    var q', r' := a / d, a % d;
    assert d * (q - q') == r' - r;
    if q > q' {
      MulAtLeast(d, q - q');
    } else if q < q' {
      MulAtLeast(d, q' - q);
    }
  }

  /** A positive multiple of `d` is at least `d`. */
  lemma MulAtLeast(d: int, n: int)
    requires d > 0 && n >= 1
    ensures d * n >= d
  {
    assert d * n == d + d * (n - 1);
  }

  /** Halving and then dividing by `2^(k-1)` is dividing by `2^k`. */
  lemma DivPow2(a: int, k: nat)
    requires k > 0
    ensures (a / 2) / Pow2(k - 1) == a / Pow2(k)
  {
    var p := Pow2(k - 1);
    var h := a / 2;
    var q := h / p;
    assert a == 2 * h + a % 2;
    assert h == p * q + h % p;
    assert a == Pow2(k) * q + (2 * (h % p) + a % 2);
    DivUnique(a, Pow2(k), q, 2 * (h % p) + a % 2);
  }

  /** Bit k of `a & b` is set exactly when bit k is set in both `a` and `b`. */
  lemma {:induction false} AndBit(a: int, b: nat, k: nat)
    ensures Bit(And(a, b), k) <==> Bit(a, k) && Bit(b, k)
    decreases k
  {
    if k == 0 {
      AndLowBit(a, b);
    } else {
      AndBit(a / 2, b / 2, k - 1);
      AndHalf(a, b);
      BitHalf(And(a, b), k);
      BitHalf(a, k);
      BitHalf(b, k);
    }
  }

  /** Bit 0 of `a & b` is set exactly when it is set in both. */
  lemma AndLowBit(a: int, b: nat)
    ensures Bit(And(a, b), 0) <==> Bit(a, 0) && Bit(b, 0)
  {
    AndStep(a, b);
    assert Pow2(0) == 1;
  }

  /** Halving `a & b` is masking the halves. */
  lemma AndHalf(a: int, b: nat)
    ensures And(a, b) / 2 == And(a / 2, b / 2)
  {
    AndStep(a, b);
  }

  /** Bit k of `x` is bit k - 1 of its half. */
  lemma BitHalf(x: int, k: nat)
    requires k > 0
    ensures Bit(x, k) <==> Bit(x / 2, k - 1)
  {
    DivPow2(x, k);
  }

  /** A one-bit mask `2^k` keeps exactly bit k of `a`. */
  lemma {:induction false} AndPow2(a: int, k: nat)
    ensures And(a, Pow2(k)) == (if Bit(a, k) then Pow2(k) else 0)
    decreases k
  {
    AndStep(a, Pow2(k));
    if k == 0 {
      assert And(a / 2, 0) == 0;
    } else {
      assert Pow2(k) / 2 == Pow2(k - 1) && Pow2(k) % 2 == 0;
      AndPow2(a / 2, k - 1);
      DivPow2(a, k);
    }
  }

  /** Halving the all-ones mask of width k drops its low one bit. */
  lemma HalfOnes(k: nat)
    requires k > 0
    ensures (Pow2(k) - 1) / 2 == Pow2(k - 1) - 1
    ensures (Pow2(k) - 1) % 2 == 1
  {
    var half := Pow2(k - 1);
    assert Pow2(k) - 1 == 2 * (half - 1) + 1;
  }

  /** Splitting a mask into its low bit and the rest, as `And` does. */
  lemma OnesStep(k: nat, m: nat)
    requires k > 0
    requires And(Pow2(k - 1) - 1, m / 2) == m / 2
    ensures And(Pow2(k) - 1, m) == m
  {
    HalfOnes(k);
    AndStep(Pow2(k) - 1, m);
  }

  /** The all-ones mask of width k keeps every mask narrower than it unchanged. */
  lemma {:induction false} AndAllOnes(k: nat, m: nat)
    requires m < Pow2(k)
    ensures And(Pow2(k) - 1, m) == m
    decreases k
  {
    if m > 0 {
      assert k > 0;
      AndAllOnes(k - 1, m / 2);
      OnesStep(k, m);
    }
  }

  /** `0x7FFFF`: the nineteen status bits the robot defines. */
  const LowMask: nat := 0x7FFFF

  /** A mask within the low nineteen bits sees the same bits of `s` and of `s & 0x7FFFF`. */
  lemma AndLowBits(s: int, m: nat)
    requires m <= LowMask
    ensures And(And(s, LowMask), m) == And(s, m)
  {
    assert Pow2(19) == 0x80000 by {
      assert Pow2(4) == 16;
      assert Pow2(8) == 256;
      assert Pow2(12) == 4096;
      assert Pow2(16) == 65536;
    }
    AndAllOnes(19, m);
    AndAssoc(s, LowMask, m);
  }
}
