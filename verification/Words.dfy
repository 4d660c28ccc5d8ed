/** Machine-word arithmetic used by the PM runtime: powers of two, exclusive or and `get_next_pow_2`. */
module Words {

  /** The values of a C `uint32_t`. */
  type Word = x: int | 0 <= x < 0x1_0000_0000

  function Pow2(k: nat): (p: nat)
    ensures p > 0
  {
    if k == 0 then 1 else 2 * Pow2(k - 1)
  }

  lemma Pow2Grows(j: nat, k: nat)
    requires j <= k
    ensures Pow2(j) <= Pow2(k)
  {
    if j < k {
      Pow2Grows(j, k - 1);
    }
  }

  /** Exclusive or, one binary digit at a time. */
  function Xor(a: nat, b: nat): (r: nat)
    decreases a + b
  {
    if a == 0 && b == 0 then 0
    else 2 * Xor(a / 2, b / 2) + if a % 2 == b % 2 then 0 else 1
  }

  /** Binary digit `i` of `a`. */
  function Digit(a: nat, i: nat): nat
  {
    if i == 0 then a % 2 else Digit(a / 2, i - 1)
  }

  lemma XorStep(a: nat, b: nat)
    ensures Xor(a, b) / 2 == Xor(a / 2, b / 2)
    ensures Xor(a, b) % 2 == if a % 2 == b % 2 then 0 else 1
  {
    var q := Xor(a / 2, b / 2);
    var d := if a % 2 == b % 2 then 0 else 1;
    assert Xor(a, b) == 2 * q + d;
    assert (2 * q + d) / 2 == q && (2 * q + d) % 2 == d;
  }

  /** `Xor` is the bitwise exclusive or: two digits differ exactly where the result has a 1. */
  lemma {:induction false} XorDigits(a: nat, b: nat, i: nat)
    ensures Digit(Xor(a, b), i) == 1 <==> Digit(a, i) != Digit(b, i)
    decreases i
  {
    XorStep(a, b);
    if i > 0 {
      XorDigits(a / 2, b / 2, i - 1);
    }
  }

  lemma {:induction false} XorBelow(a: nat, b: nat, k: nat)
    requires a < Pow2(k) && b < Pow2(k)
    ensures Xor(a, b) < Pow2(k)
  {
    XorStep(a, b);
    if k > 0 {
      assert a / 2 < Pow2(k - 1) && b / 2 < Pow2(k - 1);
      XorBelow(a / 2, b / 2, k - 1);
    }
  }

  /** Exclusive or with a smaller word keeps the leading digit. */
  lemma {:induction false} XorAbove(a: nat, b: nat, k: nat)
    requires Pow2(k) <= a < 2 * Pow2(k) && b < Pow2(k)
    ensures Pow2(k) <= Xor(a, b) < 2 * Pow2(k)
  {
    if k == 0 {
      assert Xor(0, 0) == 0;
      assert Xor(1, 0) == 1;
    } else {
      XorStep(a, b);
      XorAbove(a / 2, b / 2, k - 1);
    }
  }

  predicate IsPow2(p: bv32) {
    p != 0 && (p & (p - 1)) == 0
  }

  /** `get_next_pow_2`: smears the leading bit of `val - 1` downwards, then adds one. */
  method GetNextPow2(v: bv32) returns (val: bv32)
    ensures 1 <= v <= 0x8000_0000 ==> IsPow2(val) && v <= val
    ensures 1 <= v <= 0x8000_0000 ==> forall p: bv32 | IsPow2(p) && v <= p :: val <= p
    ensures v == 0 || 0x8000_0000 < v ==> val == 0
    ensures v == 31 ==> val == 32
  {
    val := v;
    val := val - 1;
    val := val | (val >> 1);
    val := val | (val >> 2);
    val := val | (val >> 4);
    val := val | (val >> 8);
    val := val | (val >> 16);
    val := val + 1;
    if 1 <= v <= 0x8000_0000 {
      assert IsPow2(val) && v <= val && (val >> 1) < v;
      forall p: bv32 | IsPow2(p) && v <= p
        ensures val <= p
      {
        NoPowerBetween(v, val, p);
      }
    }
  }

  lemma NoPowerBetween(v: bv32, r: bv32, p: bv32)
    requires IsPow2(r) && v <= r && (r >> 1) < v && IsPow2(p) && v <= p
    ensures r <= p
  {
  }
}
