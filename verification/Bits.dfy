/** The C operators `&`, `|` and `^` on naturals, defined bit by bit. */
module Bits {
  datatype BitOp = And | Or | Xor

  function OnBits(op: BitOp, a: bool, b: bool): bool {
    match op
    case And => a && b
    case Or => a || b
    case Xor => a != b
  }

  /** Bit `k` of `n`, counted from the least significant one. */
  predicate Bit(n: nat, k: nat) {
    if k == 0 then n % 2 == 1 else Bit(n / 2, k - 1)
  }

  function Bitwise(op: BitOp, a: nat, b: nat): nat
    decreases a + b
  {
    if a == 0 && b == 0 then 0
    else (if OnBits(op, a % 2 == 1, b % 2 == 1) then 1 else 0) + 2 * Bitwise(op, a / 2, b / 2)
  }

  function Pow2(k: nat): (p: nat)
    ensures p > 0
  {
    if k == 0 then 1 else 2 * Pow2(k - 1)
  }

  lemma HalfThenDivide(n: nat, p: nat)
    requires p > 0
    ensures n / 2 / p == n / (2 * p)
  {
    var q, r := n / (2 * p), n % (2 * p);
    assert n == 2 * p * q + r;
    assert n / 2 == p * q + r / 2 && r / 2 < p;
    QuotientIs(p, q, r / 2);
  }

  lemma Scale(p: nat, a: nat, b: nat)
    ensures a <= b ==> p * a <= p * b
  {
  }

  lemma QuotientIs(p: nat, q: nat, r: nat)
    requires r < p
    ensures (p * q + r) / p == q
  {
    var d := (p * q + r) / p;
    assert p * d <= p * q + r < p * (d + 1);
    Scale(p, d + 1, q);
    Scale(p, q + 1, d);
  }

  /** Bit `k` is the binary digit worth 2^k. */
  lemma {:induction false} BitIsDigit(n: nat, k: nat)
    ensures Bit(n, k) <==> n / Pow2(k) % 2 == 1
  {
    if k > 0 {
      BitIsDigit(n / 2, k - 1);
      HalfThenDivide(n, Pow2(k - 1));
    }
  }

  lemma {:induction false} BitOfZero(k: nat)
    ensures !Bit(0, k)
  {
    if k > 0 { BitOfZero(k - 1); }
  }

  lemma {:induction false} BitwiseStep(op: BitOp, a: nat, b: nat)
    ensures Bitwise(op, a, b) / 2 == Bitwise(op, a / 2, b / 2)
    ensures Bitwise(op, a, b) % 2 == 1 <==> OnBits(op, a % 2 == 1, b % 2 == 1)
  {
  }

  lemma {:induction false} BitwiseBit(op: BitOp, a: nat, b: nat, k: nat)
    ensures Bit(Bitwise(op, a, b), k) == OnBits(op, Bit(a, k), Bit(b, k))
    decreases k
  {
    BitwiseStep(op, a, b);
    if k > 0 {
      BitwiseBit(op, a / 2, b / 2, k - 1);
    }
  }

  lemma {:induction false} SameBits(a: nat, b: nat)
    requires forall k: nat :: Bit(a, k) == Bit(b, k)
    ensures a == b
    decreases a + b
  {
    if a != 0 || b != 0 {
      assert Bit(a, 0) == Bit(b, 0);
      forall k: nat ensures Bit(a / 2, k) == Bit(b / 2, k) {
        assert Bit(a, k + 1) == Bit(b, k + 1);
      }
      SameBits(a / 2, b / 2);
    }
  }

  /** A value of fewer than `w` bits is determined by its low `w` bits. */
  lemma {:induction false} SameLowBits(a: nat, b: nat, w: nat)
    requires a < Pow2(w) && b < Pow2(w)
    requires forall k: nat :: k < w ==> Bit(a, k) == Bit(b, k)
    ensures a == b
  {
    if w > 0 {
      assert Bit(a, 0) == Bit(b, 0);
      forall k: nat | k < w - 1 ensures Bit(a / 2, k) == Bit(b / 2, k) {
        assert Bit(a, k + 1) == Bit(b, k + 1);
      }
      SameLowBits(a / 2, b / 2, w - 1);
    }
  }

  lemma {:induction false} BitwiseBound(op: BitOp, a: nat, b: nat, w: nat)
    requires a < Pow2(w) && b < Pow2(w)
    ensures Bitwise(op, a, b) < Pow2(w)
  {
    if w > 0 && (a != 0 || b != 0) {
      BitwiseBound(op, a / 2, b / 2, w - 1);
    }
  }

  lemma XorCommutes(a: nat, b: nat)
    ensures Bitwise(Xor, a, b) == Bitwise(Xor, b, a)
  {
    forall k: nat ensures Bit(Bitwise(Xor, a, b), k) == Bit(Bitwise(Xor, b, a), k) {
      BitwiseBit(Xor, a, b, k);
      BitwiseBit(Xor, b, a, k);
    }
    SameBits(Bitwise(Xor, a, b), Bitwise(Xor, b, a));
  }

  /** XOR with a fixed right operand loses nothing. */
  lemma XorInjective(a: nat, b: nat, c: nat)
    ensures Bitwise(Xor, a, c) == Bitwise(Xor, b, c) <==> a == b
  {
    if Bitwise(Xor, a, c) == Bitwise(Xor, b, c) {
      forall k: nat ensures Bit(a, k) == Bit(b, k) {
        BitwiseBit(Xor, a, c, k);
        BitwiseBit(Xor, b, c, k);
      }
      SameBits(a, b);
    }
  }
}
