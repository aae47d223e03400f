/** How many UUIDs there are: 16 bytes as a number, and the pigeonhole principle for supplies of them. */
module Uuids {
  import opened Machine
  import opened Models

  /** All UUIDs but the nil one. */
  const NON_NIL: nat := 0xFFFF_FFFF_FFFF_FFFF_FFFF_FFFF_FFFF_FFFF

  function Pow256(k: nat): (p: nat)
    ensures p > 0
  {
    if k == 0 then 1 else 256 * Pow256(k - 1)
  }

  function Number(s: bytes): nat {
    if s == [] then 0 else 256 * Number(s[..|s| - 1]) + s[|s| - 1]
  }

  function Digits(n: nat, k: nat): (s: bytes)
    ensures |s| == k
  {
    if k == 0 then [] else Digits(n / 256, k - 1) + [n % 256]
  }

  lemma {:induction false} NumberOfDigits(n: nat, k: nat)
    requires n < Pow256(k)
    ensures Number(Digits(n, k)) == n
  {
    if k > 0 {
      NumberOfDigits(n / 256, k - 1);
      assert Digits(n, k)[..k - 1] == Digits(n / 256, k - 1);
    }
  }

  lemma {:induction false} DigitsOfNumber(s: bytes)
    ensures Number(s) < Pow256(|s|) && Digits(Number(s), |s|) == s
  {
    if s != [] {
      DigitsOfNumber(s[..|s| - 1]);
    }
  }

  lemma UuidCount()
    ensures Pow256(UUID_SIZE) == NON_NIL + 1
    ensures Number(NIL_UUID) == 0
  {
    assert Pow256(4) == 0x1_0000_0000;
    assert Pow256(8) == 0x1_0000_0000 * Pow256(4);
    assert Pow256(12) == 0x1_0000_0000 * Pow256(8);
    assert Pow256(16) == 0x1_0000_0000 * Pow256(12);
    NumberOfDigits(0, UUID_SIZE);
    ZeroDigits(UUID_SIZE);
    assert Digits(0, UUID_SIZE) == NIL_UUID;
  }

  lemma {:induction false} ZeroDigits(k: nat)
    ensures forall i :: 0 <= i < k ==> Digits(0, k)[i] == 0
  {
    if k > 0 { ZeroDigits(k - 1); }
  }

  /** Supply number `i`, for `i` below the number of UUIDs that are not nil. */
  function Nth(i: nat): Uuid {
    Digits(i + 1, UUID_SIZE)
  }

  ghost predicate AllFresh(ids: nat -> Uuid, n: nat) {
    && (forall i: nat :: i < n ==> ids(i) != NIL_UUID)
    && (forall i: nat, j: nat :: i < j < n ==> ids(i) != ids(j))
  }

  lemma NthIsFresh(n: nat)
    requires n <= NON_NIL
    ensures AllFresh(Nth, n)
  {
    UuidCount();
    forall i: nat | i < n ensures Number(Nth(i)) == i + 1 {
      NumberOfDigits(i + 1, UUID_SIZE);
    }
  }

  function Below(n: nat): (s: set<nat>)
    ensures |s| == n && forall x :: x in s <==> 0 <= x < n
  {
    if n == 0 then {} else Below(n - 1) + {n - 1}
  }

  lemma SubsetSize(a: set<nat>, b: set<nat>)
    requires a <= b
    ensures |a| <= |b|
  {
    assert b == a + (b - a);
  }

  /** The numbers of the first `n` ids. */
  ghost function Numbers(ids: nat -> Uuid, n: nat): set<nat> {
    set i: nat | i < n :: Number(ids(i))
  }

  lemma NumberIdentifies(u: Uuid, v: Uuid)
    ensures Number(u) == Number(v) <==> u == v
  {
    DigitsOfNumber(u);
    DigitsOfNumber(v);
  }

  lemma NumbersStep(ids: nat -> Uuid, n: nat)
    ensures Numbers(ids, n + 1) == Numbers(ids, n) + {Number(ids(n))}
  {
  }

  lemma {:induction false} DistinctNumbers(ids: nat -> Uuid, n: nat)
    requires forall i: nat, j: nat :: i < j < n ==> ids(i) != ids(j)
    ensures |Numbers(ids, n)| == n
  {
    if n > 0 {
      DistinctNumbers(ids, n - 1);
      forall i: nat | i < n - 1 ensures Number(ids(i)) != Number(ids(n - 1)) {
        NumberIdentifies(ids(i), ids(n - 1));
      }
      NumbersStep(ids, n - 1);
    }
  }

  lemma SupplyIsFinite(ids: nat -> Uuid, n: nat)
    requires AllFresh(ids, n)
    ensures n <= NON_NIL
  {
    UuidCount();
    DistinctNumbers(ids, n);
    forall i: nat | i < n ensures 0 < Number(ids(i)) <= NON_NIL {
      DigitsOfNumber(ids(i));
      NumberIdentifies(ids(i), NIL_UUID);
    }
    var all := Numbers(ids, n) + {0};
    assert |all| == n + 1;
    SubsetSize(all, Below(NON_NIL + 1));
  }

  /** There are supplies of `n` fresh ids exactly for `n` below 2^128. */
  lemma FreshSuppliesExist(n: nat)
    ensures (exists ids: nat -> Uuid :: AllFresh(ids, n)) <==> n <= NON_NIL
  {
    if n <= NON_NIL {
      NthIsFresh(n);
    } else {
      forall ids: nat -> Uuid ensures !AllFresh(ids, n) {
        if AllFresh(ids, n) { SupplyIsFinite(ids, n); }
      }
    }
  }
}
