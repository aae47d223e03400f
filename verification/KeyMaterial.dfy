/**
 Key generation of the example key server: the string hash, the seed, the PRNG stream and the
 receiver mask of oblivious keys.
 */
module KeyMaterial {
  import opened Machine
  import opened Models
  import opened Bits

  // ----- simple_hash -------------------------------------------------------------------------

  /** The base-33 polynomial whose coefficients are the bytes of `s`, most significant first. */
  function Poly(s: bytes): nat {
    if s == [] then 0 else 33 * Poly(s[..|s| - 1]) + s[|s| - 1]
  }

  function Pow33(k: nat): nat {
    if k == 0 then 1 else 33 * Pow33(k - 1)
  }

  function Hash(s: bytes): uint32 {
    Poly(s) % WORD
  }

  /** `hash = (hash << 5) + hash + c` in 32 bits, up to the NUL. */
  method SimpleHash(str: CString) returns (hash: uint32)
    ensures hash == Hash(str)
  {
    var cells := str + [0];
    hash := 0;
    var i := 0;
    while cells[i] != 0
      invariant 0 <= i <= |str|
      invariant hash == Hash(cells[..i])
      decreases |str| - i
    {
      HashStep(Poly(cells[..i]), cells[i]);
      assert cells[..i + 1][..i] == cells[..i];
      hash := (hash * 32 % WORD + hash + cells[i]) % WORD;
      i := i + 1;
    }
    assert cells[..i] == str;
  }

  /** One character is its own hash, and every further one multiplies by 33 and adds. */
  lemma HashByDigits(s: bytes, c: byte)
    ensures Hash([]) == 0 && Hash([c]) == c
    ensures Hash(s + [c]) == (33 * Hash(s) + c) % WORD
  {
    assert [c][..0] == [];
    assert (s + [c])[..|s|] == s;
    ReduceStep(Poly(s), c);
  }

  lemma ReduceStep(p: nat, c: byte)
    ensures (33 * p + c) % WORD == (33 * (p % WORD) + c) % WORD
  {
    ModShift(33 * (p % WORD) + c, 33 * (p / WORD));
  }

  lemma HashStep(p: nat, c: byte)
    ensures (p % WORD * 32 % WORD + p % WORD + c) % WORD == (33 * p + c) % WORD
  {
    var q, r := p / WORD, p % WORD;
    var t := r * 32 / WORD;
    assert r * 32 % WORD + r + c == 33 * r + c - WORD * t;
    ModShift(33 * r + c, -t);
    ModShift(33 * r + c, 33 * q);
  }

  lemma ModShift(a: int, k: int)
    ensures (a + WORD * k) % WORD == a % WORD
  {
    assert a + WORD * k == WORD * (a / WORD + k) + a % WORD;
  }

  /** Hashing a concatenation. */
  lemma HashConcat(a: bytes, b: bytes)
    ensures Hash(a + b) == (Hash(a) * Pow33(|b|) + Hash(b)) % WORD
  {
    PolyConcat(a, b);
    ReducedConcat(a, b, Poly(a + b), Pow33(|b|));
  }

  lemma ReducedConcat(a: bytes, b: bytes, n: nat, p: nat)
    requires n == Poly(a) * p + Poly(b)
    ensures n % WORD == (Hash(a) * p + Hash(b)) % WORD
  {
    ReduceOperands(n, Poly(a), Poly(b), p);
  }

  lemma ReduceOperands(n: nat, x: nat, y: nat, p: nat)
    requires n == x * p + y
    ensures n % WORD == (x % WORD * p + y % WORD) % WORD
  {
    var qx, qy := x / WORD, y / WORD;
    ProductShift(x % WORD, WORD * qx, p);
    assert WORD * qx * p == WORD * (qx * p);
    ModShift(x % WORD * p + y % WORD, qx * p + qy);
  }

  lemma ProductShift(a: int, b: int, p: int)
    ensures (a + b) * p == a * p + b * p
  {
  }

  lemma {:induction false} PolyConcat(a: bytes, b: bytes)
    ensures Poly(a + b) == Poly(a) * Pow33(|b|) + Poly(b)
  {
    if b == [] {
      assert a + b == a;
    } else {
      var b' := b[..|b| - 1];
      assert (a + b)[..|a + b| - 1] == a + b';
      PolyConcat(a, b');
      assert 33 * (Poly(a) * Pow33(|b'|)) == Poly(a) * Pow33(|b|);
    }
  }

  /** 33 is a unit modulo 2^32; its inverse is 1041204193. */
  lemma UnitCancels(a: int, b: int)
    requires 33 * a % WORD == 33 * b % WORD
    ensures a % WORD == b % WORD
  {
    var q := 33 * a / WORD - 33 * b / WORD;
    assert 33 * (a - b) == WORD * q;
    var k := 1041204193 * q - 8 * (a - b);
    assert 33 * 1041204193 == 8 * WORD + 1;
    assert a - b == WORD * k;
    ModShift(b, k);
  }

  /** A common suffix neither creates nor hides a collision. */
  lemma {:induction false} HashSuffix(a: bytes, b: bytes, suffix: bytes)
    ensures Hash(a + suffix) == Hash(b + suffix) <==> Hash(a) == Hash(b)
  {
    if suffix == [] {
      assert a + suffix == a && b + suffix == b;
    } else {
      var init, c := suffix[..|suffix| - 1], suffix[|suffix| - 1];
      HashSuffix(a, b, init);
      assert (a + suffix)[..|a + suffix| - 1] == a + init;
      assert (b + suffix)[..|b + suffix| - 1] == b + init;
      AppendByte(Poly(a + init), Poly(b + init), c);
    }
  }

  lemma AppendByte(p: nat, q: nat, c: byte)
    ensures (33 * p + c) % WORD == (33 * q + c) % WORD <==> p % WORD == q % WORD
  {
    HashStep(p, c);
    HashStep(q, c);
    if (33 * p + c) % WORD == (33 * q + c) % WORD {
      var k := (33 * p + c) / WORD - (33 * q + c) / WORD;
      assert 33 * p == 33 * q + WORD * k;
      ModShift(33 * q, k);
      UnitCancels(p, q);
    }
  }

  /** Strings that differ in exactly one byte never collide. */
  lemma OneByteChangesHash(prefix: bytes, x: byte, y: byte, suffix: bytes)
    requires x != y
    ensures Hash(prefix + [x] + suffix) != Hash(prefix + [y] + suffix)
  {
    HashSuffix(prefix + [x], prefix + [y], suffix);
    assert (prefix + [x])[..|prefix|] == prefix && (prefix + [y])[..|prefix|] == prefix;
    var p := 33 * Poly(prefix);
    assert x - y == (p + x) % WORD - (p + y) % WORD + WORD * ((p + x) / WORD - (p + y) / WORD);
  }

  // ----- seeds -------------------------------------------------------------------------------

  lemma WordBits()
    ensures Pow2(32) == WORD
  {
    assert Pow2(8) == 0x100;
    assert Pow2(16) == 0x1_0000;
    assert Pow2(24) == 0x100_0000;
  }

  function Xor32(a: uint32, b: uint32): uint32 {
    assert Pow2(32) == WORD by { WordBits(); }
    BitwiseBound(Xor, a, b, 32);
    Bitwise(Xor, a, b)
  }

  function Seed(source: CString, destination: CString, index: uint32): uint32 {
    Xor32(Xor32(Xor32(0, Hash(source)), Hash(destination)), index)
  }

  lemma ZeroXor(a: uint32)
    ensures Xor32(0, a) == a
  {
    forall k: nat ensures Bit(Bitwise(Xor, 0, a), k) == Bit(a, k) {
      BitwiseBit(Xor, 0, a, k);
      BitOfZero(k);
    }
    SameBits(Bitwise(Xor, 0, a), a);
  }

  /** Every bit of the seed is the exclusive or of that bit in both hashes and the index. */
  lemma SeedBits(source: CString, destination: CString, index: uint32, k: nat)
    ensures Bit(Seed(source, destination, index), k)
         == ((Bit(Hash(source), k) != Bit(Hash(destination), k)) != Bit(index, k))
  {
    ZeroXor(Hash(source));
    BitwiseBit(Xor, Hash(source), Hash(destination), k);
    BitwiseBit(Xor, Xor32(Hash(source), Hash(destination)), index, k);
  }

  /** The seed ignores the direction of the stream. */
  lemma SeedSymmetric(source: CString, destination: CString, index: uint32)
    ensures Seed(source, destination, index) == Seed(destination, source, index)
  {
    ZeroXor(Hash(source));
    ZeroXor(Hash(destination));
    XorCommutes(Hash(source), Hash(destination));
  }

  /** On one stream, seeds coincide exactly for equal indices. */
  lemma SeedSeparatesIndices(source: CString, destination: CString, i: uint32, j: uint32)
    ensures Seed(source, destination, i) == Seed(source, destination, j) <==> i == j
  {
    var h := Xor32(Xor32(0, Hash(source)), Hash(destination));
    XorCommutes(h, i);
    XorCommutes(h, j);
    XorInjective(i, j, h);
  }

  /** At one destination and index, seeds coincide exactly when the sources collide under the hash. */
  lemma SeedSeparatesSources(a: CString, b: CString, destination: CString, index: uint32)
    ensures Seed(a, destination, index) == Seed(b, destination, index) <==> Hash(a) == Hash(b)
  {
    ZeroXor(Hash(a));
    ZeroXor(Hash(b));
    XorInjective(Xor32(Hash(a), Hash(destination)), Xor32(Hash(b), Hash(destination)), index);
    XorInjective(Hash(a), Hash(b), Hash(destination));
  }

  /** Changing one byte of the source changes the seed. */
  lemma OneByteChangesSeed(prefix: CString, x: byte, y: byte, suffix: CString, destination: CString, index: uint32)
    requires x != y && x != 0 && y != 0
    ensures Seed(prefix + [x] + suffix, destination, index) != Seed(prefix + [y] + suffix, destination, index)
  {
    OneByteChangesHash(prefix, x, y, suffix);
    SeedSeparatesSources(prefix + [x] + suffix, prefix + [y] + suffix, destination, index);
  }

  /** A loop-back stream is seeded with the bare index, whatever its name. */
  lemma LoopbackSeed(source: CString, index: uint32)
    ensures Seed(source, source, index) == index
  {
    var h := Hash(source);
    ZeroXor(h);
    forall k: nat ensures Bit(Bitwise(Xor, h, h), k) == Bit(0, k) {
      BitwiseBit(Xor, h, h, k);
      BitOfZero(k);
    }
    SameBits(Bitwise(Xor, h, h), 0);
    ZeroXor(index);
  }

  // ----- the PRNG stream ---------------------------------------------------------------------

  /** `srand`, the state step of `rand`, and the number `rand` returns: any deterministic generator. */
  datatype Prng = Prng(seed: uint32 -> nat, next: nat -> nat, value: nat -> nat)

  /** State after `n` calls of `rand`. */
  function Draw(prng: Prng, state: nat, n: nat): nat {
    if n == 0 then state else prng.next(Draw(prng, state, n - 1))
  }

  /** The low bytes of the first `n` values. */
  function RawKey(prng: Prng, state: nat, n: nat): (key: bytes)
    ensures |key| == n
  {
    if n == 0 then [] else RawKey(prng, state, n - 1) + [prng.value(Draw(prng, state, n)) % 256]
  }

  /** Byte `k` of a key is the low byte of what call `k + 1` of `rand` returns. */
  lemma {:induction false} RawKeyAt(prng: Prng, state: nat, n: nat, k: nat)
    requires k < n
    ensures RawKey(prng, state, n)[k] == prng.value(Draw(prng, state, k + 1)) % 256
  {
    if k < n - 1 { RawKeyAt(prng, state, n - 1, k); }
  }

  /** Drawing is iterating the step of the generator. */
  lemma {:induction false} DrawConcat(prng: Prng, state: nat, m: nat, n: nat)
    ensures Draw(prng, state, 0) == state && Draw(prng, state, 1) == prng.next(state)
    ensures Draw(prng, state, m + n) == Draw(prng, Draw(prng, state, m), n)
  {
    assert Draw(prng, state, 1) == prng.next(Draw(prng, state, 0));
    if n > 0 { DrawConcat(prng, state, m, n - 1); }
  }

  lemma {:induction false} RawKeyPrefix(prng: Prng, state: nat, m: nat, n: nat)
    requires m <= n
    ensures RawKey(prng, state, m) <= RawKey(prng, state, n)
  {
    if m < n {
      RawKeyPrefix(prng, state, m, n - 1);
    }
  }

  // ----- the oblivious receiver --------------------------------------------------------------

  lemma MaskInRange(b: byte)
    ensures Bitwise(Or, b, 0xAA) < 256 && Bitwise(And, b / 2, 0x55) < 256
  {
    assert Pow2(8) == 256;
    BitwiseBound(Or, b, 0xAA, 8);
    BitwiseBound(And, b / 2, 0x55, 8);
  }

  function MaskByte(i: nat, b: byte): byte {
    MaskInRange(b);
    if i % 2 == 0 then Bitwise(Or, b, 0xAA) else Bitwise(And, b / 2, 0x55)
  }

  function Masked(raw: bytes): (key: bytes)
    ensures |key| == |raw|
  {
    seq(|raw|, i requires 0 <= i < |raw| => MaskByte(i, raw[i]))
  }

  /** The choice bit the receiver holds in every slot of byte `i`. */
  predicate Choice(i: nat) {
    i % 2 == 0
  }

  /** The message of slot `j` of a sender byte selected by `c`: low bit for 1, high bit for 0. */
  predicate Chosen(b: byte, j: nat, c: bool) {
    if c then Bit(b, 2 * j) else Bit(b, 2 * j + 1)
  }

  /** Random-oblivious-transfer correlation of byte `i`: every receiver slot is (c, m_c). */
  ghost predicate Correlated(i: nat, sender: byte, receiver: byte) {
    forall j: nat :: j < 4 ==>
      Bit(receiver, 2 * j + 1) == Choice(i) && Bit(receiver, 2 * j) == Chosen(sender, j, Choice(i))
  }

  lemma BitsOf0xAA(k: nat)
    requires k < 8
    ensures Bit(0xAA, k) == (k % 2 == 1) && Bit(0x55, k) == (k % 2 == 0)
  {
    assert Bit(0xAA, 0) == false && Bit(0x55, 0) == true;
    assert Bit(0xAA, 1) == Bit(0x55, 0) && Bit(0x55, 1) == Bit(0x2A, 0);
    assert Bit(0xAA, 2) == Bit(0x55, 1) && Bit(0x55, 2) == Bit(0x2A, 1) == Bit(0x15, 0);
    assert Bit(0xAA, 3) == Bit(0x55, 2) && Bit(0x55, 3) == Bit(0x15, 1) == Bit(0xA, 0);
    assert Bit(0xAA, 4) == Bit(0x55, 3) && Bit(0x55, 4) == Bit(0x15, 2) == Bit(0xA, 1) == Bit(5, 0);
    assert Bit(0xAA, 5) == Bit(0x55, 4) && Bit(0x55, 5) == Bit(0x15, 3) == Bit(0xA, 2) == Bit(5, 1) == Bit(2, 0);
    assert Bit(0x55, 6) == Bit(0x15, 4) == Bit(0xA, 3) == Bit(5, 2) == Bit(2, 1) == Bit(1, 0);
    assert Bit(0x55, 7) == Bit(0x15, 5) == Bit(0xA, 4) == Bit(5, 3) == Bit(2, 2) == Bit(1, 1) == Bit(0, 0);
    assert Bit(0xAA, 6) == Bit(0x55, 5) && Bit(0xAA, 7) == Bit(0x55, 6);
  }

  lemma MaskBit(i: nat, b: byte, k: nat)
    requires k < 8
    ensures Bit(MaskByte(i, b), k)
         == if i % 2 == 0 then Bit(b, k) || k % 2 == 1 else Bit(b, k + 1) && k % 2 == 0
  {
    BitsOf0xAA(k);
    BitwiseBit(Or, b, 0xAA, k);
    BitwiseBit(And, b / 2, 0x55, k);
  }

  lemma MaskCorrelates(i: nat, sender: byte)
    ensures Correlated(i, sender, MaskByte(i, sender))
  {
    forall j: nat | j < 4
      ensures Bit(MaskByte(i, sender), 2 * j + 1) == Choice(i)
      ensures Bit(MaskByte(i, sender), 2 * j) == Chosen(sender, j, Choice(i))
    {
      MaskBit(i, sender, 2 * j);
      MaskBit(i, sender, 2 * j + 1);
    }
  }

  lemma CorrelatedIsUnique(i: nat, sender: byte, r: byte, r': byte)
    requires Correlated(i, sender, r) && Correlated(i, sender, r')
    ensures r == r'
  {
    forall k: nat | k < 8 ensures Bit(r, k) == Bit(r', k) {
      var j := k / 2;
      assert j < 4 && (k == 2 * j || k == 2 * j + 1);
    }
    assert Pow2(8) == 256;
    SameLowBits(r, r', 8);
  }

  /** The mask computes the correlated byte, and that byte is the only one. */
  lemma MaskIsObliviousTransfer(i: nat, sender: byte, receiver: byte)
    ensures receiver == MaskByte(i, sender) <==> Correlated(i, sender, receiver)
  {
    MaskCorrelates(i, sender);
    if Correlated(i, sender, receiver) {
      CorrelatedIsUnique(i, sender, receiver, MaskByte(i, sender));
    }
  }

  ghost predicate CorrelatedKeys(sender: bytes, receiver: bytes) {
    && |sender| == |receiver|
    && forall i: nat :: i < |sender| ==> Correlated(i, sender[i], receiver[i])
  }

  lemma MaskedIsCorrelated(sender: bytes, receiver: bytes)
    ensures receiver == Masked(sender) <==> CorrelatedKeys(sender, receiver)
  {
    if |sender| == |receiver| {
      forall i: nat | i < |sender|
        ensures receiver[i] == Masked(sender)[i] <==> Correlated(i, sender[i], receiver[i])
      {
        MaskIsObliviousTransfer(i, sender[i], receiver[i]);
      }
    }
  }

  /** The receiver key depends on the chosen bits, all of them, and on nothing else. */
  lemma ReceiverSeesChosenBitsOnly(raw: bytes, raw': bytes)
    ensures Masked(raw) == Masked(raw') <==>
      |raw| == |raw'| &&
      forall i: nat, j: nat :: i < |raw| && j < 4 ==> Chosen(raw[i], j, Choice(i)) == Chosen(raw'[i], j, Choice(i))
  {
    if |raw| == |raw'| {
      forall i: nat | i < |raw|
        ensures Masked(raw)[i] == Masked(raw')[i] <==>
          forall j: nat :: j < 4 ==> Chosen(raw[i], j, Choice(i)) == Chosen(raw'[i], j, Choice(i))
      {
        MaskIsObliviousTransfer(i, raw[i], Masked(raw)[i]);
        MaskIsObliviousTransfer(i, raw'[i], Masked(raw')[i]);
        MaskIsObliviousTransfer(i, raw'[i], Masked(raw)[i]);
      }
      if Masked(raw) != Masked(raw') {
        var i: nat :| i < |raw| && Masked(raw)[i] != Masked(raw')[i];
      }
    } else {
      assert |Masked(raw)| != |Masked(raw')|;
    }
  }

  lemma MaskedPrefix(short: bytes, long: bytes)
    requires short <= long
    ensures Masked(short) <= Masked(long)
  {
  }

  // ----- the generator -----------------------------------------------------------------------

  /** The process-wide PRNG and the two key generators that reseed it. */
  class Generator {
    const prng: Prng
    var state: nat

    constructor (prng: Prng)
      ensures this.prng == prng && state == 0
    {
      this.prng := prng;
      state := 0;
    }

    method Srand(seed: uint32)
      modifies this
      ensures state == prng.seed(seed)
    {
      state := prng.seed(seed);
    }

    method Rand() returns (r: nat)
      modifies this
      ensures state == prng.next(old(state))
      ensures r == prng.value(state)
    {
      state := prng.next(state);
      r := prng.value(state);
    }

    method ComputeSeed(source: CString, destination: CString, index: uint32) returns (seed: uint32)
      ensures seed == Seed(source, destination, index)
    {
      seed := 0;
      var h := SimpleHash(source);
      seed := Xor32(seed, h);
      h := SimpleHash(destination);
      seed := Xor32(seed, h);
      seed := Xor32(seed, index);
    }

    method PseudorandomKey(source: CString, destination: CString, keySize: nat, index: uint32)
      returns (key: array<byte>)
      modifies this
      ensures fresh(key)
      ensures key[..] == RawKey(prng, prng.seed(Seed(source, destination, index)), keySize)
      ensures forall k: nat :: k < keySize ==>
        key[k] == prng.value(Draw(prng, prng.seed(Seed(source, destination, index)), k + 1)) % 256
      ensures state == Draw(prng, prng.seed(Seed(source, destination, index)), keySize)
    {
      var seed := ComputeSeed(source, destination, index);
      key := new byte[keySize];
      Srand(seed);
      ghost var start := state;
      var i := 0;
      while i < keySize
        invariant 0 <= i <= keySize
        invariant state == Draw(prng, start, i)
        invariant key[..i] == RawKey(prng, start, i)
      {
        var r := Rand();
        key[i] := r % 256;
        i := i + 1;
        assert key[..i] == key[..i - 1] + [r % 256];
      }
      assert key[..] == key[..i];
      forall k: nat | k < keySize ensures key[k] == prng.value(Draw(prng, start, k + 1)) % 256 {
        RawKeyAt(prng, start, keySize, k);
        assert key[k] == key[..][k];
      }
    }

    method ObliviousKey(source: CString, destination: CString, keySize: nat, index: uint32, keyType: byte)
      returns (key: array<byte>)
      modifies this
      ensures fresh(key)
      ensures var raw := RawKey(prng, prng.seed(Seed(source, destination, index)), keySize);
              key[..] == if keyType == 2 then Masked(raw) else raw
      ensures forall k: nat :: k < keySize ==>
        var b: byte := prng.value(Draw(prng, prng.seed(Seed(source, destination, index)), k + 1)) % 256;
        if keyType == 2 then Correlated(k, b, key[k]) else key[k] == b
      ensures state == Draw(prng, prng.seed(Seed(source, destination, index)), keySize)
    {
      key := PseudorandomKey(source, destination, keySize, index);
      if keyType == 2 {
        ghost var raw := key[..];
        var i := 0;
        while i < keySize
          invariant 0 <= i <= keySize == key.Length
          invariant forall j :: 0 <= j < i ==> key[j] == MaskByte(j, raw[j])
          invariant forall j :: i <= j < keySize ==> key[j] == raw[j]
          modifies key
        {
          MaskInRange(key[i]);
          if i % 2 == 0 {
            key[i] := Bitwise(Or, key[i], 0xAA);
          } else {
            key[i] := Bitwise(And, key[i] / 2, 0x55);
          }
          i := i + 1;
        }
        assert key[..] == Masked(raw);
        forall k: nat | k < keySize ensures Correlated(k, raw[k], key[k]) {
          MaskCorrelates(k, raw[k]);
        }
      }
    }
  }
}
