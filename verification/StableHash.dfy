/**
 The 64-bit FNV-1a hash with the MurmurHash3 finalizer. Words are naturals below 2^64;
 multiplication wraps, exclusive or goes bit by bit.
 */
module StableHash {
  import opened Basics

  type Word = w: nat | w < U64
  type Byte = b: nat | b < 256

  const FNV_OFFSET_BASIS: Word := 0xcbf2_9ce4_8422_2325
  const FNV_PRIME: Word := 0x0000_0100_0000_01b3
  const FNV_PRIME_INVERSE: Word := 0xce96_5057_aff6_957b

  const MIX_1: Word := 0xff51_afd7_ed55_8ccd
  const MIX_1_INVERSE: Word := 0x4f74_430c_22a5_4005
  const MIX_2: Word := 0xc4ce_b9fe_1a85_ec53
  const MIX_2_INVERSE: Word := 0x9cb4_b2f8_1293_37db

  // ---------- Machine operations ----------

  function Xor(a: nat, b: nat): nat
    decreases a + b
  {
    if a == 0 && b == 0 then 0
    else (if a % 2 == b % 2 then 0 else 1) + 2 * Xor(a / 2, b / 2)
  }

  function Pow2(n: nat): (p: nat)
    ensures p > 0
  {
    if n == 0 then 1 else 2 * Pow2(n - 1)
  }

  function ShiftRight(a: nat, n: nat): nat {
    if n == 0 then a else ShiftRight(a / 2, n - 1)
  }

  lemma {:induction false} XorBound(a: nat, b: nat, n: nat)
    requires a < Pow2(n) && b < Pow2(n)
    ensures Xor(a, b) < Pow2(n)
    decreases n
  {
    if n > 0 && (a > 0 || b > 0) {
      XorBound(a / 2, b / 2, n - 1);
    }
  }

  lemma WordIsBelowPow2()
    ensures Pow2(64) == U64
  {
    PowAdds(32, 32);
    PowThirtyTwo();
  }

  lemma PowThirtyTwo()
    ensures Pow2(32) == 0x1_0000_0000
  {
    assert Pow2(8) == 256;
    PowAdds(8, 8);
    assert Pow2(16) == 0x1_0000;
    PowAdds(16, 16);
  }

  lemma {:induction false} PowAdds(m: nat, n: nat)
    ensures Pow2(m + n) == Pow2(m) * Pow2(n)
    decreases n
  {
    if n > 0 {
      PowAdds(m, n - 1);
    }
  }

  function XorWord(a: Word, b: Word): Word {
    WordIsBelowPow2();
    XorBound(a, b, 64);
    Xor(a, b)
  }

  /** `wrapping_mul`. */
  function MulWord(a: Word, b: Word): Word {
    (a * b) % U64
  }

  lemma {:induction false} ShiftBound(a: nat, n: nat)
    ensures ShiftRight(a, n) <= a
    decreases n
  {
    if n > 0 {
      ShiftBound(a / 2, n - 1);
    }
  }

  /** `h ^= h >> 33`. */
  function ShiftMix(h: Word): Word {
    ShiftBound(h, 33);
    XorWord(h, ShiftRight(h, 33))
  }

  // ---------- The source's procedures ----------

  method Fnv1a64(bytes: seq<Byte>) returns (h: Word)
    ensures h == Mixed(Fold(FNV_OFFSET_BASIS, bytes))
  {
    var hash := FNV_OFFSET_BASIS;
    for i := 0 to |bytes|
      invariant hash == Fold(FNV_OFFSET_BASIS, bytes[..i])
    {
      assert bytes[..i + 1][..i] == bytes[..i];
      hash := XorWord(hash, bytes[i]);
      hash := MulWord(hash, FNV_PRIME);
    }
    assert bytes[..|bytes|] == bytes;
    h := Fmix64(hash);
  }

  method Fmix64(word: Word) returns (h: Word)
    ensures h == Mixed(word)
  {
    h := ShiftMix(word);
    h := MulWord(h, MIX_1);
    h := ShiftMix(h);
    h := MulWord(h, MIX_2);
    h := ShiftMix(h);
  }

  // ---------- Their meaning ----------

  function Absorb(h: Word, b: Byte): Word {
    MulWord(XorWord(h, b), FNV_PRIME)
  }

  /** Plain FNV-1a, without the finalizer. */
  function Fold(h: Word, bytes: seq<Byte>): Word {
    if bytes == [] then h else Absorb(Fold(h, bytes[..|bytes| - 1]), bytes[|bytes| - 1])
  }

  function Mixed(h: Word): Word {
    ShiftMix(MulWord(ShiftMix(MulWord(ShiftMix(h), MIX_1)), MIX_2))
  }

  function Unmixed(h: Word): Word {
    ShiftMix(MulWord(ShiftMix(MulWord(ShiftMix(h), MIX_2_INVERSE)), MIX_1_INVERSE))
  }

  // ---------- Exclusive or ----------

  lemma {:induction false} XorCancels(a: nat, b: nat)
    ensures Xor(Xor(a, b), b) == a
    decreases a + b
  {
    if a > 0 || b > 0 {
      XorCancels(a / 2, b / 2);
      var x := Xor(a, b);
      assert x / 2 == Xor(a / 2, b / 2);
      if x == 0 && b == 0 {
        XorZero(a);
      }
    }
  }

  lemma {:induction false} XorZero(a: nat)
    ensures Xor(a, 0) == a && Xor(0, a) == a
  {
    if a > 0 {
      XorZero(a / 2);
    }
  }

  lemma {:induction false} XorCommutes(a: nat, b: nat)
    ensures Xor(a, b) == Xor(b, a)
    decreases a + b
  {
    if a > 0 || b > 0 {
      XorCommutes(a / 2, b / 2);
    }
  }

  lemma {:induction false} ShiftXor(a: nat, b: nat, n: nat)
    ensures ShiftRight(Xor(a, b), n) == Xor(ShiftRight(a, n), ShiftRight(b, n))
    decreases n
  {
    if n > 0 {
      assert Xor(a, b) / 2 == Xor(a / 2, b / 2);
      ShiftXor(a / 2, b / 2, n - 1);
    }
  }

  lemma {:induction false} ShiftTwice(a: nat, m: nat, n: nat)
    ensures ShiftRight(ShiftRight(a, m), n) == ShiftRight(a, m + n)
    decreases m
  {
    if m > 0 {
      ShiftTwice(a / 2, m - 1, n);
    }
  }

  lemma {:induction false} ShiftOut(a: nat, n: nat)
    requires a < Pow2(n)
    ensures ShiftRight(a, n) == 0
    decreases n
  {
    if n > 0 {
      ShiftOut(a / 2, n - 1);
    }
  }

  lemma {:induction false} PowGrows(n: nat, m: nat)
    requires n <= m
    ensures Pow2(n) <= Pow2(m)
    decreases m - n
  {
    if n < m {
      PowGrows(n, m - 1);
    }
  }

  /** A shift by more than half the width makes the mix its own inverse. */
  lemma ShiftMixInvolution(h: Word)
    ensures ShiftMix(ShiftMix(h)) == h
  {
    var s := ShiftRight(h, 33);
    ShiftXor(h, s, 33);
    ShiftTwice(h, 33, 33);
    WordIsBelowPow2();
    PowGrows(64, 66);
    ShiftOut(h, 66);
    XorZero(s);
    XorCancels(h, s);
  }

  // ---------- Multiplication ----------

  lemma ModDropsMultiples(a: nat, k: nat)
    ensures (a + k * U64) % U64 == a % U64
  {}

  lemma MulAssociates(a: nat, b: nat, c: nat)
    ensures ((a * b) % U64 * c) % U64 == (a * (b * c)) % U64
  {
    var (q, r) := ((a * b) / U64, (a * b) % U64);
    assert a * (b * c) == (a * b) * c == (q * U64 + r) * c == r * c + (q * c) * U64;
    ModDropsMultiples(r * c, q * c);
  }

  lemma MulUndone(h: Word, c: Word, inverse: Word)
    requires (c * inverse) % U64 == 1
    ensures MulWord(MulWord(h, c), inverse) == h
  {
    MulAssociates(h, c, inverse);
    var q := (c * inverse) / U64;
    assert c * inverse == q * U64 + 1;
    assert h * (q * U64 + 1) == h + (h * q) * U64;
    ModDropsMultiples(h, h * q);
  }

  lemma Inverses()
    ensures (FNV_PRIME * FNV_PRIME_INVERSE) % U64 == 1
    ensures (MIX_1 * MIX_1_INVERSE) % U64 == 1 && (MIX_1_INVERSE * MIX_1) % U64 == 1
    ensures (MIX_2 * MIX_2_INVERSE) % U64 == 1 && (MIX_2_INVERSE * MIX_2) % U64 == 1
  {}

  // ---------- The finalizer ----------

  /** The finalizer is a bijection on words: `Unmixed` is its two-sided inverse. */
  lemma MixedBijective(h: Word)
    ensures Unmixed(Mixed(h)) == h
    ensures Mixed(Unmixed(h)) == h
  {
    MixThenBack(h, MIX_1, MIX_2, MIX_2_INVERSE, MIX_1_INVERSE);
    MixThenBack(h, MIX_2_INVERSE, MIX_1_INVERSE, MIX_1, MIX_2);
  }

  lemma MixThenBack(h: Word, c: Word, d: Word, dInverse: Word, cInverse: Word)
    requires (c, d, dInverse, cInverse) == (MIX_1, MIX_2, MIX_2_INVERSE, MIX_1_INVERSE)
          || (c, d, dInverse, cInverse) == (MIX_2_INVERSE, MIX_1_INVERSE, MIX_1, MIX_2)
    ensures var mixed := ShiftMix(MulWord(ShiftMix(MulWord(ShiftMix(h), c)), d));
            ShiftMix(MulWord(ShiftMix(MulWord(ShiftMix(mixed), dInverse)), cInverse)) == h
  {
    Inverses();
    var a := MulWord(ShiftMix(h), c);
    var b := MulWord(ShiftMix(a), d);
    ShiftMixInvolution(b);
    MulUndone(ShiftMix(a), d, dInverse);
    ShiftMixInvolution(a);
    MulUndone(ShiftMix(h), c, cInverse);
    ShiftMixInvolution(h);
  }

  /** The hash collides exactly where plain FNV-1a does. */
  lemma CollidesExactlyLikeFnv(xs: seq<Byte>, ys: seq<Byte>)
    ensures Mixed(Fold(FNV_OFFSET_BASIS, xs)) == Mixed(Fold(FNV_OFFSET_BASIS, ys)) <==>
            Fold(FNV_OFFSET_BASIS, xs) == Fold(FNV_OFFSET_BASIS, ys)
  {
    MixedBijective(Fold(FNV_OFFSET_BASIS, xs));
    MixedBijective(Fold(FNV_OFFSET_BASIS, ys));
  }

  // ---------- One changed byte ----------

  lemma AbsorbInjective(g: Word, h: Word, b: Byte, c: Byte)
    requires Absorb(g, b) == Absorb(h, c)
    ensures g == h <==> b == c
  {
    Inverses();
    MulUndone(XorWord(g, b), FNV_PRIME, FNV_PRIME_INVERSE);
    MulUndone(XorWord(h, c), FNV_PRIME, FNV_PRIME_INVERSE);
    XorCancels(g, b);
    XorCancels(h, c);
    XorCommutes(g, b);
    XorCommutes(h, c);
    XorCancels(b, g);
    XorCancels(c, h);
  }

  /** Equal tails keep different states different. */
  lemma {:induction false} FoldInjective(g: Word, h: Word, bytes: seq<Byte>)
    requires Fold(g, bytes) == Fold(h, bytes)
    ensures g == h
    decreases |bytes|
  {
    if bytes != [] {
      var front, last := bytes[..|bytes| - 1], bytes[|bytes| - 1];
      AbsorbInjective(Fold(g, front), Fold(h, front), last, last);
      FoldInjective(g, h, front);
    }
  }

  lemma {:induction false} FoldConcat(h: Word, xs: seq<Byte>, ys: seq<Byte>)
    ensures Fold(h, xs + ys) == Fold(Fold(h, xs), ys)
    decreases |ys|
  {
    if ys == [] {
      assert xs + ys == xs;
    } else {
      assert (xs + ys)[..|xs + ys| - 1] == xs + ys[..|ys| - 1];
      FoldConcat(h, xs, ys[..|ys| - 1]);
    }
  }

  lemma FoldOne(front: seq<Byte>, b: Byte)
    ensures Fold(FNV_OFFSET_BASIS, front + [b]) == Absorb(Fold(FNV_OFFSET_BASIS, front), b)
  {
    assert (front + [b])[..|front|] == front;
  }

  /** Two inputs of equal length that differ in exactly one byte never have the same hash. */
  lemma OneByteNeverCollides(xs: seq<Byte>, k: nat, b: Byte)
    requires k < |xs| && b != xs[k]
    ensures Mixed(Fold(FNV_OFFSET_BASIS, xs)) != Mixed(Fold(FNV_OFFSET_BASIS, xs[k := b]))
  {
    var ys := xs[k := b];
    var (front, tail) := (xs[..k], xs[k + 1..]);
    CollidesExactlyLikeFnv(xs, ys);
    assert xs == front + [xs[k]] + tail && ys == front + [b] + tail;
    FoldConcat(FNV_OFFSET_BASIS, front + [xs[k]], tail);
    FoldConcat(FNV_OFFSET_BASIS, front + [b], tail);
    FoldOne(front, xs[k]);
    FoldOne(front, b);
    var h := Fold(FNV_OFFSET_BASIS, front);
    if Fold(FNV_OFFSET_BASIS, xs) == Fold(FNV_OFFSET_BASIS, ys) {
      FoldInjective(Absorb(h, xs[k]), Absorb(h, b), tail);
      AbsorbInjective(h, h, xs[k], b);
    }
  }

  // ---------- Published values ----------

  /** The step of FNV-1a: first the byte is mixed in, then the state is multiplied by the 64-bit FNV prime. */
  lemma AbsorbIsFnv1a(h: Word, b: Byte)
    ensures Absorb(h, b) == Absorb(XorWord(h, b), 0)
    ensures Absorb(h, 0) == (h * 0x100_0000_01b3) % U64
  {
    XorZero(h);
    XorZero(XorWord(h, b));
  }

  /** One more low bit on both sides. */
  lemma XorBit(a: nat, b: nat, c: nat, i: nat, j: nat)
    requires Xor(a, b) == c && i < 2 && j < 2
    ensures Xor(2 * a + i, 2 * b + j) == 2 * c + if i == j then 0 else 1
  {
    HalfOf(2 * a + i, a, i);
    HalfOf(2 * b + j, b, j);
    XorUnfolds(2 * a + i, 2 * b + j, a, b, i, j);
  }

  lemma HalfOf(x: nat, a: nat, i: nat)
    requires x == 2 * a + i && i < 2
    ensures x / 2 == a && x % 2 == i
  {}

  lemma XorUnfolds(x: nat, y: nat, a: nat, b: nat, i: nat, j: nat)
    requires x / 2 == a && y / 2 == b && x % 2 == i && y % 2 == j
    ensures Xor(x, y) == (if i == j then 0 else 1) + 2 * Xor(a, b)
  {}

  lemma XorTwoBits(a: nat, b: nat, c: nat, i: nat, j: nat, k: nat, l: nat)
    requires Xor(a, b) == c && i < 2 && j < 2 && k < 2 && l < 2
    ensures Xor(4 * a + 2 * i + k, 4 * b + 2 * j + l)
         == 4 * c + (if i == j then 0 else 2) + (if k == l then 0 else 1)
  {
    XorBit(a, b, c, i, j);
    XorBit(2 * a + i, 2 * b + j, 2 * c + (if i == j then 0 else 1), k, l);
  }

  /** The lowest eight bits of the offset basis with those of the letter `a`. */
  lemma XorLowBits(q: nat)
    ensures Xor(256 * q + 0x25, 0x61) == 256 * q + 0x44
  {
    XorHighBits(q);
    XorTwoBits(16 * q + 2, 6, 16 * q + 4, 0, 0, 1, 0);
    XorTwoBits(64 * q + 9, 24, 64 * q + 17, 0, 0, 1, 1);
  }

  lemma XorHighBits(q: nat)
    ensures Xor(16 * q + 2, 6) == 16 * q + 4
  {
    XorZero(q);
    XorTwoBits(q, 0, q, 0, 0, 0, 1);
    XorTwoBits(4 * q, 1, 4 * q + 1, 1, 1, 0, 0);
  }

  /** The published FNV-1a values of the empty string and of "a", which fix the offset basis and the prime. */
  lemma PublishedFnv(h: Word, letter: Byte)
    requires h == FNV_OFFSET_BASIS && letter == 0x61
    ensures Fold(h, []) == 0xcbf2_9ce4_8422_2325
    ensures Fold(h, [letter]) == 0xaf63_dc4c_8601_ec8c
  {
    assert [letter][..0] == [];
    assert Fold(h, [letter]) == Absorb(h, letter);
    BasisWithA(h, letter);
  }

  lemma BasisWithA(h: Word, letter: Byte)
    requires h == FNV_OFFSET_BASIS && letter == 0x61
    ensures Absorb(h, letter) == 0xaf63_dc4c_8601_ec8c
  {
    var q: nat := 0xcb_f29c_e484_2223;
    assert h == 256 * q + 0x25;
    XorLowBits(q);
    TimesPrime(XorWord(h, letter));
  }

  lemma TimesPrime(x: Word)
    ensures x == 0xcbf2_9ce4_8422_2344 ==> MulWord(x, FNV_PRIME) == 0xaf63_dc4c_8601_ec8c
  {}

  lemma {:induction false} ShiftDivides(a: nat, n: nat)
    ensures ShiftRight(a, n) == a / Pow2(n)
    decreases n
  {
    if n > 0 {
      ShiftDivides(a / 2, n - 1);
      HalfFirst(a, Pow2(n - 1));
    }
  }

  lemma HalfFirst(a: nat, n: nat)
    requires n > 0
    ensures a / 2 / n == a / (2 * n)
  {
    var q := a / 2 / n;
    assert q * n <= a / 2 < q * n + n;
    assert q * (2 * n) == 2 * (q * n);
    QuotientIs(a, 2 * n, q);
  }

  lemma QuotientIs(a: nat, d: nat, q: nat)
    requires d > 0 && q * d <= a < q * d + d
    ensures a / d == q
  {
    var p := a / d;
    assert p * d <= a < p * d + d;
    MultiplesApart(p, q, d);
    MultiplesApart(q, p, d);
  }

  lemma MultiplesApart(p: nat, q: nat, d: nat)
    ensures p < q ==> p * d + d <= q * d
  {
    if p < q {
      assert p * d + d == (p + 1) * d;
      assert q * d == (p + 1) * d + (q - p - 1) * d;
    }
  }

  /** The shift of the finalizer is a division by 2^33. */
  lemma ShiftMixMeans(h: Word)
    ensures ShiftMix(h) == Xor(h, h / 0x2_0000_0000)
  {
    ShiftDivides(h, 33);
    PowThirtyTwo();
  }

  /** Its two multipliers, in their order: the inverse of the first leads to the second alone. */
  lemma MixOrder(inverse: Word, one: Word)
    requires inverse == 0x4f74_430c_22a5_4005 && one == 1
    ensures (inverse * 0xff51_afd7_ed55_8ccd) % U64 == one
    ensures Mixed(ShiftMix(inverse)) == ShiftMix(MulWord(one, 0xc4ce_b9fe_1a85_ec53))
  {
    Inverses();
    ShiftMixInvolution(inverse);
    SmallUnmixed(one);
    MixedThrough(ShiftMix(inverse), inverse, one);
  }

  lemma MixedThrough(h: Word, a: Word, b: Word)
    requires ShiftMix(h) == a && MulWord(a, MIX_1) == b && ShiftMix(b) == b
    ensures Mixed(h) == ShiftMix(MulWord(b, MIX_2))
  {}

  lemma SmallUnmixed(h: Word)
    requires h < 0x2_0000_0000
    ensures ShiftMix(h) == h
  {
    ShiftMixMeans(h);
    XorZero(h);
  }
}
