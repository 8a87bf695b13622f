/**
The 64-bit FNV-1a hash of src/theft_hash.c, and the default hash of an autoshrink pool
(src/theft_autoshrink.c, theft_autoshrink_hash).
*/
module Hash {
  import opened Bits
  import opened BitPool

  const MODULUS: nat := 0x1_0000_0000_0000_0000
  const PRIME: nat := 1099511628211
  const OFFSET_BASIS: Word := FromNat(14695981039346656037, 64)

  /** `w ^ d`, for a byte `d`. */
  function XorByte(w: Word, d: bv8): Word {
    seq(64, i requires 0 <= i < 64 => if i < 8 then w[i] != BitOf(d, i) else w[i])
  }

  /** Multiplication of uint64_t values by the prime. */
  function Times(x: nat): nat {
    (x * PRIME) % MODULUS
  }

  /** One byte of the hash: exclusive or, then multiply. */
  function Step(a: Word, d: bv8): Word {
    FromNat(Times(ToNat(XorByte(a, d))), 64)
  }

  function Sunk(a: Word, data: seq<bv8>): Word {
    if data == [] then a else Step(Sunk(a, data[..|data| - 1]), data[|data| - 1])
  }

  /** The hash of a buffer. */
  function OnePass(data: seq<bv8>): Word {
    Sunk(OFFSET_BASIS, data)
  }

  /** Sinking in pieces is sinking at once, wherever the data is split. */
  lemma {:induction false} SinkSplit(a: Word, x: seq<bv8>, y: seq<bv8>)
    ensures Sunk(a, x + y) == Sunk(Sunk(a, x), y)
  {
    hide Step;
    if y == [] {
      assert x + y == x;
    } else {
      SinkSplit(a, x, y[..|y| - 1]);
      assert (x + y)[..|x + y| - 1] == x + y[..|y| - 1];
    }
  }

  /** The prime is odd, so multiplying by it modulo 2^64 loses nothing. */
  lemma TimesInjective(x: nat, y: nat)
    requires x < MODULUS && y < MODULUS && Times(x) == Times(y)
    ensures x == y
  {
    var inverse, t := 0xCE965057AFF6957B, (PRIME * 0xCE965057AFF6957B) / MODULUS;
    assert PRIME * inverse == 1 + t * MODULUS;
    var k, l := (x * PRIME) / MODULUS, (y * PRIME) / MODULUS;
    assert (x - y) * PRIME == (k - l) * MODULUS;
    var j := (k - l) * inverse - t * (x - y);
    assert x - y == MODULUS * j;
  }

  lemma SixtyFour()
    ensures Pow2(64) == MODULUS
  {
    assert Pow2(8) == 256 by { assert Pow2(4) == 16; }
    assert Pow2(16) == 256 * 256 by { PowSum(8, 8); }
    assert Pow2(32) == 0x1_0000_0000 by { PowSum(16, 16); }
    PowSum(32, 32);
  }

  lemma {:induction false} PowSum(a: nat, b: nat)
    ensures Pow2(a + b) == Pow2(a) * Pow2(b)
  {
    if a > 0 { PowSum(a - 1, b); }
  }

  lemma XorLosesNothing(a: Word, d: bv8, b: Word, e: bv8)
    requires XorByte(a, d) == XorByte(b, e)
    ensures a == b <==> d == e
  {
    hide BitOf, OneHot;
    var x, y := XorByte(a, d), XorByte(b, e);
    if d == e {
      forall i | 0 <= i < 64 ensures a[i] == b[i] { assert x[i] == y[i]; }
    } else if a == b {
      forall i | 0 <= i < 8 ensures BitOf(d, i) == BitOf(e, i) { assert x[i] == y[i]; }
      ByteExtensional(d, e);
    }
  }

  /** A step loses neither the state before it nor the byte. */
  lemma StepInvertible(a: Word, d: bv8, b: Word, e: bv8)
    requires Step(a, d) == Step(b, e)
    ensures a == b <==> d == e
  {
    hide Times, XorByte, BitOf;
    var x, y := XorByte(a, d), XorByte(b, e);
    SixtyFour();
    ToNatBound(x);
    ToNatBound(y);
    TimesBound(ToNat(x));
    TimesBound(ToNat(y));
    ToNatFromNat(Times(ToNat(x)), 64);
    ToNatFromNat(Times(ToNat(y)), 64);
    TimesInjective(ToNat(x), ToNat(y));
    ToNatInjective(x, y);
    XorLosesNothing(a, d, b, e);
  }

  lemma TimesBound(x: nat)
    ensures Times(x) < MODULUS
  {
  }

  /** Different states stay different whatever is sunk into both. */
  lemma {:induction false} SinkInjective(a: Word, b: Word, data: seq<bv8>)
    requires a != b
    ensures Sunk(a, data) != Sunk(b, data)
  {
    hide Step;
    if data != [] {
      var n := |data| - 1;
      SinkInjective(a, b, data[..n]);
      if Sunk(a, data) == Sunk(b, data) {
        StepInvertible(Sunk(a, data[..n]), data[n], Sunk(b, data[..n]), data[n]);
      }
    }
  }

  lemma SinkAround(a: Word, x: seq<bv8>, k: nat)
    requires k < |x|
    ensures Sunk(a, x) == Sunk(Step(Sunk(a, x[..k]), x[k]), x[k + 1..])
  {
    hide Step;
    assert x == x[..k + 1] + x[k + 1..];
    assert x[..k + 1][..k] == x[..k];
    SinkSplit(a, x[..k + 1], x[k + 1..]);
  }

  /** Two equally long buffers that differ in exactly one byte never collide. */
  lemma OneByteNeverCollides(x: seq<bv8>, y: seq<bv8>, k: nat)
    requires |x| == |y| && k < |x| && x[k] != y[k]
    requires forall i :: 0 <= i < |x| && i != k ==> x[i] == y[i]
    ensures OnePass(x) != OnePass(y)
  {
    hide Step, Sunk, FromNat;
    var a := Sunk(OFFSET_BASIS, x[..k]);
    assert x[..k] == y[..k] && x[k + 1..] == y[k + 1..];
    SinkAround(OFFSET_BASIS, x, k);
    SinkAround(OFFSET_BASIS, y, k);
    if Step(a, x[k]) == Step(a, y[k]) {
      StepInvertible(a, x[k], a, y[k]);
    }
    SinkInjective(Step(a, x[k]), Step(a, y[k]), x[k + 1..]);
  }

  class Hasher {
    var accum: Word

    /** theft_hash_init */
    constructor ()
      ensures accum == OFFSET_BASIS
    {
      accum := OFFSET_BASIS;
    }

    /** theft_hash_sink */
    method Sink(data: seq<bv8>)
      modifies this
      ensures accum == Sunk(old(accum), data)
    {
      hide Step;
      var a := accum;
      for i := 0 to |data|
        invariant a == Sunk(accum, data[..i]) && accum == old(accum)
      {
        assert data[..i + 1][..i] == data[..i];
        a := Step(a, data[i]);
      }
      assert data[..|data|] == data;
      accum := a;
    }

    /** theft_hash_done: hands out the hash and starts over. */
    method Done() returns (res: Word)
      modifies this
      ensures res == old(accum) && accum == OFFSET_BASIS
    {
      res := accum;
      accum := OFFSET_BASIS;
    }
  }

  /** theft_hash_onepass */
  method HashOnePass(data: seq<bv8>) returns (res: Word)
    ensures res == OnePass(data)
  {
    var h := new Hasher();
    h.Sink(data);
    res := h.Done();
  }

  // ----- The default hash of a pool -----

  /** `(1 << k) - 1`, as an 8-bit mask. */
  function LowMask(k: nat): bv8
    requires k < 8
  {
    if k == 0 then 0x00 else if k == 1 then 0x01 else if k == 2 then 0x03 else if k == 3 then 0x07
    else if k == 4 then 0x0F else if k == 5 then 0x1F else if k == 6 then 0x3F else 0x7F
  }

  lemma LowMaskBit(b: bv8, k: nat, j: nat)
    requires k < 8 && j < 8
    ensures BitOf(b & LowMask(k), j) == (j < k && BitOf(b, j))
  {
  }

  /** The bytes that carry the consumed bits, the last one masked. */
  function ConsumedBytes(bytes: seq<bv8>, consumed: nat): seq<bv8>
    requires consumed <= 8 * |bytes|
  {
    bytes[..consumed / 8] + (if consumed % 8 > 0 then [bytes[consumed / 8] & LowMask(consumed % 8)] else [])
  }

  function PoolHash(bytes: seq<bv8>, consumed: nat): Word
    requires consumed <= 8 * |bytes|
  {
    OnePass(ConsumedBytes(bytes, consumed))
  }

  /** theft_autoshrink_hash, for a type without a hash callback. */
  method AutoshrinkHash(pool: BitPool) returns (res: Word)
    requires pool.WellFormed()
    ensures res == PoolHash(pool.bits[..], pool.consumed)
  {
    hide Step, LowMask;
    var h := new Hasher();
    h.Sink(pool.bits[..pool.consumed / 8]);
    var remBits := pool.consumed % 8;
    if remBits > 0 {
      var lastByte := pool.bits[pool.consumed / 8];
      h.Sink([lastByte & LowMask(remBits)]);
    }
    res := h.Done();
    SinkSplit(OFFSET_BASIS, pool.bits[..pool.consumed / 8],
      if remBits > 0 then [pool.bits[pool.consumed / 8] & LowMask(remBits)] else []);
    assert pool.bits[..pool.consumed / 8] == pool.bits[..][..pool.consumed / 8];
  }

  lemma ConsumedBit(bytes: seq<bv8>, consumed: nat, i: nat)
    requires consumed <= 8 * |bytes|
    ensures PoolBit(ConsumedBytes(bytes, consumed), i) == (i < consumed && PoolBit(bytes, i))
  {
    hide BitOf, OneHot, LowMask;
    if consumed % 8 > 0 && i / 8 == consumed / 8 {
      LowMaskBit(bytes[consumed / 8], consumed % 8, i % 8);
    }
  }

  /** The hash depends on the consumed bits only. */
  lemma HashSeesConsumedBits(x: seq<bv8>, y: seq<bv8>, consumed: nat)
    requires consumed <= 8 * |x| && consumed <= 8 * |y|
    requires forall i: nat :: i < consumed ==> PoolBit(x, i) == PoolBit(y, i)
    ensures PoolHash(x, consumed) == PoolHash(y, consumed)
  {
    hide PoolBit, OnePass, LowMask;
    var a, b := ConsumedBytes(x, consumed), ConsumedBytes(y, consumed);
    forall i: nat | i < 8 * |a|
      ensures PoolBit(a, i) == PoolBit(b, i)
    {
      ConsumedBit(x, consumed, i);
      ConsumedBit(y, consumed, i);
    }
    BytesExtensional(a, b);
  }

  /** Pools that consumed equally much and differ only inside one byte have different default hashes. */
  lemma OneByteOfPoolNeverCollides(x: seq<bv8>, y: seq<bv8>, consumed: nat, at: nat)
    requires consumed <= 8 * |x| && consumed <= 8 * |y| && at < consumed
    requires PoolBit(x, at) != PoolBit(y, at)
    requires forall i: nat :: i < consumed && i / 8 != at / 8 ==> PoolBit(x, i) == PoolBit(y, i)
    ensures PoolHash(x, consumed) != PoolHash(y, consumed)
  {
    hide OnePass, LowMask, BitOf, OneHot;
    var a, b := ConsumedBytes(x, consumed), ConsumedBytes(y, consumed);
    ConsumedBit(x, consumed, at);
    ConsumedBit(y, consumed, at);
    assert a[at / 8] != b[at / 8];
    forall n | 0 <= n < |a| && n != at / 8
      ensures a[n] == b[n]
    {
      forall k | 0 <= k < 8
        ensures BitOf(a[n], k) == BitOf(b[n], k)
      {
        ConsumedBit(x, consumed, 8 * n + k);
        ConsumedBit(y, consumed, 8 * n + k);
      }
      ByteExtensional(a[n], b[n]);
    }
    OneByteNeverCollides(a, b, at / 8);
  }

  // ----- Published values -----

  /** FNV-1a of nothing is the offset basis; of the letter a, 0xaf63dc4c8601ec8c. */
  lemma PublishedHashes()
    ensures ToNat(OnePass([])) == 0xCBF2_9CE4_8422_2325
    ensures ToNat(OnePass([0x61])) == 0xAF63_DC4C_8601_EC8C
  {
    hide FromNat, ToNat, XorByte, Times;
    SixtyFour();
    ToNatFromNat(0xCBF2_9CE4_8422_2325, 64);
    assert [0x61 as bv8][..0] == [];
    XorOfA();
    ToNatFromNat(0xCBF2_9CE4_8422_2344, 64);
    assert Times(0xCBF2_9CE4_8422_2344) == 0xAF63_DC4C_8601_EC8C by { TimesOfA(); }
    ToNatFromNat(0xAF63_DC4C_8601_EC8C, 64);
  }

  lemma TimesOfA()
    ensures Times(0xCBF2_9CE4_8422_2344) == 0xAF63_DC4C_8601_EC8C
  {
  }

  /** Only the low byte changes: 0x25 becomes 0x44. */
  lemma XorOfA()
    ensures XorByte(OFFSET_BASIS, 0x61) == FromNat(0xCBF2_9CE4_8422_2344, 64)
  {
    hide BitOf, FromNat, Above;
    var a, b := FromNat(0xCBF2_9CE4_8422_2325, 64), FromNat(0xCBF2_9CE4_8422_2344, 64);
    WholeNumbers();
    LowBitsFirst(0xCB_F29C_E484_2223, 0x25, 8, 64);
    LowBitsFirst(0xCB_F29C_E484_2223, 0x44, 8, 64);
    BitsOfA();
    var x := XorByte(a, 0x61);
    forall i | 0 <= i < 64 ensures x[i] == b[i] {
      if i >= 8 { assert a[i] == FromNat(0xCB_F29C_E484_2223, 56)[i - 8] == b[i]; }
    }
    assert x == b;
  }

  lemma BitsOfA()
    ensures forall i :: 0 <= i < 8 ==> (FromNat(0x44, 8)[i] <==> FromNat(0x25, 8)[i] != BitOf(0x61, i))
  {
    Low25();
    Low44();
    LetterA();
    hide BitOf, FromNat;
  }

  lemma Low25()
    ensures FromNat(0x25, 8) == [true, false, true, false, false, true, false, false]
  {
  }

  lemma Low44()
    ensures FromNat(0x44, 8) == [false, false, true, false, false, false, true, false]
  {
  }

  lemma LetterA()
    ensures BitOf(0x61, 0) && !BitOf(0x61, 1) && !BitOf(0x61, 2) && !BitOf(0x61, 3)
    ensures !BitOf(0x61, 4) && BitOf(0x61, 5) && BitOf(0x61, 6) && !BitOf(0x61, 7)
  {
  }

  /** The number with the `n` low bits of `low` below those of `high`. */
  function Above(high: nat, low: nat, n: nat): nat {
    if n == 0 then high else 2 * Above(high, low / 2, n - 1) + low % 2
  }

  /** The low bits of a number come first. */
  lemma {:induction false} LowBitsFirst(high: nat, low: nat, n: nat, width: nat)
    requires n <= width
    ensures FromNat(Above(high, low, n), width) == FromNat(low, n) + FromNat(high, width - n)
  {
    if n > 0 {
      LowBitsFirst(high, low / 2, n - 1, width - 1);
    }
  }

  lemma WholeNumbers()
    ensures Above(0xCB_F29C_E484_2223, 0x25, 8) == 0xCBF2_9CE4_8422_2325
    ensures Above(0xCB_F29C_E484_2223, 0x44, 8) == 0xCBF2_9CE4_8422_2344
  {
    hide Above;
    assert Above(0xCB_F29C_E484_2223, 0, 0) == 0xCB_F29C_E484_2223 by { AboveNothing(0xCB_F29C_E484_2223); }
    AboveStep(0xCB_F29C_E484_2223, 0x25, 8);
    AboveStep(0xCB_F29C_E484_2223, 0x12, 7);
    AboveStep(0xCB_F29C_E484_2223, 0x9, 6);
    AboveStep(0xCB_F29C_E484_2223, 0x4, 5);
    AboveStep(0xCB_F29C_E484_2223, 0x2, 4);
    AboveStep(0xCB_F29C_E484_2223, 0x1, 3);
    AboveStep(0xCB_F29C_E484_2223, 0x0, 2);
    AboveStep(0xCB_F29C_E484_2223, 0x0, 1);
    AboveStep(0xCB_F29C_E484_2223, 0x44, 8);
    AboveStep(0xCB_F29C_E484_2223, 0x22, 7);
    AboveStep(0xCB_F29C_E484_2223, 0x11, 6);
    AboveStep(0xCB_F29C_E484_2223, 0x8, 5);
    AboveStep(0xCB_F29C_E484_2223, 0x4, 4);
    AboveStep(0xCB_F29C_E484_2223, 0x2, 3);
    AboveStep(0xCB_F29C_E484_2223, 0x1, 2);
    AboveStep(0xCB_F29C_E484_2223, 0x0, 1);
  }

  lemma AboveNothing(high: nat)
    ensures Above(high, 0, 0) == high
  {
  }

  lemma AboveStep(high: nat, low: nat, n: nat)
    requires n > 0
    ensures Above(high, low, n) == 2 * Above(high, low / 2, n - 1) + low % 2
  {
  }
}
