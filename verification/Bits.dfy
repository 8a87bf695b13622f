/**
Machine words as their bits, least significant first.

A C `uint64_t` that is shifted, masked and OR-ed is a `Word`: its 64 bits, with the
bitwise operators defined bit by bit. `ToNat` is the unsigned value, used
where the source compares or does arithmetic. Pool bytes are `bv8`, probed and set
with one-hot masks as in the source.
*/
module Bits {

  type Word = w: seq<bool> | |w| == 64 witness seq(64, _ => false)

  /** An infinite bit sequence: what a random bit source will deliver, from its start. */
  type Stream = nat -> bool

  datatype Option<+T> = None | Some(value: T)

  // ----- Words -----

  function Zeros(n: nat): (r: seq<bool>)
    ensures |r| == n && forall i :: 0 <= i < n ==> !r[i]
  {
    seq(n, _ => false)
  }

  const ZERO: Word := seq(64, _ => false)

  function Or(a: Word, b: Word): (r: Word) {
    seq(64, i requires 0 <= i < 64 => a[i] || b[i])
  }

  function And(a: Word, b: Word): (r: Word) {
    seq(64, i requires 0 <= i < 64 => a[i] && b[i])
  }

  /** `w << k` */
  function Shl(w: Word, k: nat): (r: Word) {
    seq(64, i requires 0 <= i < 64 => i >= k && w[i - k])
  }

  /** `w >> k` */
  function Shr(w: Word, k: nat): (r: Word) {
    seq(64, i requires 0 <= i < 64 => i + k < 64 && w[i + k])
  }

  /** The mask of the low `k` bits; all ones when k is 64. */
  function Mask(k: nat): (r: Word)
    requires k <= 64
  {
    seq(64, i requires 0 <= i < 64 => i < k)
  }

  /** Bit `j` of an array of words. */
  predicate BitAt(ws: seq<Word>, j: nat)
    requires j < 64 * |ws|
  {
    ws[j / 64][j % 64]
  }

  /** How many 64-bit words hold `n` bits. */
  function WordsFor(n: nat): nat {
    n / 64 + (if n % 64 == 0 then 0 else 1)
  }

  /** The `n` low bits of a hardware word, least significant first. */
  function Unpack(x: bv64, n: nat): (r: seq<bool>)
    ensures |r| == n
  {
    if n == 0 then [] else [x & 1 == 1] + Unpack(x >> 1, n - 1)
  }

  // ----- Hardware words and bit sequences -----

  /** The lowest bit of a hardware word. */
  function LowBit(x: bv64): bv64 {
    x & 1
  }

  function Halve(x: bv64): bv64 {
    x >> 1
  }

  function Double(x: bv64): bv64 {
    x << 1
  }

  function Join(low: bv64, rest: bv64): bv64 {
    low | rest
  }

  function KeepBits(x: bv64, mask: bv64): bv64 {
    x & mask
  }

  /** The hardware word made of bits, least significant first. */
  function Rebuild(bits: seq<bool>): bv64 {
    if bits == [] then 0 else Join(if bits[0] then 1 else 0, Double(Rebuild(bits[1..])))
  }

  /** The mask of the `n` low bits; all ones from 64 on. */
  function LowOnes(n: nat): bv64 {
    if n == 0 then 0 else Join(1, Double(LowOnes(n - 1)))
  }

  /** Unpacking and rebuilding gives back the `n` low bits: bit 0 of a word comes first. */
  lemma {:induction false} UnpackRebuilds(x: bv64, n: nat)
    ensures Rebuild(Unpack(x, n)) == KeepBits(x, LowOnes(n))
  {
    if n == 0 {
      NothingKept(x);
    } else {
      UnpackRebuilds(Halve(x), n - 1);
      UnpackStep(x, n);
      hide LowBit, Halve, Double, Join, KeepBits, Unpack, Rebuild, LowOnes;
      assert Unpack(x, n)[1..] == Unpack(Halve(x), n - 1);
      RebuildStep(Unpack(x, n));
      KeepStep(x, LowOnes(n - 1));
      OnesStep(n);
    }
  }

  lemma NothingKept(x: bv64)
    ensures KeepBits(x, 0) == 0
  {
  }

  lemma UnpackStep(x: bv64, n: nat)
    requires n > 0
    ensures Unpack(x, n) == [LowBit(x) == 1] + Unpack(Halve(x), n - 1)
  {
  }

  lemma RebuildStep(bits: seq<bool>)
    requires bits != []
    ensures Rebuild(bits) == Join(if bits[0] then 1 else 0, Double(Rebuild(bits[1..])))
  {
  }

  lemma OnesStep(n: nat)
    requires n > 0
    ensures LowOnes(n) == Join(1, Double(LowOnes(n - 1)))
  {
  }

  lemma KeepStep(x: bv64, l: bv64)
    ensures KeepBits(x, Join(1, Double(l))) == Join(if LowBit(x) == 1 then 1 else 0, Double(KeepBits(Halve(x), l)))
  {
    hide LowBit, Halve, Double, Join, KeepBits;
    KeepSplit(x, l);
    LowIsOne(x);
  }

  lemma KeepSplit(x: bv64, l: bv64)
    ensures KeepBits(x, Join(1, Double(l))) == Join(LowBit(x), Double(KeepBits(Halve(x), l)))
  {
    KeepShifted(x, l);
  }

  lemma KeepShifted(x: bv64, l: bv64)
    ensures x & (1 | (l << 1)) == (x & 1) | (((x >> 1) & l) << 1)
  {
  }

  lemma LowIsOne(x: bv64)
    ensures LowBit(x) == if LowBit(x) == 1 then 1 else 0
  {
  }

  /** A longer unpacking begins with the shorter one. */
  lemma {:induction false} UnpackPrefix(x: bv64, n: nat, m: nat)
    requires n <= m
    ensures Unpack(x, m)[..n] == Unpack(x, n)
  {
    if n > 0 {
      UnpackStep(x, m);
      UnpackStep(x, n);
      UnpackPrefix(Halve(x), n - 1, m - 1);
      hide LowBit, Halve, Unpack;
      var a, b := Unpack(x, m), Unpack(x, n);
      assert a[..n] == [a[0]] + Unpack(Halve(x), m - 1)[..n - 1];
    }
  }

  lemma AllOnesKept(x: bv64)
    ensures KeepBits(x, LowOnes(64)) == x
  {
    assert LowOnes(64) == 0xFFFF_FFFF_FFFF_FFFF by { SixtyFourOnes(); }
  }

  lemma SixtyFourOnes()
    ensures LowOnes(64) == 0xFFFF_FFFF_FFFF_FFFF
  {
    assert LowOnes(8) == 0xFF;
    assert LowOnes(16) == 0xFFFF;
    assert LowOnes(24) == 0xFF_FFFF;
    assert LowOnes(32) == 0xFFFF_FFFF;
    assert LowOnes(40) == 0xFF_FFFF_FFFF;
    assert LowOnes(48) == 0xFFFF_FFFF_FFFF;
    assert LowOnes(56) == 0xFF_FFFF_FFFF_FFFF;
  }

  // ----- Streams -----

  /** The `n` bits of `s` from `pos` on. */
  function Slice(s: Stream, pos: nat, n: nat): (r: seq<bool>)
    ensures |r| == n
    ensures forall i :: 0 <= i < n ==> r[i] == s(pos + i)
  {
    seq(n, i requires 0 <= i < n => s(pos + i))
  }

  lemma SliceConcat(s: Stream, pos: nat, m: nat, n: nat)
    ensures Slice(s, pos, m) + Slice(s, pos + m, n) == Slice(s, pos, m + n)
  {
    var left, right := Slice(s, pos, m) + Slice(s, pos + m, n), Slice(s, pos, m + n);
    forall i | 0 <= i < m + n
      ensures left[i] == right[i]
    {
      if i >= m { assert left[i] == s(pos + m + (i - m)); }
    }
  }

  lemma SliceEqual(s: Stream, t: Stream, pos: nat, n: nat)
    requires forall i :: pos <= i < pos + n ==> s(i) == t(i)
    ensures Slice(s, pos, n) == Slice(t, pos, n)
  {
    assert forall i :: 0 <= i < n ==> Slice(s, pos, n)[i] == Slice(t, pos, n)[i];
  }

  // ----- Values -----

  function Pow2(n: nat): (r: nat)
    ensures r > 0
  {
    if n == 0 then 1 else 2 * Pow2(n - 1)
  }

  /** The unsigned value of a bit sequence. */
  function ToNat(b: seq<bool>): nat {
    if b == [] then 0 else (if b[0] then 1 else 0) + 2 * ToNat(b[1..])
  }

  /** The low `width` bits of `n`. */
  function FromNat(n: nat, width: nat): (r: seq<bool>)
    ensures |r| == width
  {
    if width == 0 then [] else [n % 2 == 1] + FromNat(n / 2, width - 1)
  }

  lemma {:induction false} ToNatFromNat(n: nat, width: nat)
    requires n < Pow2(width)
    ensures ToNat(FromNat(n, width)) == n
  {
    if width > 0 {
      ToNatFromNat(n / 2, width - 1);
      assert FromNat(n, width)[1..] == FromNat(n / 2, width - 1);
    }
  }

  lemma {:induction false} ToNatBound(b: seq<bool>)
    ensures ToNat(b) < Pow2(|b|)
  {
    if b != [] { ToNatBound(b[1..]); }
  }

  /** Equally long bit sequences with the same value are equal. */
  lemma {:induction false} ToNatInjective(a: seq<bool>, b: seq<bool>)
    requires |a| == |b| && ToNat(a) == ToNat(b)
    ensures a == b
  {
    if a != [] {
      assert a[0] == b[0];
      ToNatInjective(a[1..], b[1..]);
      assert a == [a[0]] + a[1..] && b == [b[0]] + b[1..];
    }
  }

  lemma {:induction false} ToNatZeros(n: nat)
    ensures ToNat(Zeros(n)) == 0
  {
    if n > 0 {
      ToNatZeros(n - 1);
      assert Zeros(n)[1..] == Zeros(n - 1);
    }
  }

  lemma {:induction false} ToNatPad(b: seq<bool>, k: nat)
    ensures ToNat(b + Zeros(k)) == ToNat(b)
  {
    if b == [] {
      ToNatZeros(k);
      assert b + Zeros(k) == Zeros(k);
    } else {
      ToNatPad(b[1..], k);
      assert (b + Zeros(k))[1..] == b[1..] + Zeros(k);
    }
  }

  /** Clearing bits never raises a value. */
  lemma {:induction false} ToNatSubset(a: seq<bool>, b: seq<bool>)
    requires |a| == |b| && forall i :: 0 <= i < |a| && a[i] ==> b[i]
    ensures ToNat(a) <= ToNat(b)
  {
    if a != [] {
      forall i | 0 <= i < |a| - 1 && a[1..][i] ensures b[1..][i] { assert a[i + 1]; }
      ToNatSubset(a[1..], b[1..]);
    }
  }

  lemma {:induction false} ToNatDrop(b: seq<bool>, k: nat)
    requires k <= |b|
    ensures ToNat(b[k..]) <= ToNat(b)
  {
    if k == 0 {
      assert b[k..] == b;
    } else {
      ToNatDrop(b[1..], k - 1);
      assert b[1..][k - 1..] == b[k..];
    }
  }

  /** Two numbers that differ in one block only compare as those blocks compare. */
  lemma {:induction false} ToNatMiddle(low: seq<bool>, x: seq<bool>, y: seq<bool>, high: seq<bool>)
    requires |x| == |y|
    ensures ToNat(low + x + high) < ToNat(low + y + high) <==> ToNat(x) < ToNat(y)
  {
    if low != [] {
      ToNatMiddle(low[1..], x, y, high);
      assert (low + x + high)[1..] == low[1..] + x + high;
      assert (low + y + high)[1..] == low[1..] + y + high;
    } else {
      assert low + x + high == x + high && low + y + high == y + high;
      ToNatTop(x, y, high);
    }
  }

  lemma {:induction false} ToNatTop(x: seq<bool>, y: seq<bool>, high: seq<bool>)
    requires |x| == |y|
    ensures ToNat(x + high) - ToNat(y + high) == ToNat(x) - ToNat(y)
  {
    if x != [] {
      ToNatTop(x[1..], y[1..], high);
      assert (x + high)[1..] == x[1..] + high;
      assert (y + high)[1..] == y[1..] + high;
    } else {
      assert x == y;
    }
  }

  // ----- Bytes -----

  /** `1 << k`, as an 8-bit mask. */
  function OneHot(k: nat): bv8
    requires k < 8
  {
    if k == 0 then 0x01 else if k == 1 then 0x02 else if k == 2 then 0x04 else if k == 3 then 0x08
    else if k == 4 then 0x10 else if k == 5 then 0x20 else if k == 6 then 0x40 else 0x80
  }

  predicate BitOf(b: bv8, k: nat)
    requires k < 8
  {
    b & OneHot(k) != 0
  }

  /** The mask that walks along a byte: after bit 7 it becomes 0. */
  lemma OneHotStep(k: nat)
    requires k < 8
    ensures k < 7 ==> OneHot(k) << 1 == OneHot(k + 1) && OneHot(k) << 1 != 0
    ensures k == 7 ==> OneHot(k) << 1 == 0
  {
  }

  lemma SetBit(b: bv8, k: nat, j: nat)
    requires k < 8 && j < 8
    ensures BitOf(b | OneHot(k), j) == (j == k || BitOf(b, j))
  {
  }

  lemma ClearBit(b: bv8, k: nat, j: nat)
    requires k < 8 && j < 8
    ensures BitOf(b & !OneHot(k), j) == (j != k && BitOf(b, j))
  {
  }

  lemma ZeroByte(b: bv8)
    ensures b == 0 <==> forall k :: 0 <= k < 8 ==> !BitOf(b, k)
  {
    if b != 0 {
      assert BitOf(b, 0) || BitOf(b, 1) || BitOf(b, 2) || BitOf(b, 3)
        || BitOf(b, 4) || BitOf(b, 5) || BitOf(b, 6) || BitOf(b, 7);
    }
  }

  /** A byte is determined by its bits. */
  lemma ByteExtensional(a: bv8, b: bv8)
    requires forall k :: 0 <= k < 8 ==> BitOf(a, k) == BitOf(b, k)
    ensures a == b
  {
    assert BitOf(a, 0) == BitOf(b, 0) && BitOf(a, 1) == BitOf(b, 1) && BitOf(a, 2) == BitOf(b, 2)
      && BitOf(a, 3) == BitOf(b, 3) && BitOf(a, 4) == BitOf(b, 4) && BitOf(a, 5) == BitOf(b, 5)
      && BitOf(a, 6) == BitOf(b, 6) && BitOf(a, 7) == BitOf(b, 7);
  }

  /** The byte made of eight bits, least significant first. */
  function Pack(bits: seq<bool>): bv8
    requires |bits| == 8
  {
    (if bits[0] then 0x01 else 0) | (if bits[1] then 0x02 else 0) | (if bits[2] then 0x04 else 0)
    | (if bits[3] then 0x08 else 0) | (if bits[4] then 0x10 else 0) | (if bits[5] then 0x20 else 0)
    | (if bits[6] then 0x40 else 0) | (if bits[7] then 0x80 else 0)
  }

  lemma PackBit(bits: seq<bool>, k: nat)
    requires |bits| == 8 && k < 8
    ensures BitOf(Pack(bits), k) == bits[k]
  {
  }

  /** Bit `i` of a byte buffer; false past its end. */
  predicate PoolBit(bytes: seq<bv8>, i: nat) {
    i / 8 < |bytes| && BitOf(bytes[i / 8], i % 8)
  }

  /** A byte buffer as a bit stream. */
  function BitsOf(bytes: seq<bv8>): Stream {
    (i: nat) => PoolBit(bytes, i)
  }

  /** The little-endian 64-bit word at word index `j`. */
  function LoadWord(bytes: seq<bv8>, j: nat): Word
    requires 8 * j + 8 <= |bytes|
  {
    seq(64, k requires 0 <= k < 64 => BitOf(bytes[8 * j + k / 8], k % 8))
  }

  lemma LoadWordBit(bytes: seq<bv8>, j: nat, k: nat)
    requires 8 * j + 8 <= |bytes| && k < 64
    ensures LoadWord(bytes, j)[k] == PoolBit(bytes, 64 * j + k)
  {
    assert (64 * j + k) / 8 == 8 * j + k / 8;
    assert (64 * j + k) % 8 == k % 8;
  }

  /** Two equally long buffers with the same bits are equal. */
  lemma BytesExtensional(a: seq<bv8>, b: seq<bv8>)
    requires |a| == |b|
    requires forall i: nat :: i < 8 * |a| ==> PoolBit(a, i) == PoolBit(b, i)
    ensures a == b
  {
    forall n | 0 <= n < |a|
      ensures a[n] == b[n]
    {
      forall k | 0 <= k < 8
        ensures BitOf(a[n], k) == BitOf(b[n], k)
      {
        assert PoolBit(a, 8 * n + k) == PoolBit(b, 8 * n + k);
      }
      ByteExtensional(a[n], b[n]);
    }
  }
}
