/**
The byte-wise side of the bit pool (src/theft_autoshrink.c): reading and writing runs of bits
at any bit offset, the cached index of request offsets, and truncation of trailing zero bytes.
*/
module PoolEdit {
  import opened Bits
  import opened BitPool

  /** read_bits_at_offset: walks the bytes with a one-hot mask. */
  method ReadBitsAtOffset(pool: BitPool, bitOffset: nat, size: nat) returns (acc: Word)
    requires size <= 64 && bitOffset + size <= 8 * pool.bits.Length
    ensures acc[..size] == Slice(BitsOf(pool.bits[..]), bitOffset, size)
    ensures acc[size..] == Zeros(64 - size)
  {
    hide OneHot, BitOf, Slice, PoolBit;
    var byte, mask := bitOffset / 8, OneHot(bitOffset % 8);
    acc := ZERO;
    ghost var s := BitsOf(pool.bits[..]);
    for i := 0 to size
      invariant byte == (bitOffset + i) / 8 && mask == OneHot((bitOffset + i) % 8)
      invariant forall j :: 0 <= j < 64 ==> acc[j] == (j < i && s(bitOffset + j))
    {
      MaskReads(pool.bits[..], bitOffset + i);
      if pool.bits[byte] & mask != 0 {
        acc := acc[i := true];
      }
      OneHotStep((bitOffset + i) % 8);
      mask := mask << 1;
      if mask == 0 {
        byte := byte + 1;
        mask := 0x01;
      }
      MaskStart();
    }
    assert acc[..size] == Slice(s, bitOffset, size);
  }

  lemma MaskReads(bytes: seq<bv8>, i: nat)
    requires i / 8 < |bytes|
    ensures (bytes[i / 8] & OneHot(i % 8) != 0) == PoolBit(bytes, i)
  {
  }

  lemma MaskStart()
    ensures OneHot(0) == 0x01
  {
  }

  /** Bits `from` to `from + size` of a buffer are those of `value`; the rest are as `before`. */
  ghost predicate Written(before: seq<bv8>, after: seq<bv8>, from: nat, size: nat, value: seq<bool>)
    requires size <= |value|
  {
    && |after| == |before|
    && forall i: nat ::
      PoolBit(after, i) == if from <= i < from + size then value[i - from] else PoolBit(before, i)
  }

  /** Sets or clears the masked bit of a byte. */
  function Put(b: bv8, mask: bv8, on: bool): bv8 {
    if on then b | mask else b & !mask
  }

  lemma BitWritten(before: seq<bv8>, was: seq<bv8>, now: seq<bv8>, from: nat, i: nat, value: seq<bool>)
    requires i < |value| && (from + i) / 8 < |was|
    requires Written(before, was, from, i, value)
    requires now == was[(from + i) / 8 :=
      Put(was[(from + i) / 8], OneHot((from + i) % 8), value[i])]
    ensures Written(before, now, from, i + 1, value)
  {
    hide OneHot, BitOf, Put;
    var byte, bit := (from + i) / 8, (from + i) % 8;
    forall n: nat
      ensures PoolBit(now, n) == if from <= n < from + i + 1 then value[n - from] else PoolBit(before, n)
    {
      if n / 8 == byte {
        PutBit(was[byte], bit, value[i], n % 8);
        assert n == from + i <==> n % 8 == bit;
        assert PoolBit(now, n) == if n == from + i then value[i] else PoolBit(was, n);
      } else {
        assert PoolBit(now, n) == PoolBit(was, n);
      }
    }
  }

  lemma PutBit(b: bv8, k: nat, on: bool, i: nat)
    requires k < 8 && i < 8
    ensures BitOf(Put(b, OneHot(k), on), i) == if i == k then on else BitOf(b, i)
  {
    hide OneHot, BitOf;
    SetBit(b, k, i);
    ClearBit(b, k, i);
  }

  /** write_bits_at_offset */
  method WriteBitsAtOffset(pool: BitPool, bitOffset: nat, size: nat, value: Word)
    requires size <= 64 && bitOffset + size <= 8 * pool.bits.Length
    modifies pool.bits
    ensures Written(old(pool.bits[..]), pool.bits[..], bitOffset, size, value)
  {
    hide OneHot, BitOf, Written, PoolBit, Put;
    var byte, mask := bitOffset / 8, OneHot(bitOffset % 8);
    NothingWritten(pool.bits[..], bitOffset, value);
    for i := 0 to size
      invariant byte == (bitOffset + i) / 8 && mask == OneHot((bitOffset + i) % 8)
      invariant Written(old(pool.bits[..]), pool.bits[..], bitOffset, i, value)
    {
      ghost var was := pool.bits[..];
      pool.bits[byte] := Put(pool.bits[byte], mask, value[i]);
      BitWritten(old(pool.bits[..]), was, pool.bits[..], bitOffset, i, value);
      OneHotStep((bitOffset + i) % 8);
      mask := mask << 1;
      if mask == 0 {
        byte := byte + 1;
        mask := 0x01;
      }
      MaskStart();
    }
  }

  lemma NothingWritten(before: seq<bv8>, from: nat, value: seq<bool>)
    ensures Written(before, before, from, 0, value)
  {
  }

  /** Writing back what was read changes no byte. */
  lemma WriteBackIsIdentity(before: seq<bv8>, after: seq<bv8>, from: nat, size: nat, value: seq<bool>)
    requires size <= |value| && from + size <= 8 * |before|
    requires Written(before, after, from, size, value)
    requires value[..size] == Slice(BitsOf(before), from, size)
    ensures after == before
  {
    forall i: nat | i < 8 * |before|
      ensures PoolBit(after, i) == PoolBit(before, i)
    {
      if from <= i < from + size { assert value[..size][i - from] == PoolBit(before, from + (i - from)); }
    }
    BytesExtensional(after, before);
  }

  /** build_index: caches the offset of every request, once. */
  method BuildIndex(pool: BitPool)
    requires pool.WellFormed()
    modifies pool`index
    ensures pool.WellFormed() && pool.index.Some? && IsIndex(pool.index.value, pool.requests)
    ensures old(pool.Valid()) ==> pool.Valid()
  {
    if pool.index == None {
      var index: seq<nat>, total := [], 0;
      for i := 0 to |pool.requests|
        invariant IsIndex(index, pool.requests[..i]) && total == Sum(pool.requests[..i])
      {
        IndexStep(index, pool.requests, i);
        index := index + [total];
        total := total + pool.requests[i];
      }
      assert pool.requests[..|pool.requests|] == pool.requests;
      pool.index := Some(index);
    }
  }

  lemma IndexStep(index: seq<nat>, requests: seq<nat>, i: nat)
    requires i < |requests| && IsIndex(index, requests[..i])
    ensures IsIndex(index + [Sum(requests[..i])], requests[..i + 1])
    ensures Sum(requests[..i + 1]) == Sum(requests[..i]) + requests[i]
  {
    assert requests[..i + 1][..i] == requests[..i];
    forall k | 0 <= k < i
      ensures index[k] == Sum(requests[..i + 1][..k])
    {
      assert requests[..i + 1][..k] == requests[..i][..k];
    }
  }

  /** No bit is set at or past `from`. */
  predicate ZeroFrom(bytes: seq<bv8>, from: nat) {
    forall i: nat :: from <= i < 8 * |bytes| ==> !PoolBit(bytes, i)
  }

  /**
  truncate_trailing_zero_bytes: drops zero bytes from the end. What any later run of requests will be given, the
  pool's bits up to its limit and then zeroes, stays the same.
  */
  method TruncateTrailingZeroBytes(pool: BitPool)
    requires pool.WellFormed() && ZeroFrom(pool.bits[..], pool.bitsFilled)
    requires pool.consumed == 0
    modifies pool`bitsFilled, pool`limit
    ensures pool.WellFormed() && pool.bitsFilled % 8 == 0 && pool.limit <= pool.bitsFilled
    ensures pool.limit == Least(old(pool.limit), pool.bitsFilled)
    ensures pool.bitsFilled < old(pool.bitsFilled) + 8
    ensures old(pool.bitsFilled) % 8 == 0 ==> pool.bitsFilled <= old(pool.bitsFilled)
    ensures pool.bitsFilled > 0 ==> pool.bits[pool.bitsFilled / 8 - 1] != 0
    ensures ZeroFrom(pool.bits[..], pool.bitsFilled)
    ensures forall i: nat ::
      ZeroExtended(pool.bits[..], pool.limit)(i) == old(ZeroExtended(pool.bits[..], pool.limit))(i)
  {
    hide OneHot, BitOf;
    var byteSize := pool.bitsFilled / 8 + (if pool.bitsFilled % 8 == 0 then 0 else 1);
    var i: nat := byteSize;
    while i > 0 && pool.bits[i - 1] == 0x00
      invariant i <= byteSize && ZeroFrom(pool.bits[..], 8 * i)
    {
      forall n: nat | 8 * (i - 1) <= n < 8 * i
        ensures !PoolBit(pool.bits[..], n)
      {
        ZeroByte(pool.bits[i - 1]);
        assert n / 8 == i - 1;
      }
      i := i - 1;
    }
    pool.bitsFilled := 8 * i;
    if pool.limit > pool.bitsFilled {
      pool.limit := pool.bitsFilled;
    }
  }
}
