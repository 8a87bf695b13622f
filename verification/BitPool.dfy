/**
The autoshrink bit pool of src/theft_autoshrink.c: a byte buffer that remembers the
random bits an alloc callback consumed, and in what request sizes.
*/
module BitPool {
  import opened Bits
  import Rng

  const DEF_POOL_LIMIT: nat := 0xFFFF_FFFF_FFFF_FFFF

  const DEF_POOL_SIZE: nat := 64 * 8 * 8

  // ----- Requests -----

  function Sum(requests: seq<nat>): nat {
    if requests == [] then 0 else Sum(requests[..|requests| - 1]) + requests[|requests| - 1]
  }

  /** The running totals of the requests before each one. */
  predicate IsIndex(index: seq<nat>, requests: seq<nat>) {
    && |index| == |requests|
    && forall i :: 0 <= i < |index| ==> index[i] == Sum(requests[..i])
  }

  predicate AllPositive(requests: seq<nat>) {
    forall i :: 0 <= i < |requests| ==> requests[i] > 0
  }

  lemma {:induction false} SumMonotone(requests: seq<nat>, i: nat, j: nat)
    requires i <= j <= |requests|
    ensures Sum(requests[..i]) <= Sum(requests[..j])
    decreases j
  {
    if i < j {
      SumMonotone(requests, i, j - 1);
      assert requests[..j][..j - 1] == requests[..j - 1];
    }
  }

  /** Request `i` ends where request i + 1 begins, and inside the consumed bits. */
  lemma RequestInside(requests: seq<nat>, i: nat)
    requires i < |requests|
    ensures Sum(requests[..i]) + requests[i] == Sum(requests[..i + 1])
    ensures Sum(requests[..i + 1]) <= Sum(requests)
  {
    assert requests[..i + 1][..i] == requests[..i];
    SumMonotone(requests, i + 1, |requests|);
    assert requests[..|requests|] == requests;
  }

  /** The value of request `i` of a buffer: the number its alloc callback was given. */
  function RequestBits(bytes: seq<bv8>, requests: seq<nat>, i: nat): (r: seq<bool>)
    requires i < |requests|
  {
    Slice(BitsOf(bytes), Sum(requests[..i]), requests[i])
  }

  /** The values of all requests, in order. */
  function Values(bytes: seq<bv8>, requests: seq<nat>): (r: seq<nat>)
    ensures |r| == |requests|
  {
    seq(|requests|, i requires 0 <= i < |requests| => ToNat(RequestBits(bytes, requests, i)))
  }

  // ----- What a pool will deliver -----

  function Least(a: nat, b: nat): nat {
    if a < b then a else b
  }

  /** Bit `i` of the generator's output words, taken in order from seeding. */
  function RngBit(seed: bv64, i: nat): bool {
    Unpack(Rng.Output(seed, i / 64), 64)[i % 64]
  }

  /** The bits a shrunk pool delivers: its own up to `limit`, then zeroes for ever. */
  function ZeroExtended(bytes: seq<bv8>, limit: nat): Stream {
    (i: nat) => i < limit && PoolBit(bytes, i)
  }

  /** How serving `n` more bits moves the consumed count and the request record, for a pool cut off at `limit`. */
  predicate Served(consumed: nat, requests: seq<nat>, limit: nat, n: nat, consumed': nat, requests': seq<nat>)
    requires consumed <= limit
  {
    if n == 0 || consumed == limit then consumed' == consumed && requests' == requests
    else consumed' == consumed + Least(n, limit - consumed) && requests' == requests + [Least(n, limit - consumed)]
  }

  /**
  What a request for `n` bits leaves in its destination. Within the words the request reaches before the
  limit: the stream, then zeroes. An exhausted pool only clears one BYTE for each word asked for,
  as the source's memset does. All other words keep what they held.
  */
  ghost predicate Delivered(s: Stream, consumed: nat, limit: nat, n: nat, before: seq<Word>, after: seq<Word>)
    requires consumed <= limit && n <= 64 * |before|
  {
    && |after| == |before|
    && if n == 0 then after == before
       else if consumed == limit then
         forall j :: 0 <= j < 64 * |before| ==> BitAt(after, j) == (j >= 8 * WordsFor(n) && BitAt(before, j))
       else
         var count := Least(n, limit - consumed);
         && (forall j :: 0 <= j < 64 * WordsFor(count) ==> BitAt(after, j) == (j < count && s(consumed + j)))
         && (forall w :: WordsFor(count) <= w < |before| ==> after[w] == before[w])
  }

  lemma NothingDelivered(s: Stream, consumed: nat, limit: nat, before: seq<Word>)
    requires consumed <= limit
    ensures Delivered(s, consumed, limit, 0, before, before)
  {
  }

  lemma ExhaustedDelivers(s: Stream, limit: nat, n: nat, before: seq<Word>, after: seq<Word>)
    requires 0 < n <= 64 * |before| && |after| == |before|
    requires forall j :: 0 <= j < 64 * |before| ==> BitAt(after, j) == (j >= 8 * WordsFor(n) && BitAt(before, j))
    ensures Delivered(s, limit, limit, n, before, after)
  {
  }

  lemma ClippedDelivers(s: Stream, consumed: nat, limit: nat, n: nat, before: seq<Word>, after: seq<Word>)
    requires 0 < n <= 64 * |before| && consumed < limit
    requires Delivered(s, consumed, limit, Least(n, limit - consumed), before, after)
    ensures Delivered(s, consumed, limit, n, before, after)
  {
  }

  /** One word-sized piece lands at bit `i` of the destination and disturbs nothing else. */
  lemma PieceCopied(bytes: seq<bv8>, was: seq<Word>, now: seq<Word>, consumed: nat, i: nat, toCopy: nat,
                    srcOffset: nat, srcBit: nat)
    requires i / 64 < |was| && i % 64 + toCopy <= 64 && srcBit + toCopy <= 64 && srcBit < 64
    requires 8 * srcOffset + 8 <= |bytes| && 64 * srcOffset + srcBit == consumed + i
    requires now == was[i / 64 := Or(was[i / 64],
      Shl(And(Shr(LoadWord(bytes, srcOffset), srcBit), Mask(toCopy)), i % 64))]
    ensures forall j :: 0 <= j < 64 * |was| ==>
      BitAt(now, j) == (BitAt(was, j) || (i <= j < i + toCopy && PoolBit(bytes, consumed + j)))
  {
    forall j | 0 <= j < 64 * |was|
      ensures BitAt(now, j) == (BitAt(was, j) || (i <= j < i + toCopy && PoolBit(bytes, consumed + j)))
    {
      if i <= j < i + toCopy {
        assert j / 64 == i / 64 && j % 64 == i % 64 + (j - i);
        LoadWordBit(bytes, srcOffset, srcBit + (j - i));
      } else if j / 64 == i / 64 {
        assert j % 64 - i % 64 == j - i;
      }
    }
  }

  /** The word with its bits below `k` cleared. */
  function KeepFrom(w: Word, k: int): Word {
    seq(64, i requires 0 <= i < 64 => i >= k && w[i])
  }

  /** memset(buf, 0, n) */
  method ClearBytes(buf: array<Word>, n: nat)
    requires n <= 8 * buf.Length
    modifies buf
    ensures forall j :: 0 <= j < 64 * buf.Length ==> BitAt(buf[..], j) == (j >= 8 * n && old(BitAt(buf[..], j)))
  {
    forall w | 0 <= w < buf.Length {
      buf[w] := KeepFrom(buf[w], 8 * n - 64 * w);
    }
  }

  /** How many destination words are cleared once `i` of `n` bits are copied. */
  function Cleared(i: nat, n: nat): nat {
    if i < n then i / 64 + 1 else WordsFor(i)
  }

  /** fill_buf after `i` of `n` bits: the bits copied so far, then zeroes to the end of the cleared words, the rest untouched. */
  ghost predicate Copied(bytes: seq<bv8>, consumed: nat, before: seq<Word>, now: seq<Word>, i: nat, n: nat) {
    && |now| == |before| && Cleared(i, n) <= |now|
    && (forall j :: 0 <= j < 64 * Cleared(i, n) ==> BitAt(now, j) == (j < i && PoolBit(bytes, consumed + j)))
    && (forall w :: Cleared(i, n) <= w < |now| ==> now[w] == before[w])
  }

  lemma CopyStarts(bytes: seq<bv8>, consumed: nat, before: seq<Word>, n: nat)
    requires 0 < n <= 64 * |before|
    ensures Copied(bytes, consumed, before, before[0 := ZERO], 0, n)
  {
  }

  lemma CopyStep(bytes: seq<bv8>, before: seq<Word>, was: seq<Word>, now: seq<Word>, consumed: nat,
                 i: nat, n: nat, toCopy: nat, srcOffset: nat, srcBit: nat)
    requires i < n <= 64 * |before| && Copied(bytes, consumed, before, was, i, n)
    requires 0 < toCopy <= n - i && i % 64 + toCopy <= 64 && srcBit + toCopy <= 64 && srcBit < 64
    requires 8 * srcOffset + 8 <= |bytes| && 64 * srcOffset + srcBit == consumed + i
    requires now == was[i / 64 := Or(was[i / 64],
      Shl(And(Shr(LoadWord(bytes, srcOffset), srcBit), Mask(toCopy)), i % 64))]
    ensures i % 64 + toCopy == 64 && i + toCopy < n ==>
      (i / 64 + 1 == (i + toCopy) / 64 < |now|
      && Copied(bytes, consumed, before, now[i / 64 + 1 := ZERO], i + toCopy, n))
    ensures !(i % 64 + toCopy == 64 && i + toCopy < n) ==> Copied(bytes, consumed, before, now, i + toCopy, n)
    ensures (i + toCopy) / 64 == i / 64 + (if i % 64 + toCopy == 64 then 1 else 0)
  {
    PieceCopied(bytes, was, now, consumed, i, toCopy, srcOffset, srcBit);
    hide Or, And, Shl, Shr, Mask, LoadWord, PoolBit;
    var next := i + toCopy;
    assert next % 64 == if i % 64 + toCopy == 64 then 0 else i % 64 + toCopy;
    if i % 64 + toCopy == 64 && next < n {
      assert Cleared(next, n) == Cleared(i, n) + 1;
      var zeroed := now[i / 64 + 1 := ZERO];
      forall j | 0 <= j < 64 * Cleared(next, n)
        ensures BitAt(zeroed, j) == (j < next && PoolBit(bytes, consumed + j))
      {
        if j < next { assert BitAt(zeroed, j) == BitAt(now, j); }
      }
    } else {
      assert Cleared(next, n) == Cleared(i, n);
    }
  }

  /** A finished fill_buf delivers, if the bits copied are the stream's. */
  lemma CopiedDelivers(s: Stream, bytes: seq<bv8>, start: nat, limit: nat, n: nat, before: seq<Word>, after: seq<Word>)
    requires 0 < n <= 64 * |before| && start + n <= limit && Copied(bytes, start, before, after, n, n)
    requires forall i: nat :: start <= i < start + n ==> PoolBit(bytes, i) == s(i)
    ensures Delivered(s, start, limit, n, before, after)
  {
    hide PoolBit;
    forall j | 0 <= j < 64 * WordsFor(n)
      ensures BitAt(after, j) == (j < n && s(start + j))
    {
      assert BitAt(after, j) == (j < n && PoolBit(bytes, start + j));
    }
  }

  /** Eight packed bytes hold the word's bits. */
  lemma StoredWord(bytes: seq<bv8>, offset: nat, word: Word)
    requires 8 * offset + 8 <= |bytes|
    requires forall n :: 8 * offset <= n < 8 * offset + 8 ==>
      bytes[n] == Pack(word[8 * (n - 8 * offset)..8 * (n - 8 * offset) + 8])
    ensures forall i :: 64 * offset <= i < 64 * offset + 64 ==> PoolBit(bytes, i) == word[i - 64 * offset]
  {
    hide BitOf, OneHot, Pack;
    forall i | 64 * offset <= i < 64 * offset + 64
      ensures PoolBit(bytes, i) == word[i - 64 * offset]
    {
      var k := i - 64 * offset;
      assert i / 8 == 8 * offset + k / 8 && i % 8 == k % 8;
      PackBit(word[8 * (k / 8)..8 * (k / 8) + 8], k % 8);
    }
  }

  /** The word stored can be loaded again, as the hardware word it was. */
  lemma StoredWhole(bytes: seq<bv8>, offset: nat, x: bv64)
    requires 8 * offset + 8 <= |bytes|
    requires forall i :: 64 * offset <= i < 64 * offset + 64 ==> PoolBit(bytes, i) == Unpack(x, 64)[i - 64 * offset]
    ensures Rebuild(LoadWord(bytes, offset)) == x
  {
    hide Unpack, PoolBit, BitOf, OneHot, Rebuild, KeepBits, LowOnes;
    var w := LoadWord(bytes, offset);
    forall k | 0 <= k < 64
      ensures w[k] == Unpack(x, 64)[k]
    {
      LoadWordBit(bytes, offset, k);
    }
    assert w == Unpack(x, 64);
    UnpackRebuilds(x, 64);
    AllOnesKept(x);
  }

  lemma NextWordFits(filled: nat, ceil: nat)
    requires filled % 64 == 0 && ceil % 64 == 0 && filled < ceil
    ensures filled + 64 <= ceil && (filled + 64) % 64 == 0 && (filled + 64) % 8 == 0 && 64 * (filled / 64) == filled
  {
    var a, b := filled / 64, ceil / 64;
    assert filled == 64 * a && ceil == 64 * b;
    assert a + 1 <= b;
    WholeWords(a + 1);
  }

  lemma WholeWords(n: nat)
    ensures (64 * n) % 64 == 0 && (64 * n) % 8 == 0
  {
    WholeBytes(8 * n);
  }

  lemma WholeBytes(n: nat)
    ensures (8 * n) % 8 == 0
  {
  }

  lemma SourceWordInside(length: nat, p: nat, srcOffset: nat, srcBit: nat)
    requires (8 * length) % 64 == 0 && p < 8 * length && p == 64 * srcOffset + srcBit
    ensures 8 * srcOffset + 8 <= length
  {
    assert length % 8 == 0;
  }

  class BitPool {
    var bits: array<bv8>
    var shrinking: bool
    var bitsFilled: nat
    var bitsCeil: nat
    var limit: nat
    var consumed: nat
    var requests: seq<nat>
    var generation: nat
    var index: Option<seq<nat>>

    /** Holds from allocation on, also while a copy is being written. */
    ghost predicate WellFormed()
      reads this, bits
    {
      && 8 * bits.Length == bitsCeil
      && bitsCeil % 64 == 0
      && bitsFilled <= bitsCeil
      && consumed <= limit
      && consumed <= bitsFilled
      && AllPositive(requests)
      && Sum(requests) == consumed
      && (index.Some? ==> IsIndex(index.value, requests))
    }

    /** Holds whenever a pool may serve requests or be shrunk. */
    ghost predicate Valid()
      reads this, bits
    {
      && WellFormed()
      && bitsFilled % 8 == 0
      && (shrinking ==> limit <= bitsFilled)
      && (!shrinking ==> bitsFilled % 64 == 0 && bitsCeil > 0)
    }

    /** Bit `i` of all that the pool has still to deliver or has delivered already, lazily drawn words included. */
    ghost predicate At(rng: Rng.Rng, i: nat)
      reads `limit, `shrinking, `bits, `bitsFilled, bits, rng
    {
      && i < limit
      && (if shrinking || i < bitsFilled then PoolBit(bits[..], i)
          else RngBit(rng.seed, 64 * rng.drawn + (i - bitsFilled)))
    }

    /** All that growing and filling leave alone. */
    ghost function Rest(): (bool, nat, nat, seq<nat>, nat, Option<seq<nat>>)
      reads this
    {
      (shrinking, limit, consumed, requests, generation, index)
    }

    /**
    What serving leaves in step: mode and generation stay, each drawn word fills 64 bits, and a pool
    that is not shrinking holds the bits up to `wanted` and less than a word beyond.
    */
    ghost predicate Kept(rng: Rng.Rng, shrinking': bool, generation': nat, ahead: int, filled: nat, wanted: nat)
      reads this, rng
    {
      && shrinking == shrinking' && generation == generation'
      && 64 * rng.drawn - bitsFilled == ahead
      && (shrinking ==> bitsFilled == filled)
      && (bitsFilled == filled || filled < bitsFilled < wanted + 64)
    }

    /** The pool is in a state to deliver the stream `s`. */
    ghost predicate Serves(rng: Rng.Rng, s: Stream)
      reads this, bits, rng, rng.mt
    {
      && Valid() && rng.Valid()
      && bits as object != rng.mt
      && forall i: nat :: At(rng, i) == s(i)
    }

    /** alloc_bit_pool: `size` bits rounded up to whole words, all zero. */
    constructor (size: nat, limit: nat)
      ensures WellFormed() && fresh(bits)
      ensures bitsCeil == 64 * WordsFor(size) && bitsFilled == 0 && consumed == 0
      ensures this.limit == limit && requests == [] && index == None && generation == 0 && !shrinking
      ensures forall i :: 0 <= i < bits.Length ==> bits[i] == 0
    {
      bits := new bv8[8 * WordsFor(size)](_ => 0);
      bitsCeil := 64 * WordsFor(size);
      bitsFilled, consumed, generation := 0, 0, 0;
      this.limit := limit;
      shrinking, requests, index := false, [], None;
    }

    // ----- Serving requests -----

    /** Doubles the buffer; realloc leaves the new half with whatever was there. */
    method Grow()
      requires Valid() && !shrinking
      modifies this
      ensures Valid() && fresh(bits)
      ensures bitsCeil == 2 * old(bitsCeil)
      ensures bits[..old(bits.Length)] == old(bits[..])
      ensures Rest() == old(Rest()) && bitsFilled == old(bitsFilled)
    {
      var was := bits;
      var bigger := new bv8[2 * bits.Length];
      forall i | 0 <= i < was.Length { bigger[i] := was[i]; }
      bits := bigger;
      bitsCeil := 2 * bitsCeil;
    }

    /** Stores a generator word at word index `offset`, little-endian. */
    method StoreWord(offset: nat, word: Word)
      requires 8 * offset + 8 <= bits.Length
      modifies bits
      ensures forall i :: 64 * offset <= i < 64 * offset + 64 ==> PoolBit(bits[..], i) == word[i - 64 * offset]
      ensures forall i :: 0 <= i < bits.Length && i / 8 != offset ==> bits[i] == old(bits[i])
    {
      forall n | 8 * offset <= n < 8 * offset + 8 {
        bits[n] := Pack(word[8 * (n - 8 * offset)..8 * (n - 8 * offset) + 8]);
      }
      StoredWord(bits[..], offset, word);
    }

    lemma StreamNow(rng: Rng.Rng, s: Stream)
      requires forall i: nat :: At(rng, i) == s(i)
      requires !shrinking
      ensures forall i: nat ::
        (s(i) == (i < limit && (if i < bitsFilled then PoolBit(bits[..], i) else RngBit(rng.seed, 64 * rng.drawn + (i - bitsFilled)))))
    {
      hide PoolBit, RngBit;
      forall i: nat
        ensures s(i) == (i < limit && (if i < bitsFilled then PoolBit(bits[..], i) else RngBit(rng.seed, 64 * rng.drawn + (i - bitsFilled))))
      {
        assert At(rng, i) == s(i);
      }
    }

    /** Draws one generator word into the pool. */
    method FillWord(rng: Rng.Rng, ghost s: Stream)
      requires Serves(rng, s) && !shrinking && bitsFilled < bitsCeil
      modifies bits, `bitsFilled, rng, rng.mt
      ensures Serves(rng, s) && Rest() == old(Rest())
      ensures bitsFilled == old(bitsFilled) + 64 && rng.drawn == old(rng.drawn) + 1 && rng.seed == old(rng.seed)
      ensures 8 * (old(bitsFilled) / 64) + 8 <= bits.Length
      ensures Rebuild(LoadWord(bits[..], old(bitsFilled) / 64)) == Rng.Output(rng.seed, old(rng.drawn))
    {
      hide RngBit, Rng.Output, Rng.State, Unpack, PoolBit, Sum, IsIndex, AllPositive, At, LoadWord, Rebuild;
      ghost var bytes, filled, drawn := bits[..], bitsFilled, rng.drawn;
      StreamNow(rng, s);
      NextWordFits(bitsFilled, bitsCeil);
      var offset := bitsFilled / 64;
      var word := rng.Random();
      StoreWord(offset, Unpack(word, 64));
      bitsFilled := bitsFilled + 64;
      FilledOneWord(rng, s, bytes, filled, drawn);
      StoredWhole(bits[..], offset, Rng.Output(rng.seed, drawn));
    }

    /** lazily_fill_bit_pool: draws just enough words to hold the request. */
    method LazilyFill(rng: Rng.Rng, bitCount: nat, ghost s: Stream)
      requires Serves(rng, s) && !shrinking
      modifies this, bits, rng, rng.mt
      ensures Serves(rng, s) && Rest() == old(Rest()) && (bits == old(bits) || fresh(bits))
      ensures consumed + bitCount <= bitsFilled
      ensures bitsFilled == old(bitsFilled) || old(bitsFilled) < bitsFilled < consumed + bitCount + 64
      ensures 64 * rng.drawn - bitsFilled == old(64 * rng.drawn - bitsFilled) && rng.seed == old(rng.seed)
    {
      GrowToHold(rng, consumed + bitCount, s);
      while consumed + bitCount > bitsFilled
        invariant Serves(rng, s) && Rest() == old(Rest()) && (bits == old(bits) || fresh(bits))
        invariant consumed + bitCount <= bitsCeil
        invariant bitsFilled == old(bitsFilled) || old(bitsFilled) < bitsFilled < consumed + bitCount + 64
        invariant 64 * rng.drawn - bitsFilled == old(64 * rng.drawn - bitsFilled) && rng.seed == old(rng.seed)
      {
        FillWord(rng, s);
      }
    }

    method GrowToHold(rng: Rng.Rng, size: nat, ghost s: Stream)
      requires Serves(rng, s) && !shrinking
      modifies this
      ensures Serves(rng, s) && Rest() == old(Rest()) && (bits == old(bits) || fresh(bits))
      ensures bitsFilled == old(bitsFilled) && size <= bitsCeil
    {
      hide RngBit, Rng.Output, Rng.State, Unpack;
      while size > bitsCeil
        invariant Serves(rng, s) && Rest() == old(Rest()) && (bits == old(bits) || fresh(bits))
        invariant bitsFilled == old(bitsFilled)
        decreases size - bitsCeil
      {
        ghost var bytes := bits[..];
        assert forall i: nat :: At(rng, i) == s(i);
        Grow();
        forall i: nat
          ensures At(rng, i) == s(i)
        {
          if i < bitsFilled {
            assert PoolBit(bits[..], i) == PoolBit(bytes, i);
          }
        }
      }
    }

    /** One drawn word moves 64 bits from the generator's future into the pool: what is delivered stays the same. */
    lemma FilledOneWord(rng: Rng.Rng, s: Stream, bytes: seq<bv8>, filled: nat, drawn: nat)
      requires 8 * |bytes| == 8 * bits.Length == bitsCeil && bitsCeil % 64 == 0 && filled % 64 == 0
      requires bitsFilled == filled + 64 <= bitsCeil && rng.drawn == drawn + 1 && !shrinking
      requires forall i: nat ::
        (s(i) == (i < limit && (if i < filled then PoolBit(bytes, i) else RngBit(rng.seed, 64 * drawn + (i - filled)))))
      requires forall i :: filled <= i < filled + 64 ==>
        PoolBit(bits[..], i) == Unpack(Rng.Output(rng.seed, drawn), 64)[i - filled]
      requires forall i :: 0 <= i < bits.Length && i / 8 != filled / 64 ==> bits[i] == bytes[i]
      ensures forall i: nat :: At(rng, i) == s(i)
    {
      hide Rng.Output, Rng.State, Unpack, BitOf, OneHot;
      forall i: nat
        ensures At(rng, i) == s(i)
      {
        if i < filled {
          assert i / 8 / 8 < filled / 64;
          assert PoolBit(bits[..], i) == PoolBit(bytes, i);
        } else if i < filled + 64 {
          var k := i - filled;
          assert (64 * drawn + k) / 64 == drawn && (64 * drawn + k) % 64 == k;
          assert PoolBit(bits[..], filled + k) == RngBit(rng.seed, 64 * drawn + k);
        } else {
          assert 64 * rng.drawn + (i - bitsFilled) == 64 * drawn + (i - filled);
        }
      }
    }

    /** append_request */
    method AppendRequest(bitCount: nat)
      requires bitCount > 0 && index == None && AllPositive(requests)
      modifies `requests
      ensures requests == old(requests) + [bitCount]
      ensures AllPositive(requests) && Sum(requests) == old(Sum(requests)) + bitCount
    {
      requests := requests + [bitCount];
      assert requests[..|requests| - 1] == old(requests);
    }

    /** fill_buf: copies `bitCount` bits from the consumed position, at whatever bit offset, word piece by word piece. */
    method FillBuf(bitCount: nat, dst: array<Word>)
      requires consumed + bitCount <= bitsFilled <= bitsCeil == 8 * bits.Length && bitsCeil % 64 == 0
      requires 0 < bitCount <= 64 * dst.Length && dst as object != bits
      modifies dst, `consumed
      ensures consumed == old(consumed) + bitCount
      ensures Copied(bits[..], old(consumed), old(dst[..]), dst[..], bitCount, bitCount)
    {
      hide Or, And, Shl, Shr, Mask, LoadWord, Copied, PoolBit, BitAt, ToNat, Cleared, WordsFor;
      ghost var bytes, before := bits[..], dst[..];
      var srcOffset: nat := consumed / 64;
      var srcBit: nat := consumed % 64;
      var dstOffset := 0;
      dst[0] := ZERO;
      CopyStarts(bytes, consumed, before, bitCount);
      var i := 0;
      while i < bitCount
        invariant i <= bitCount && bits[..] == bytes && consumed == old(consumed)
        invariant srcBit < 64 && 64 * srcOffset + srcBit == consumed + i
        invariant dstOffset == i / 64
        invariant Copied(bytes, consumed, before, dst[..], i, bitCount)
      {
        var dstBit := i % 64;
        var srcRem := 64 - srcBit;
        var dstReq := if bitCount - i < 64 - dstBit then bitCount - i else 64 - dstBit;
        var toCopy := if dstReq < srcRem then dstReq else srcRem;
        var mask := Mask(toCopy);
        SourceWordInside(bits.Length, consumed + i, srcOffset, srcBit);
        var piece := And(Shr(LoadWord(bits[..], srcOffset), srcBit), mask);
        ghost var was := dst[..];
        dst[dstOffset] := Or(dst[dstOffset], Shl(piece, dstBit));
        CopyStep(bytes, before, was, dst[..], consumed, i, bitCount, toCopy, srcOffset, srcBit);
        srcBit := srcBit + toCopy;
        if srcBit == 64 {
          srcBit := 0;
          srcOffset := srcOffset + 1;
        }
        i := i + toCopy;
        if dstBit + toCopy == 64 {
          dstOffset := dstOffset + 1;
          if i < bitCount {
            dst[dstOffset] := ZERO;
          }
        }
      }
      consumed := consumed + bitCount;
    }

    lemma FilledAlready(rng: Rng.Rng, s: Stream, start: nat, count: nat)
      requires Serves(rng, s) && start + count <= Least(bitsFilled, limit)
      ensures forall i: nat :: start <= i < start + count ==> PoolBit(bits[..], i) == s(i)
    {
      hide PoolBit, RngBit;
      forall i: nat | start <= i < start + count
        ensures PoolBit(bits[..], i) == s(i)
      {
        assert At(rng, i) == s(i);
      }
    }

    /** The tail of theft_autoshrink_bit_pool_random: the request fits, so record it and copy it out. */
    method SaveAndFill(rng: Rng.Rng, count: nat, buf: array<Word>, ghost s: Stream)
      requires Serves(rng, s) && index == None
      requires 0 < count <= 64 * buf.Length && consumed + count <= Least(bitsFilled, limit)
      requires buf as object != bits && buf as object != rng.mt
      modifies `consumed, `requests, buf
      ensures Serves(rng, s)
      ensures consumed == old(consumed) + count && requests == old(requests) + [count]
      ensures Delivered(s, old(consumed), limit, count, old(buf[..]), buf[..])
    {
      hide RngBit, Rng.Output, Rng.State, Unpack, PoolBit, Copied, Delivered, At;
      ghost var bytes, start, before := bits[..], consumed, buf[..];
      FilledAlready(rng, s, start, count);
      AppendRequest(count);
      FillBuf(count, buf);
      assert bits[..] == bytes;
      CopiedDelivers(s, bytes, start, limit, count, before, buf[..]);
    }

    /** theft_autoshrink_bit_pool_random: serves a request of `bitCount` bits. */
    method Random(rng: Rng.Rng, bitCount: nat, buf: array<Word>, ghost s: Stream)
      requires Serves(rng, s) && index == None
      requires bitCount <= 64 * buf.Length
      requires buf as object != bits && buf as object != rng.mt
      modifies this, bits, rng, rng.mt, buf
      ensures Serves(rng, s) && (bits == old(bits) || fresh(bits)) && index == None
      ensures limit == old(limit) && rng.seed == old(rng.seed)
      ensures Served(old(consumed), old(requests), limit, bitCount, consumed, requests)
      ensures Kept(rng, old(shrinking), old(generation), old(64 * rng.drawn - bitsFilled), old(bitsFilled),
        old(consumed) + bitCount)
      ensures Delivered(s, old(consumed), limit, bitCount, old(buf[..]), buf[..])
    {
      hide RngBit, Rng.State, PoolBit, Delivered, Sum, IsIndex, BitAt;
      if bitCount == 0 {
        NothingDelivered(s, consumed, limit, buf[..]);
        return;
      }
      if !shrinking {
        LazilyFill(rng, bitCount, s);
      }
      if consumed == limit {
        ClearBytes(buf, WordsFor(bitCount));
        ExhaustedDelivers(s, limit, bitCount, old(buf[..]), buf[..]);
        return;
      }
      var count := bitCount;
      if consumed + count >= limit {
        count := limit - consumed;
      }
      assert consumed + count <= bitsFilled;
      SaveAndFill(rng, count, buf, s);
      ClippedDelivers(s, old(consumed), limit, bitCount, old(buf[..]), buf[..]);
    }
  }
}
