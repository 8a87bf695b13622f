/**
The runner's bit source, src/theft_random.c: words of the generator handed out in pieces
of any size, or a bit pool when one is injected.
*/
module Random {
  import opened Bits
  import opened BitPool
  import Rng

  /** Bit `i` of `s` after its first `n` bits. */
  predicate Later(s: Stream, n: nat, i: nat) {
    s(n + i)
  }

  /** The stream `s` without its first `n` bits. */
  function Tail(s: Stream, n: nat): Stream {
    (i: nat) => s(n + i)
  }

  /** The first `given` bits of `s` have been OR-ed into a buffer that held `before`. */
  ghost predicate OredIn(s: Stream, before: seq<Word>, now: seq<Word>, given: nat) {
    && |now| == |before|
    && forall j :: 0 <= j < 64 * |now| ==> BitAt(now, j) == (BitAt(before, j) || (j < given && s(j)))
  }

  lemma NothingOred(s: Stream, before: seq<Word>)
    ensures OredIn(s, before, before, 0)
  {
  }

  /** One piece of the stream lands in the word where the previous one ended. */
  lemma PieceLands(s: Stream, before: seq<Word>, was: seq<Word>, now: seq<Word>, piece: Word, given: nat, take: nat)
    requires given / 64 < |was| && given % 64 + take <= 64
    requires now == was[given / 64 := Or(was[given / 64], Shl(piece, given % 64))]
    requires forall i :: 0 <= i < 64 ==> piece[i] == (i < take && Later(s, given, i))
    requires OredIn(s, before, was, given)
    ensures OredIn(s, before, now, given + take)
  {
    forall j | 0 <= j < 64 * |was|
      ensures BitAt(now, j) == (BitAt(was, j) || (given <= j < given + take && s(j)))
    {
      if j / 64 == given / 64 {
        assert j % 64 - given % 64 == j - given;
        if j >= given { assert piece[j - given] == (j - given < take && Later(s, given, j - given)); }
      }
    }
  }

  /**
  Without a pool nothing is cleared at all: the answer is right if and only if every bit that was set in the part of the destination
  asked for is set in the stream too.
  */
  lemma OredIsSlice(s: Stream, before: seq<Word>, now: seq<Word>, n: nat)
    requires n <= 64 * |before| && OredIn(s, before, now, n)
    ensures FirstBits(now, n) == Slice(s, 0, n) <==> forall j :: 0 <= j < n && BitAt(before, j) ==> s(j)
  {
    var given, wanted := FirstBits(now, n), Slice(s, 0, n);
    forall j | 0 <= j < n
      ensures given[j] == (BitAt(before, j) || s(j)) && wanted[j] == s(j)
    {
      assert wanted[j] == s(0 + j);
    }
    if forall j :: 0 <= j < n && BitAt(before, j) ==> s(j) {
      assert given == wanted;
    } else {
      var j :| 0 <= j < n && BitAt(before, j) && !s(j);
      assert given[j] != wanted[j];
    }
  }

  // ----- What a pool's answers are -----

  /** The `n` low bits of some words. */
  function FirstBits(words: seq<Word>, n: nat): (r: seq<bool>)
    requires n <= 64 * |words|
    ensures |r| == n && forall j :: 0 <= j < n ==> r[j] == BitAt(words, j)
  {
    seq(n, j requires 0 <= j < n => BitAt(words, j))
  }

  /**
  When a pool's destination holds exactly the zero-extended bits asked for. The words past the
  limit are never written, and an exhausted pool clears bytes where it should clear words: the answer is right
  if and only if the part of the destination it leaves alone was zero beforehand.
  */
  lemma DeliveredIsSlice(s: Stream, consumed: nat, limit: nat, n: nat, before: seq<Word>, after: seq<Word>)
    requires consumed <= limit && n <= 64 * |before| && Delivered(s, consumed, limit, n, before, after)
    requires forall i: nat :: i >= limit ==> !s(i)
    ensures FirstBits(after, n) == Slice(s, consumed, n)
      <==> forall j :: (if consumed == limit then 8 * WordsFor(n) else 64 * WordsFor(Least(n, limit - consumed))) <= j < n
             ==> !BitAt(before, j)
  {
    var kept := if consumed == limit then 8 * WordsFor(n) else 64 * WordsFor(Least(n, limit - consumed));
    var given, wanted := FirstBits(after, n), Slice(s, consumed, n);
    forall j | 0 <= j < n
      ensures j < kept ==> given[j] == wanted[j]
      ensures j >= kept ==> given[j] == BitAt(before, j) && !wanted[j]
    {
      assert wanted[j] == s(consumed + j);
      assert j >= kept && consumed < limit ==> BitAt(after, j) == BitAt(before, j);
    }
    if forall j :: kept <= j < n ==> !BitAt(before, j) {
      assert given == wanted;
    } else {
      var j :| kept <= j < n && BitAt(before, j);
      assert given[j] != wanted[j];
    }
  }

  lemma ServedAndDelivered(s: Stream, given: nat, consumed: nat, requests: seq<nat>, limit: nat, n: nat,
                           consumed': nat, requests': seq<nat>, before: seq<Word>, after: seq<Word>)
    requires consumed == Least(given, limit) && Served(consumed, requests, limit, n, consumed', requests')
    requires n <= 64 * |before| && Delivered(s, consumed, limit, n, before, after)
    requires forall w :: 0 <= w < |before| ==> before[w] == ZERO
    requires forall i: nat :: i >= limit ==> !s(i)
    ensures consumed' == Least(given + n, limit)
    ensures FirstBits(after, n) == Slice(s, given, n)
  {
    assert FirstBits(after, n) == Slice(s, consumed, n) by {
      hide Delivered;
      DeliveredIsSlice(s, consumed, limit, n, before, after);
    }
    if consumed != given {
      var left, right := Slice(s, consumed, n), Slice(s, given, n);
      assert forall i :: 0 <= i < n ==> left[i] == right[i];
    }
  }

  class Prng {
    const rng: Rng.Rng
    var buf: Word
    var bitsAvailable: nat
    var bitPool: BitPool?

    ghost predicate Valid()
      reads this, rng, rng.mt
    {
      rng.Valid() && bitsAvailable < 64
    }

    /** Bit `i` of what unpooled requests will be given next. Only the low bits of `buf` matter. */
    ghost predicate Ahead(i: nat)
      reads this, rng
    {
      if i < bitsAvailable then i < 64 && buf[i] else RngBit(rng.seed, 64 * rng.drawn + (i - bitsAvailable))
    }

    /** What is left of `s` after its first `given` bits is what comes next. */
    ghost predicate Next(s: Stream, given: nat)
      reads this, rng
    {
      forall i: nat :: Ahead(i) == Later(s, given, i)
    }

    /** How many bits unpooled requests have been given, counted from the generator's first word. */
    ghost function Position(): int
      reads this, rng
    {
      64 * rng.drawn - bitsAvailable
    }

    /** The injected pool, if any, is separate from the generator. */
    ghost predicate Ready(s: Stream)
      reads this, rng, rng.mt, bitPool, if bitPool != null then {bitPool.bits} else {}
    {
      && Valid()
      && (bitPool != null ==> bitPool.Serves(rng, s) && bitPool.index == None)
      && (bitPool == null ==> Next(s, 0))
    }

    constructor (seed: bv64)
      ensures Valid() && bitPool == null && fresh(rng) && fresh(rng.mt)
      ensures bitsAvailable == 0 && rng.drawn == 0 && rng.seed == seed
    {
      rng := new Rng.Rng.Unseeded();
      buf, bitsAvailable, bitPool := ZERO, 0, null;
      new;
      rng.Reset(seed);
    }

    /** theft_random_set_seed: drops buffered bits and the pool. */
    method SetSeed(seed: bv64)
      requires rng.mt.Length == Rng.NN
      modifies this, rng, rng.mt
      ensures Valid() && bitPool == null && bitsAvailable == 0 && rng.seed == seed && rng.drawn == 0
      ensures Next((i: nat) => RngBit(seed, i), 0)
    {
      hide RngBit;
      bitPool := null;
      buf, bitsAvailable := ZERO, 0;
      rng.Reset(seed);
    }

    /** Takes up to `most` bits from the word buffer, refilling it when empty. */
    method TakePiece(most: nat, ghost s: Stream, ghost given: nat) returns (piece: Word, take: nat)
      requires Valid() && 0 < most <= 64 && Next(s, given)
      modifies this`buf, this`bitsAvailable, rng, rng.mt
      ensures Valid() && 0 < take <= most && Next(s, given + take)
      ensures forall i :: 0 <= i < 64 ==> piece[i] == (i < take && Later(s, given, i))
      ensures Position() == old(Position()) + take
      ensures rng.seed == old(rng.seed)
    {
      hide RngBit, Rng.State, Rng.Output, Unpack;
      if bitsAvailable == 0 {
        var word := rng.Random();
        buf := Unpack(word, 64);
        bitsAvailable := 64;
        WordAhead(s, given, rng.seed, rng.drawn - 1, buf);
      }
      assert Next(s, given);
      take := most;
      if take > bitsAvailable {
        take := bitsAvailable;
      }
      piece := And(buf, Mask(take));
      ghost var was, had := buf, bitsAvailable;
      bitsAvailable := bitsAvailable - take;
      if take < 64 {
        buf := Shr(buf, take);
      } else {
        buf := *;   // the source shifts a 64-bit word by 64 here: the value is unspecified, and never read
      }
      forall i: nat
        ensures Ahead(i) == Later(s, given + take, i)
      {
        assert Later(s, given + take, i) == Later(s, given, take + i);
        if i < bitsAvailable {
          assert Later(s, given, take + i) == was[take + i];
        } else {
          assert 64 * rng.drawn + (i - bitsAvailable) == 64 * rng.drawn + (take + i - had);
        }
      }
    }

    /** Drawing a word turns the generator's next 64 bits into the buffer. */
    lemma WordAhead(s: Stream, given: nat, seed: bv64, drawn: nat, word: Word)
      requires word == Unpack(Rng.Output(seed, drawn), 64)
      requires forall i: nat :: Later(s, given, i) == RngBit(seed, 64 * drawn + i)
      ensures forall i: nat :: Later(s, given, i) == if i < 64 then word[i] else RngBit(seed, 64 * (drawn + 1) + (i - 64))
    {
      hide Rng.Output, Rng.State, Unpack;
      forall i: nat
        ensures Later(s, given, i) == if i < 64 then word[i] else RngBit(seed, 64 * (drawn + 1) + (i - 64))
      {
        if i < 64 {
          assert (64 * drawn + i) / 64 == drawn && (64 * drawn + i) % 64 == i;
        } else {
          assert 64 * (drawn + 1) + (i - 64) == 64 * drawn + i;
        }
      }
    }

    /** The part of theft_random_bits_bulk that runs without a pool. */
    method FromBuffer(bitCount: nat, dst: array<Word>, ghost s: Stream)
      requires Valid() && bitCount <= 64 * dst.Length && dst as object != rng.mt
      requires Next(s, 0)
      modifies this`buf, this`bitsAvailable, rng, rng.mt, dst
      ensures Valid() && rng.seed == old(rng.seed)
      ensures OredIn(s, old(dst[..]), dst[..], bitCount) && Next(s, bitCount)
      ensures Position() == old(Position()) + bitCount
    {
      hide RngBit, Rng.State, Rng.Output, Unpack, Or, Shl, Ahead, Next, OredIn, BitAt, WordsFor, ToNat, Later;
      var rem, shift, offset := bitCount, 0, 0;
      ghost var given := 0;
      NothingOred(s, dst[..]);
      while rem > 0
        invariant rem + given == bitCount && given == 64 * offset + shift && shift < 64
        invariant Valid() && rng.seed == old(rng.seed)
        invariant OredIn(s, old(dst[..]), dst[..], given) && Next(s, given)
        invariant Position() == old(Position()) + given
      {
        var most := 64 - shift;
        if most > rem {
          most := rem;
        }
        ghost var was := dst[..];
        var piece, take := TakePiece(most, s, given);
        dst[offset] := Or(dst[offset], Shl(piece, shift));
        assert given / 64 == offset && given % 64 == shift;
        PieceLands(s, old(dst[..]), was, dst[..], piece, given, take);
        shift := shift + take;
        if shift == 64 {
          offset := offset + 1;
          shift := 0;
        }
        rem := rem - take;
        given := given + take;
      }
    }

    /** theft_random_bits_bulk */
    method BitsBulk(bitCount: nat, dst: array<Word>, ghost s: Stream)
      requires Ready(s) && bitCount <= 64 * dst.Length
      requires dst as object != rng.mt && (bitPool != null ==> dst as object != bitPool.bits)
      modifies this`buf, this`bitsAvailable, rng, rng.mt, dst
      modifies bitPool, if bitPool != null then {bitPool.bits} else {}
      ensures Valid() && rng.seed == old(rng.seed)
      // without a pool: the next bits of the generator are OR-ed in
      ensures bitPool == null ==> OredIn(s, old(dst[..]), dst[..], bitCount) && Next(s, bitCount)
      ensures bitPool == null ==>
        Position() == old(Position()) + bitCount
      // with a pool: the pool serves, and the buffered bits stay
      ensures bitPool != null ==> unchanged(this) && Ready(s) && bitPool.limit == old(bitPool.limit)
      ensures bitPool != null ==> bitPool.bits == old(bitPool.bits) || fresh(bitPool.bits)
      ensures bitPool != null ==>
        Served(old(bitPool.consumed), old(bitPool.requests), bitPool.limit, bitCount, bitPool.consumed, bitPool.requests)
      ensures bitPool != null ==>
        Delivered(s, old(bitPool.consumed), bitPool.limit, bitCount, old(dst[..]), dst[..])
      ensures bitPool != null ==> bitPool.Kept(rng, old(bitPool.shrinking), old(bitPool.generation),
        old(64 * rng.drawn - bitPool.bitsFilled), old(bitPool.bitsFilled), old(bitPool.consumed) + bitCount)
    {
      hide RngBit, Rng.State, Rng.Output, Unpack, Delivered, Served;
      if bitPool != null {
        bitPool.Random(rng, bitCount, dst, s);
        return;
      }
      FromBuffer(bitCount, dst, s);
    }

    /**
    theft_random_bits: at most 64 bits, into a zeroed word. Pool or no pool, the answer is the next slice of the stream, and zeroes
    above it.
    */
    method RandomBits(bitCount: nat, ghost s: Stream, ghost given: nat) returns (res: Word)
      requires bitCount <= 64
      requires bitPool == null ==> Valid() && Next(s, given)
      requires bitPool != null ==> Ready(s) && bitPool.consumed == Least(given, bitPool.limit)
      modifies this`buf, this`bitsAvailable, rng, rng.mt
      modifies bitPool, if bitPool != null then {bitPool.bits} else {}
      ensures Valid() && rng.seed == old(rng.seed)
      ensures forall j :: 0 <= j < 64 ==> res[j] == (j < bitCount && Later(s, given, j))
      ensures bitPool == null ==> Next(s, given + bitCount) && Position() == old(Position()) + bitCount
      // with nothing buffered: the low bits of the word drawn
      ensures bitPool == null && old(bitsAvailable) == 0 ==>
        Rebuild(res[..bitCount]) == KeepBits(Rng.Output(rng.seed, old(rng.drawn)), LowOnes(bitCount))
      ensures bitPool != null ==> unchanged(this) && Ready(s) && bitPool.limit == old(bitPool.limit)
      ensures bitPool != null ==> bitPool.consumed == Least(given + bitCount, bitPool.limit)
      ensures bitPool != null ==>
        Served(old(bitPool.consumed), old(bitPool.requests), bitPool.limit, bitCount, bitPool.consumed, bitPool.requests)
    {
      hide RngBit, Rng.State, Rng.Output, Unpack, Rebuild, KeepBits, LowOnes;
      if bitPool == null {
        ghost var seed, drawn, empty := rng.seed, rng.drawn, bitsAvailable == 0;
        if empty {
          forall j: nat ensures Later(s, given, j) == RngBit(seed, 64 * drawn + j) { assert Ahead(j) == Later(s, given, j); }
        }
        res := BitsWithoutPool(bitCount, s, given);
        if empty { LowBitsOfWord(seed, drawn, res[..bitCount]); }
      } else {
        res := BitsFromPool(bitCount, s, given);
      }
    }

    method BitsWithoutPool(bitCount: nat, ghost s: Stream, ghost given: nat) returns (res: Word)
      requires bitPool == null && Valid() && Next(s, given) && bitCount <= 64
      modifies this`buf, this`bitsAvailable, rng, rng.mt
      ensures Valid() && rng.seed == old(rng.seed) && Next(s, given + bitCount)
      ensures forall j :: 0 <= j < 64 ==> res[j] == (j < bitCount && Later(s, given, j))
      ensures Position() == old(Position()) + bitCount
    {
      hide RngBit;
      var dst := new Word[1][ZERO];
      ghost var t := Tail(s, given);
      forall i: nat ensures Ahead(i) == Later(t, 0, i) { assert Ahead(i) == Later(s, given, i); }
      BitsBulk(bitCount, dst, t);
      forall i: nat ensures Ahead(i) == Later(s, given + bitCount, i) { assert Ahead(i) == Later(t, bitCount, i); }
      res := dst[0];
      assert forall j :: 0 <= j < 64 ==> BitAt(dst[..], j) == res[j];
    }

    method BitsFromPool(bitCount: nat, ghost s: Stream, ghost given: nat) returns (res: Word)
      requires bitPool != null && Ready(s) && bitPool.consumed == Least(given, bitPool.limit) && bitCount <= 64
      modifies rng, rng.mt, this`buf, this`bitsAvailable, bitPool, bitPool.bits
      ensures unchanged(this) && Ready(s) && rng.seed == old(rng.seed)
      ensures forall j :: 0 <= j < 64 ==> res[j] == (j < bitCount && Later(s, given, j))
      ensures bitPool.limit == old(bitPool.limit) && bitPool.consumed == Least(given + bitCount, bitPool.limit)
      ensures Served(old(bitPool.consumed), old(bitPool.requests), bitPool.limit, bitCount, bitPool.consumed, bitPool.requests)
    {
      hide RngBit, Rng.State, Rng.Output, Unpack, PoolBit, Sum, IsIndex, AllPositive, Delivered, Served;
      var dst := new Word[1][ZERO];
      ghost var before, consumed, requests := dst[..], bitPool.consumed, bitPool.requests;
      BitsBulk(bitCount, dst, s);
      forall i: nat | i >= bitPool.limit ensures !s(i) { assert bitPool.At(rng, i) == s(i); }
      res := dst[0];
      ServedAndDelivered(s, given, consumed, requests, bitPool.limit, bitCount, bitPool.consumed, bitPool.requests, before, dst[..]);
      assert before == [before[0]] && dst[..] == [dst[0]];
      WordDelivered(s, given, consumed, bitPool.limit, bitCount, before[0], dst[0]);
    }
  }

  /** Bits taken from a drawn word on are the word's low bits, in their order. */
  lemma LowBitsOfWord(seed: bv64, drawn: nat, bits: seq<bool>)
    requires |bits| <= 64 && forall j: nat :: j < |bits| ==> bits[j] == RngBit(seed, 64 * drawn + j)
    ensures Rebuild(bits) == KeepBits(Rng.Output(seed, drawn), LowOnes(|bits|))
  {
    hide Rng.Output, Rng.State, Unpack, Rebuild, KeepBits, LowOnes;
    var x, n := Rng.Output(seed, drawn), |bits|;
    UnpackPrefix(x, n, 64);
    forall j: nat | j < n
      ensures bits[j] == Unpack(x, 64)[..n][j]
    {
      assert (64 * drawn + j) / 64 == drawn && (64 * drawn + j) % 64 == j;
    }
    assert bits == Unpack(x, 64)[..n];
    UnpackRebuilds(x, n);
  }

  /** A request of at most a word, into a zeroed word. */
  lemma WordDelivered(s: Stream, given: nat, consumed: nat, limit: nat, n: nat, before: Word, after: Word)
    requires consumed == Least(given, limit) && n <= 64 && before == ZERO && Delivered(s, consumed, limit, n, [before], [after])
    requires forall i: nat :: i >= limit ==> !s(i)
    ensures forall j :: 0 <= j < 64 ==> after[j] == (j < n && Later(s, given, j))
  {
    forall j | 0 <= j < 64
      ensures after[j] == (j < n && Later(s, given, j))
    {
      assert BitAt([after], j) == after[j] && BitAt([before], j) == before[j];
    }
  }
}
