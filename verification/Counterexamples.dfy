/**
Inputs on which the code does not do what one would expect of it. When it does is stated, for all inputs, where the code in question
is modelled; here are the draws and the buffers that show it can fail.
*/
module Counterexamples {
  import opened Bits
  import opened BitPool
  import opened PoolEdit
  import opened Random
  import opened Draws
  import opened Weights
  import opened Drop
  import opened Mutate
  import BloomSpec
  import opened Engine
  import opened Shrink
  import opened Run

  /** The stream with ones at these places and zeroes elsewhere. */
  function Ones(places: set<nat>): Stream {
    (i: nat) => i in places
  }

  lemma DrawsNothing(s: Stream, pos: nat, n: nat)
    requires forall i: nat :: pos <= i < pos + n ==> !s(i)
    ensures DrawAt(s, pos, n) == 0
  {
    assert Slice(s, pos, n) == Zeros(n);
    ToNatZeros(n);
  }

  /** A draw whose only one is bit `k`. */
  lemma DrawsPower(s: Stream, pos: nat, n: nat, k: nat)
    requires k < n && forall i: nat :: pos <= i < pos + n ==> s(i) == (i == pos + k)
    ensures DrawAt(s, pos, n) == Pow2(k)
  {
    var low := Zeros(k) + [true];
    assert Slice(s, pos, n) == low + Zeros(n - k - 1);
    ToNatPad(low, n - k - 1);
    OneBitValue(k);
  }

  lemma {:induction false} OneBitValue(k: nat)
    ensures ToNat(Zeros(k) + [true]) == Pow2(k)
  {
    if k > 0 {
      OneBitValue(k - 1);
      assert (Zeros(k) + [true])[1..] == Zeros(k - 1) + [true];
    } else {
      assert Zeros(0) + [true] == [true];
    }
  }

  /** A draw of ones only. */
  lemma {:induction false} DrawsAllOnes(s: Stream, pos: nat, n: nat)
    requires forall i: nat :: pos <= i < pos + n ==> s(i)
    ensures DrawAt(s, pos, n) == Pow2(n) - 1
    decreases n
  {
    if n > 0 {
      DrawsAllOnes(s, pos + 1, n - 1);
      assert Slice(s, pos, n)[1..] == Slice(s, pos + 1, n - 1);
    }
  }

  lemma FiveMore(n: nat)
    ensures Pow2(n + 5) == 32 * Pow2(n)
  {
    assert Pow2(n + 1) == 2 * Pow2(n) && Pow2(n + 2) == 2 * Pow2(n + 1) && Pow2(n + 3) == 2 * Pow2(n + 2);
    assert Pow2(n + 4) == 2 * Pow2(n + 3) && Pow2(n + 5) == 2 * Pow2(n + 4);
  }

  lemma LargePowers()
    ensures Pow2(31) == 0x8000_0000 && Pow2(32) == 0x1_0000_0000
  {
    FiveMore(0);
    FiveMore(5);
    FiveMore(10);
    FiveMore(15);
    FiveMore(20);
    FiveMore(25);
    assert Pow2(31) == 2 * Pow2(30);
  }

  // ----- A bulk swap that raises -----

  const LOW_BYTE_SET: seq<bv8> := [1, 0, 0, 0, 0, 0, 0, 0, 0, 0, 0, 0, 0, 0, 0, 0]
  const NEXT_BYTE_SET: seq<bv8> := [0, 1, 0, 0, 0, 0, 0, 0, 0, 0, 0, 0, 0, 0, 0, 0]

  /** One request of 72 bits holding 1. With these draws a SWAP exchanges its bits 0 and 8, and it then holds 256. */
  lemma RaisingSwapHappens()
    ensures AimFor(SWAP, [72], Ones({0, 41}), 0) == Aim(0, SwapBlocks(0, 8, 1), 70)
    ensures Legal(SwapBlocks(0, 8, 1), [72], 0)
    ensures Performs(SwapBlocks(0, 8, 1), [72], 0, LOW_BYTE_SET, NEXT_BYTE_SET, true)
    ensures LexLess(Values(LOW_BYTE_SET, [72]), Values(NEXT_BYTE_SET, [72]))
  {
    hide PoolBit, BitOf, Performs, Values, LexLess, AimFor, DrawAt, ToNat, Slice;
    RaisingDraws();
    RaisingBytes();
    assert Sum([72]) == 72 by { assert [72][..0] == []; }
    EditDescends(SwapBlocks(0, 8, 1), [72], 0, LOW_BYTE_SET, NEXT_BYTE_SET, true);
  }

  lemma RaisingDraws()
    ensures AimFor(SWAP, [72], Ones({0, 41}), 0) == Aim(0, SwapBlocks(0, 8, 1), 70)
  {
    hide DrawAt, ToNat, Slice;
    var s := Ones({0, 41});
    DrawsPower(s, 0, 6, 0);
    DrawsPower(s, 38, 32, 3);
    assert Pow2(3) == 8;
    assert Log2Ceil(1, 0) == 0;
    DrawsNothing(s, 6, 32);
    assert Halved(1, 72) == 1;
    assert SwapFor(72, s, 0) == Choice(SwapBlocks(0, 8, 1), 70);
    assert EditFor(SWAP, 72, s, 0) == Choice(SwapBlocks(0, 8, 1), 70);
  }

  lemma RaisingBytes()
    ensures Performs(SwapBlocks(0, 8, 1), [72], 0, LOW_BYTE_SET, NEXT_BYTE_SET, true)
  {
    assert [72][..0] == [];
    assert Sum([]) == 0;
    ByteOne();
    ZeroByte(0);
    assert forall i: nat :: PoolBit(LOW_BYTE_SET, i) == (i == 0) by { LoneBits(LOW_BYTE_SET, 0); }
    assert forall i: nat :: PoolBit(NEXT_BYTE_SET, i) == (i == 8) by { LoneBits(NEXT_BYTE_SET, 8); }
    var a, b := Block(LOW_BYTE_SET, [72], 0, 0, 1), Block(LOW_BYTE_SET, [72], 0, 8, 1);
    assert a == [true] && b == [false];
    assert ToNat(b) < ToNat(a);
    forall i: nat
      ensures PoolBit(NEXT_BYTE_SET, i) == PoolBit(LOW_BYTE_SET, Origin(i, 0, 8, 1))
    {
    }
  }

  lemma ByteOne()
    ensures forall k :: 0 <= k < 8 ==> BitOf(1, k) == (k == 0)
  {
  }

  lemma LoneBits(bytes: seq<bv8>, at: nat)
    requires at % 8 == 0 && at / 8 < |bytes|
    requires forall n :: 0 <= n < |bytes| ==> bytes[n] == if n == at / 8 then 1 else 0
    ensures forall i: nat :: PoolBit(bytes, i) == (i == at)
  {
    hide BitOf;
    ByteOne();
    ZeroByte(0);
  }

  // ----- A read into a destination that was not zero -----

  /** An exhausted pool serves 64 bits into a word of ones: it clears one byte, and the answer is not the zeroes it should be. */
  lemma DirtyRead(limit: nat)
    ensures Delivered(Ones({}), limit, limit, 64, [ALL_ONES], [KeepFrom(ALL_ONES, 8)])
    ensures FirstBits([KeepFrom(ALL_ONES, 8)], 64) != Slice(Ones({}), limit, 64)
  {
    var before, after := [ALL_ONES], [KeepFrom(ALL_ONES, 8)];
    assert BitAt(before, 8) && BitAt(after, 8);
    assert FirstBits(after, 64)[8] && !Slice(Ones({}), limit, 64)[8];
  }

  /** The bulk request without a pool clears nothing: 64 bits of zeroes or-ed into a word of ones are ones. */
  lemma DirtyBulk()
    ensures OredIn(Ones({}), [ALL_ONES], [ALL_ONES], 64)
    ensures FirstBits([ALL_ONES], 64) != Slice(Ones({}), 0, 64)
  {
    assert BitAt([ALL_ONES], 0);
    OredIsSlice(Ones({}), [ALL_ONES], [ALL_ONES], 64);
  }

  /** A pool with one bit left serves 128 bits: the second word is not touched. */
  lemma DirtyTail(limit: nat)
    requires limit > 0
    ensures Delivered(Ones({}), limit - 1, limit, 128, [ALL_ONES, ALL_ONES], [ZERO, ALL_ONES])
    ensures FirstBits([ZERO, ALL_ONES], 128) != Slice(Ones({}), limit - 1, 128)
  {
    var after := [ZERO, ALL_ONES];
    assert BitAt(after, 64);
    assert FirstBits(after, 128)[64] && !Slice(Ones({}), limit - 1, 128)[64];
  }

  // ----- Drops that drop nothing -----

  /** With zeroes from some point on, a stream is fair. */
  lemma EndingIsFair(s: Stream, end: nat)
    requires forall i: nat :: i >= end ==> !s(i)
    ensures Fair(s)
  {
    forall pos: nat, n: nat | 7 <= n <= 9
      ensures EventuallySmall(s, pos, n)
    {
      NthFar(pos, n, end);
      DrawsNothing(s, Nth(pos, n, end), n);
      assert DrawAt(s, Nth(pos, n, end), n) < Pow2(n - 2);
    }
  }

  lemma {:induction false} NthFar(pos: nat, n: nat, k: nat)
    requires n > 0
    ensures Nth(pos, n, k) >= pos + k
    decreases k
  {
    if k > 0 { NthFar(pos + n, n, k - 1); }
  }

  /** A step on these draws chooses to drop: its first draw is 0. */
  lemma ChoosesDrop(s: Stream, end: nat)
    requires forall i: nat :: i < 8 || i >= end ==> !s(i)
    ensures Fair(s) && DrawAt(s, 0, 8) == 0
  {
    hide DrawAt;
    EndingIsFair(s, end);
    DrawsNothing(s, 0, 8);
  }

  /** One request of 2^31 + 1 bits. With these draws it is the one to drop, and the end of the dropped range wraps: every bit stays. */
  lemma LargeDropKeepsAll(b: seq<bool>)
    requires |b| == 0x8000_0001
    ensures Fair(Ones({71, 103})) && DrawAt(Ones({71, 103}), 0, 8) == 0
    ensures DropPlan(Ones({71, 103}), 8, [0x8000_0001], 5, 0).mask == seq(0x8000_0001, _ => true)
    ensures |Keep(b, DropPlan(Ones({71, 103}), 8, [0x8000_0001], 5, 0).mask)| == Sum([0x8000_0001])
  {
    hide DrawAt, ToNat, Slice, Keep, KeepAround, Fair;
    var s, requests := Ones({71, 103}), [0x8000_0001];
    ChoosesDrop(s, 104);
    LargePowers();
    DrawsNothing(s, 8, 32);
    DrawsPower(s, 40, 32, 31);
    DrawsPower(s, 72, 32, 31);
    OnePlan(s, 40, 0x8000_0001, 0);
    LargeDropMayWrap();
    assert requests[..0] == [];
    KeepShortens(b, DropPlan(s, 8, requests, 5, 0).mask);
  }

  /** The plan for a single request. */
  lemma OnePlan(s: Stream, pos: nat, size: nat, toDrop: nat)
    requires size > 0
    ensures PlanFor(s, pos, [size], toDrop, 5, 0) == Decide(s, pos, 0, size, toDrop, 5, 0)
  {
    hide Decide;
    assert [size][..0] == [];
    assert PlanFor(s, pos, [], toDrop, 5, 0) == Plan([], pos);
    var now := Decide(s, pos, 0, size, toDrop, 5, 0);
    assert [] + now.mask == now.mask;
  }

  /** A first draw of 0xFFFFFFFF switches the forced drop off: if the request is not dropped by its own draw, every bit stays. */
  lemma MarkerKeepsAll(s: Stream, size: nat)
    requires size > 0 && forall i: nat :: s(i) == (8 <= i < 45)
    ensures Fair(s) && DrawAt(s, 0, 8) == 0
    ensures DropPlan(s, 8, [size], 5, 0).mask == seq(size, _ => true)
  {
    hide ToNat, Slice, DrawAt, Fair;
    ChoosesDrop(s, 45);
    LargePowers();
    DrawsAllOnes(s, 8, 32);
    DrawsAllOnes(s, 40, 5);
    assert Pow2(5) == 32 by { FiveMore(0); }
    OnePlan(s, 40, size, DO_NOT_DROP);
  }

  // ----- A mask that clears nothing -----

  /** A mask that keeps all the bits it is drawn for changes no block of as many. */
  lemma KeepingMaskChangesNothing(mask: Word, block: seq<bool>)
    requires |block| <= 64 && KeepsAll(mask, |block|)
    ensures NewBlock(MaskBlock(0, |block|, mask), block) == block
  {
  }

  /** 64 ones and then zeroes: the all-ones mask is corrected by clearing the bits below bit 0. */
  lemma LargeMaskKeepsEverything(s: Stream, block: seq<bool>)
    requires (forall i: nat :: s(i) == (i < 64)) && |block| == 64
    ensures EditFor(MASK, 64, s, 0).edit == MaskBlock(0, 64, MaskFor(64, s, 0).0)
    ensures NewBlock(MaskBlock(0, 64, MaskFor(64, s, 0).0), block) == block
  {
    hide DrawAt, ToNat, NewBlock, MaskFor;
    DrawsNothing(s, 128, 8);
    MaskKeepsEverything(64, s, 0);
    KeepingMaskChangesNothing(MaskFor(64, s, 0).0, block);
  }

  /** A small request: as many ones as its bits, and it stays as it is, without any correction. */
  lemma SmallMaskKeepsEverything(s: Stream, n: nat, block: seq<bool>)
    requires 0 < n < 64 && |block| == n && forall i: nat :: i < n ==> s(i)
    ensures EditFor(MASK, n, s, 0).edit == MaskBlock(0, n, MaskFor(n, s, 0).0)
    ensures NewBlock(MaskBlock(0, n, MaskFor(n, s, 0).0), block) == block
  {
    hide DrawAt, ToNat, NewBlock, MaskFor;
    forall i: nat | i < n ensures InEither(s, 0, n, i) { assert s(0 + i); }
    MaskKeepsEverything(n, s, 0);
    KeepingMaskChangesNothing(MaskFor(n, s, 0).0, block);
  }

  // ----- A failure reported without confirmation -----

  /** The property fails once. The trial hook asks for it to be called again, and then it skips. */
  function SkipsWhenRepeated(): Callbacks {
    Callbacks(n => (ALLOC_OK, Made([], [])), (n, i, c, k) => (SHRINK_NO_MORE_TACTICS, Made([], [])),
      (n, values) => if n < 3 then TrialResult.FAIL else TrialResult.SKIP, (i, c) => ZERO,
      n => PRE_CONTINUE, n => POST_CONTINUE, n => REPEAT_CONTINUE, n => PRE_CONTINUE,
      n => if n < 5 then REPEAT else REPEAT_CONTINUE, n => POST_CONTINUE)
  }

  /** A trial of one argument, from step 0 to step 6: it counts a failure and goes well, though the only call made again did not fail. */
  lemma UnconfirmedFailure()
    ensures var cb, types := SkipsWhenRepeated(), [ArgType(false, false, true)];
      var made := MadeAt(cb, types, 0);
      var marks := [HashOf(cb, made)];
      var trial := Trial(0, 6, [], Shrinking([], None, 3, [[]], 3, marks), REPEAT_CONTINUE);
      && Patient(cb) && Lawful(cb, types, trial, marks)
      && CounterAt(cb, types, 0, [], trial.sh) == FailCounter && ResultAt(cb, types, trial) == STEP_OK
      && !Confirmed(cb, ValuesOf(made), 3, 6)
  {
    hide HashOf, BloomSpec.Probe, BloomSpec.BlockId;
    var cb, types := SkipsWhenRepeated(), [ArgType(false, false, true)];
    var made := MadeAt(cb, types, 0);
    var values := ValuesOf(made);
    assert GenFrom(cb, 0, 1) == GenFrom(cb, 1, 0) == GEN_OK;
    assert !BloomSpec.Check(BloomSpec.MarkAll(BloomSpec.Empty(), []), HashOf(cb, made));
    assert GetsRun(cb, types, 0, []);
    assert [] + [HashOf(cb, made)] == [HashOf(cb, made)];
    assert cb.trialPost(5) != REPEAT;
    forall n: nat ensures Answers(cb.trialPost, n) { assert cb.trialPost(n + 5) != REPEAT; }
    forall n: nat ensures Answers(cb.shrinkTrialPost, n) { assert cb.shrinkTrialPost(n) != REPEAT; }
    assert CalledAgain(cb, values, 5, 6, REPEAT_CONTINUE);
    assert cb.prop(5, values) != TrialResult.FAIL;
  }
}
