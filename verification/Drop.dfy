/**
drop_from_bit_pool (src/theft_autoshrink.c): the shrinking step that leaves out whole requests,
or a stretch of a large one.
*/
module Drop {
  import opened Bits
  import opened BitPool
  import opened PoolEdit
  import opened Random
  import opened Draws
  import opened Weights

  const DO_NOT_DROP: nat := 0xFFFF_FFFF
  const UINT32: nat := 0x1_0000_0000

  // ----- What is kept, as a function of the requests and the bit stream the draws come from -----

  /** The bits of `b` that `mask` keeps, in order. */
  function Keep(b: seq<bool>, mask: seq<bool>): seq<bool>
    requires |b| == |mask|
  {
    if b == [] then [] else
      var n := |b| - 1;
      Keep(b[..n], mask[..n]) + (if mask[n] then [b[n]] else [])
  }

  /** Which bits survive when `dropSize` + 1 bits are dropped from `dropOffset` on: the end of the range is a uint32_t. */
  function KeepAround(size: nat, dropOffset: nat, dropSize: nat): (r: seq<bool>)
    ensures |r| == size
  {
    seq(size, i requires 0 <= i < size => i < dropOffset || i > (dropOffset + dropSize) % UINT32)
  }

  /** The decisions so far: which bits to keep, and how much of the draw stream is used. */
  datatype Plan = Plan(mask: seq<bool>, pos: nat)

  /** Is request `ri` dropped? The chosen one always is, without a draw. */
  predicate Dropped(s: Stream, pos: nat, ri: nat, toDrop: nat, bits: nat, threshold: nat) {
    ri == toDrop || DrawAt(s, pos, bits) <= threshold
  }

  function AfterDecision(pos: nat, ri: nat, toDrop: nat, bits: nat): nat {
    if ri == toDrop then pos else pos + bits
  }

  /** The decision for request `ri` of `size` bits. */
  function Decide(s: Stream, pos: nat, ri: nat, size: nat, toDrop: nat, bits: nat, threshold: nat): (r: Plan)
    requires size > 0
    ensures |r.mask| == size
  {
    var p := AfterDecision(pos, ri, toDrop, bits);
    if !Dropped(s, pos, ri, toDrop, bits, threshold) then Plan(seq(size, _ => true), p)
    else if size > 64 then Plan(KeepAround(size, DrawAt(s, p, 32) % size, DrawAt(s, p + 32, 32) % size), p + 64)
    else Plan(Zeros(size), p)
  }

  function PlanFor(s: Stream, pos: nat, requests: seq<nat>, toDrop: nat, bits: nat, threshold: nat): (r: Plan)
    requires AllPositive(requests)
    ensures |r.mask| == Sum(requests)
  {
    if requests == [] then Plan([], pos) else
      var n := |requests| - 1;
      var before := PlanFor(s, pos, requests[..n], toDrop, bits, threshold);
      var now := Decide(s, before.pos, n, requests[n], toDrop, bits, threshold);
      Plan(before.mask + now.mask, now.pos)
  }

  /** The request that must go: the first draw, reduced to an index unless it is the do-not-drop marker. */
  function ChosenDrop(first: nat, count: nat): nat {
    if first != DO_NOT_DROP && count > 0 then first % count else first
  }

  /** The whole plan of one call, from its first draw. */
  function DropPlan(s: Stream, pos: nat, requests: seq<nat>, bits: nat, threshold: nat): (r: Plan)
    requires AllPositive(requests)
    ensures |r.mask| == Sum(requests)
  {
    PlanFor(s, pos + 32, requests, ChosenDrop(DrawAt(s, pos, 32), |requests|), bits, threshold)
  }

  // ----- Properties of the plan -----

  /** `kept` is `b` at the positions `from`: they rise, and are exactly those where the mask is set. */
  ghost predicate Picks(from: seq<nat>, b: seq<bool>, mask: seq<bool>, kept: seq<bool>) {
    && |from| == |kept| && |b| == |mask|
    && (forall i :: 0 <= i < |from| ==> from[i] < |b| && mask[from[i]] && kept[i] == b[from[i]])
    && (forall i, j :: 0 <= i < j < |from| ==> from[i] < from[j])
    && (forall k :: 0 <= k < |b| && mask[k] ==> k in from)
  }

  lemma PicksMore(from: seq<nat>, b: seq<bool>, mask: seq<bool>, kept: seq<bool>, bit: bool)
    requires Picks(from, b, mask, kept)
    ensures Picks(from, b + [bit], mask + [false], kept)
    ensures Picks(from + [|b|], b + [bit], mask + [true], kept + [bit])
  {
    var more := from + [|b|];
    forall k | 0 <= k <= |b| && (mask + [true])[k]
      ensures k in more
    {
      if k < |b| { assert k in from; } else { assert more[|from|] == k; }
    }
  }

  /** What is kept is a subsequence, and every bit to keep is in it. */
  lemma {:induction false} KeepIsSubsequence(b: seq<bool>, mask: seq<bool>) returns (from: seq<nat>)
    requires |b| == |mask|
    ensures Picks(from, b, mask, Keep(b, mask))
  {
    from := [];
    if b != [] {
      hide Picks;
      var n := |b| - 1;
      from := KeepIsSubsequence(b[..n], mask[..n]);
      PicksMore(from, b[..n], mask[..n], Keep(b[..n], mask[..n]), b[n]);
      assert b == b[..n] + [b[n]] && mask == mask[..n] + [mask[n]];
      if mask[n] { from := from + [n]; }
    }
  }

  /** Something is left out exactly when the mask has a hole. */
  lemma {:induction false} KeepShortens(b: seq<bool>, mask: seq<bool>)
    requires |b| == |mask|
    ensures |Keep(b, mask)| <= |b|
    ensures |Keep(b, mask)| < |b| <==> false in mask
  {
    if b != [] {
      var n := |b| - 1;
      KeepShortens(b[..n], mask[..n]);
      assert mask == mask[..n] + [mask[n]];
    }
  }

  lemma KeepStep(b: seq<bool>, mask: seq<bool>, k: nat)
    requires k < |mask| <= |b|
    ensures Keep(b[..k + 1], mask[..k + 1]) == Keep(b[..k], mask[..k]) + (if mask[k] then [b[k]] else [])
  {
    assert b[..k + 1][..k] == b[..k] && mask[..k + 1][..k] == mask[..k];
  }

  /**
  A large request loses a bit exactly when the end of the dropped range does not wrap past 32 bits; if it
  wraps, nothing at all is dropped.
  */
  lemma LargeDropLosesBits(size: nat, dropOffset: nat, dropSize: nat)
    requires dropOffset < size <= UINT32 && dropSize < size
    ensures false in KeepAround(size, dropOffset, dropSize) <==> dropOffset + dropSize < UINT32
  {
    var kept := KeepAround(size, dropOffset, dropSize);
    if dropOffset + dropSize < UINT32 {
      assert !kept[dropOffset];
    } else {
      assert (dropOffset + dropSize) % UINT32 == dropOffset + dropSize - UINT32;
      forall i | 0 <= i < size ensures kept[i] {}
    }
  }

  /** Does the decision for request `ri` leave out at least one bit? */
  predicate Loses(s: Stream, pos: nat, ri: nat, size: nat, toDrop: nat, bits: nat, threshold: nat)
    requires size > 0
  {
    && Dropped(s, pos, ri, toDrop, bits, threshold)
    && var p := AfterDecision(pos, ri, toDrop, bits);
       (size > 64 ==> DrawAt(s, p, 32) % size + DrawAt(s, p + 32, 32) % size < UINT32)
  }

  lemma DecisionLoses(s: Stream, pos: nat, ri: nat, size: nat, toDrop: nat, bits: nat, threshold: nat)
    requires 0 < size < UINT32
    ensures false in Decide(s, pos, ri, size, toDrop, bits, threshold).mask
      <==> Loses(s, pos, ri, size, toDrop, bits, threshold)
  {
    var p := AfterDecision(pos, ri, toDrop, bits);
    if size > 64 {
      LargeDropLosesBits(size, DrawAt(s, p, 32) % size, DrawAt(s, p + 32, 32) % size);
    } else {
      assert !Zeros(size)[0];
    }
  }

  /** Request sizes are uint32_t. */
  predicate Fit32(requests: seq<nat>) {
    forall i :: 0 <= i < |requests| ==> requests[i] < UINT32
  }

  /** Does the plan leave out a bit of request `ri`? */
  predicate LosesAt(s: Stream, pos: nat, requests: seq<nat>, ri: nat, toDrop: nat, bits: nat, threshold: nat)
    requires AllPositive(requests) && ri < |requests|
  {
    Loses(s, PlanFor(s, pos, requests[..ri], toDrop, bits, threshold).pos, ri, requests[ri], toDrop, bits, threshold)
  }

  /** The plan leaves out a bit if and only if some request's decision does. */
  lemma {:induction false} PlanLoses(s: Stream, pos: nat, requests: seq<nat>, toDrop: nat, bits: nat, threshold: nat)
    requires AllPositive(requests) && Fit32(requests)
    ensures false in PlanFor(s, pos, requests, toDrop, bits, threshold).mask
      <==> exists ri :: 0 <= ri < |requests| && LosesAt(s, pos, requests, ri, toDrop, bits, threshold)
  {
    hide Loses, Decide, DrawAt;
    if requests != [] {
      var n := |requests| - 1;
      PlanLoses(s, pos, requests[..n], toDrop, bits, threshold);
      var before := PlanFor(s, pos, requests[..n], toDrop, bits, threshold);
      DecisionLoses(s, before.pos, n, requests[n], toDrop, bits, threshold);
      forall ri | 0 <= ri < n
        ensures LosesAt(s, pos, requests[..n], ri, toDrop, bits, threshold)
          == LosesAt(s, pos, requests, ri, toDrop, bits, threshold)
      {
        assert requests[..n][..ri] == requests[..ri];
      }
      var now := Decide(s, before.pos, n, requests[n], toDrop, bits, threshold);
      assert PlanFor(s, pos, requests, toDrop, bits, threshold).mask == before.mask + now.mask;
      assert LosesAt(s, pos, requests, n, toDrop, bits, threshold) == (false in now.mask);
    }
  }

  /** Does the drop that starts at `pos` leave out a bit of request `ri`? */
  predicate DropLosesAt(s: Stream, pos: nat, requests: seq<nat>, ri: nat, bits: nat, threshold: nat)
    requires AllPositive(requests) && ri < |requests|
  {
    LosesAt(s, pos + 32, requests, ri, ChosenDrop(DrawAt(s, pos, 32), |requests|), bits, threshold)
  }

  /** Does it leave out a bit of any request? */
  ghost predicate DropLoses(s: Stream, pos: nat, requests: seq<nat>, bits: nat, threshold: nat)
    requires AllPositive(requests)
  {
    exists ri :: 0 <= ri < |requests| && DropLosesAt(s, pos, requests, ri, bits, threshold)
  }

  /** Exactly when a drop makes the pool shorter than what was consumed: when the decision for some request loses a bit. */
  lemma DropShortensExactly(s: Stream, pos: nat, requests: seq<nat>, bits: nat, threshold: nat, b: seq<bool>)
    requires AllPositive(requests) && Fit32(requests) && |b| == Sum(requests)
    ensures |Keep(b, DropPlan(s, pos, requests, bits, threshold).mask)| < Sum(requests)
      <==> DropLoses(s, pos, requests, bits, threshold)
  {
    hide LosesAt, DrawAt, PlanFor;
    var start, toDrop := pos + 32, ChosenDrop(DrawAt(s, pos, 32), |requests|);
    PlanLoses(s, start, requests, toDrop, bits, threshold);
    if ri :| 0 <= ri < |requests| && LosesAt(s, start, requests, ri, toDrop, bits, threshold) {
      assert DropLosesAt(s, pos, requests, ri, bits, threshold);
    }
    if ri :| 0 <= ri < |requests| && DropLosesAt(s, pos, requests, ri, bits, threshold) {
      assert LosesAt(s, start, requests, ri, toDrop, bits, threshold);
    }
    KeepShortens(b, DropPlan(s, pos, requests, bits, threshold).mask);
  }

  /**
  With at least one request, none above 2^31 bits, and a first draw other than the do-not-drop marker, a drop
  always makes the pool shorter than what was consumed.
  */
  lemma DropShortens(s: Stream, pos: nat, requests: seq<nat>, bits: nat, threshold: nat, b: seq<bool>)
    requires AllPositive(requests) && |requests| > 0 && |b| == Sum(requests)
    requires forall i :: 0 <= i < |requests| ==> requests[i] <= 0x8000_0000
    requires DrawAt(s, pos, 32) != DO_NOT_DROP
    ensures |Keep(b, DropPlan(s, pos, requests, bits, threshold).mask)| < Sum(requests)
  {
    var toDrop := DrawAt(s, pos, 32) % |requests|;
    assert DropLosesAt(s, pos, requests, toDrop, bits, threshold);
    DropShortensExactly(s, pos, requests, bits, threshold, b);
  }

  /** Above 2^31 bits that can fail: the forced drop of this request drops nothing. */
  lemma LargeDropMayWrap()
    ensures KeepAround(0x8000_0001, 0x8000_0000, 0x8000_0000) == seq(0x8000_0001, _ => true)
  {
    LargeDropLosesBits(0x8000_0001, 0x8000_0000, 0x8000_0000);
  }

  // ----- What a plan does to each request -----

  /** The part of a plan's mask that is about request `ri` is the decision made for it, on the draws that follow those for the requests before. */
  lemma {:induction false} PlanPart(s: Stream, pos: nat, requests: seq<nat>, toDrop: nat, bits: nat, threshold: nat, ri: nat)
    requires AllPositive(requests) && ri < |requests|
    ensures Sum(requests[..ri]) + requests[ri] <= Sum(requests)
    ensures PlanFor(s, pos, requests, toDrop, bits, threshold).mask[Sum(requests[..ri])..Sum(requests[..ri]) + requests[ri]]
      == Decide(s, PlanFor(s, pos, requests[..ri], toDrop, bits, threshold).pos, ri, requests[ri], toDrop, bits, threshold).mask
  {
    hide Decide;
    RequestInside(requests, ri);
    var n := |requests| - 1;
    if ri < n {
      PlanPart(s, pos, requests[..n], toDrop, bits, threshold, ri);
      assert requests[..n][..ri] == requests[..ri];
    }
  }

  /** A request that is not the forced one stays, whole, if its odds draw is above the threshold. */
  lemma StaysWhole(s: Stream, pos: nat, ri: nat, size: nat, toDrop: nat, bits: nat, threshold: nat)
    requires size > 0 && ri != toDrop && DrawAt(s, pos, bits) > threshold
    ensures Decide(s, pos, ri, size, toDrop, bits, threshold) == Plan(seq(size, _ => true), pos + bits)
  {
    hide DrawAt;
  }

  /** A small one goes, whole, if it is the forced one, without a draw, or if its odds draw is at most the threshold. */
  lemma GoesWhole(s: Stream, pos: nat, ri: nat, size: nat, toDrop: nat, bits: nat, threshold: nat)
    requires 0 < size <= 64 && (ri == toDrop || DrawAt(s, pos, bits) <= threshold)
    ensures Decide(s, pos, ri, size, toDrop, bits, threshold)
      == Plan(seq(size, _ => false), if ri == toDrop then pos else pos + bits)
  {
    hide DrawAt;
    assert Zeros(size) == seq(size, _ => false);
  }

  /** Of a large one goes the stretch that the next two draws name: it begins at the first, and ends the second bits further on. */
  lemma GoesInPart(s: Stream, pos: nat, ri: nat, size: nat, toDrop: nat, bits: nat, threshold: nat, at: nat, more: nat, i: nat)
    requires size > 64 && (ri == toDrop || DrawAt(s, pos, bits) <= threshold) && i < size && at < size && more < size
    requires var p := if ri == toDrop then pos else pos + bits; DrawAt(s, p, 32) == at && DrawAt(s, p + 32, 32) == more
    requires at + more < UINT32
    ensures var d := Decide(s, pos, ri, size, toDrop, bits, threshold);
      && d.pos == (if ri == toDrop then pos else pos + bits) + 64
      && (d.mask[i] <==> i < at || i > at + more)
  {
    hide DrawAt, KeepAround;
    SmallRemainder(at, size);
    SmallRemainder(more, size);
    assert Decide(s, pos, ri, size, toDrop, bits, threshold).mask == KeepAround(size, at, more);
    KeptAround(size, at, more, i);
  }

  lemma KeptAround(size: nat, at: nat, more: nat, i: nat)
    requires i < size && at + more < UINT32
    ensures KeepAround(size, at, more)[i] <==> i < at || i > at + more
  {
  }

  /** The bits a large drop leaves out. */
  function Missing(mask: seq<bool>): set<nat> {
    set i: nat | i < |mask| && !mask[i]
  }

  /** They are one more than drawn, or all from there to the end. */
  lemma MissingCount(size: nat, at: nat, more: nat)
    requires at < size && more < size && at + more < UINT32
    ensures |Missing(KeepAround(size, at, more))| == if at + more < size then more + 1 else size - at
  {
    var n := if at + more < size then more + 1 else size - at;
    var mask := KeepAround(size, at, more);
    forall i: nat ensures i in Missing(mask) <==> i in Range(at, n) {
      if i < size { assert mask[i] <==> !InRun(i, at, n); }
      assert i in Range(at, n) <==> InRun(i, at, n);
    }
    assert Missing(mask) == Range(at, n);
    RangeHas(at, n);
  }

  /** Any request can be the forced one: it is the one the first draw names. */
  lemma DrawForces(s: Stream, pos: nat, requests: seq<nat>, bits: nat, threshold: nat, ri: nat)
    requires AllPositive(requests) && ri < |requests| && DrawAt(s, pos, 32) == ri && ri != 0xFFFF_FFFF
    ensures DropPlan(s, pos, requests, bits, threshold) == PlanFor(s, pos + 32, requests, ri, bits, threshold)
  {
    hide DrawAt, PlanFor;
    SmallRemainder(ri, |requests|);
  }

  // ----- The in-place copy -----

  /** The buffer holds exactly the bits `out`, and zeroes after them. */
  ghost predicate Holds(bytes: seq<bv8>, out: seq<bool>) {
    && |out| <= 8 * |bytes|
    && forall i: nat :: i < 8 * |bytes| ==> PoolBit(bytes, i) == (i < |out| && out[i])
  }

  /** A byte index and a one-hot mask. */
  datatype Place = Place(byte: nat, mask: bv8)

  /** The place that bit `offset` has. */
  predicate IsAt(place: Place, offset: nat) {
    place.byte == offset / 8 && place.mask == OneHot(offset % 8)
  }

  /** Moves on by one bit: shift the mask, and start the next byte when it runs out. */
  method Advance(place: Place, ghost offset: nat) returns (next: Place)
    requires IsAt(place, offset)
    ensures IsAt(next, offset + 1)
  {
    hide OneHot;
    OneHotStep(offset % 8);
    MaskStart();
    next := Place(place.byte, place.mask << 1);
    if next.mask == 0x00 {
      next := Place(place.byte + 1, 0x01);
    }
  }

  /** Appends the source bit at `src` to the destination, whose next free bit is `dst`. */
  method CopyBit(orig: BitPool, copy: BitPool, src: Place, dst: Place, ghost from: nat, ghost out: seq<bool>)
    requires orig.bits != copy.bits && IsAt(src, from) && IsAt(dst, |out|)
    requires from < 8 * orig.bits.Length && |out| < 8 * copy.bits.Length && Holds(copy.bits[..], out)
    modifies copy.bits
    ensures Holds(copy.bits[..], out + [PoolBit(orig.bits[..], from)])
  {
    hide OneHot, BitOf, Put, PoolBit, Holds;
    var bit := TestBit(orig, src, from);
    ghost var was := copy.bits[..];
    if bit {
      copy.bits[dst.byte] := Put(copy.bits[dst.byte], dst.mask, true);
    }
    BitAppended(was, copy.bits[..], out, bit);
  }

  /** `orig->bits[src_byte] & src_bit` */
  method TestBit(pool: BitPool, place: Place, ghost i: nat) returns (bit: bool)
    requires IsAt(place, i) && i < 8 * pool.bits.Length
    ensures bit == PoolBit(pool.bits[..], i)
  {
    hide OneHot, BitOf, PoolBit;
    MaskReads(pool.bits[..], i);
    bit := pool.bits[place.byte] & place.mask != 0;
  }

  lemma BitAppended(was: seq<bv8>, now: seq<bv8>, out: seq<bool>, bit: bool)
    requires Holds(was, out) && |out| < 8 * |was|
    requires now == if bit then was[|out| / 8 := Put(was[|out| / 8], OneHot(|out| % 8), true)] else was
    ensures Holds(now, out + [bit])
  {
    hide OneHot, BitOf;
    forall i: nat | i < 8 * |was|
      ensures PoolBit(now, i) == (i < |out| + 1 && (out + [bit])[i])
    {
      if bit && i / 8 == |out| / 8 {
        SetBit(was[i / 8], |out| % 8, i % 8);
        assert i == |out| <==> i % 8 == |out| % 8;
      }
      assert PoolBit(now, i) == (PoolBit(was, i) || (bit && i == |out|));
    }
  }

  /** Where a copy in progress stands: both places, and the destination offset. */
  datatype Progress = Progress(src: Place, dst: Place, dstOffset: nat)

  /** The first `from` source bits are done: the destination holds those the mask keeps, and nothing else. */
  ghost predicate Done(orig: BitPool, copy: BitPool, at: Progress, from: nat, mask: seq<bool>)
    reads orig, orig.bits, copy, copy.bits
  {
    && orig.bits != copy.bits && from <= |mask| <= orig.consumed
    && orig.consumed <= 8 * orig.bits.Length && orig.consumed <= 8 * copy.bits.Length
    && IsAt(at.src, from) && IsAt(at.dst, at.dstOffset)
    && at.dstOffset == |Kept(orig, from, mask)|
    && Holds(copy.bits[..], Kept(orig, from, mask))
  }

  /** Of the first `from` consumed bits of `orig`, those the mask keeps. */
  ghost function Kept(orig: BitPool, from: nat, mask: seq<bool>): seq<bool>
    requires from <= |mask|
    reads orig, orig.bits
  {
    Keep(Slice(BitsOf(orig.bits[..]), 0, from), mask[..from])
  }

  lemma KeptStep(orig: BitPool, from: nat, mask: seq<bool>)
    requires from < |mask|
    ensures Kept(orig, from + 1, mask)
      == Kept(orig, from, mask) + (if mask[from] then [PoolBit(orig.bits[..], from)] else [])
    ensures |Kept(orig, from, mask)| <= from
  {
    hide PoolBit;
    var s := BitsOf(orig.bits[..]);
    var b := Slice(s, 0, |mask|);
    assert b[..from] == Slice(s, 0, from) && b[..from + 1] == Slice(s, 0, from + 1);
    assert b[from] == s(0 + from);
    KeepStep(b, mask, from);
    KeepShortens(b[..from], mask[..from]);
  }

  /** Copies one bit and moves both places on. */
  method TakeBit(orig: BitPool, copy: BitPool, at: Progress, ghost from: nat, ghost mask: seq<bool>) returns (next: Progress)
    requires from < |mask| && mask[from] && Done(orig, copy, at, from, mask)
    modifies copy.bits
    ensures Done(orig, copy, next, from + 1, mask)
  {
    hide OneHot, BitOf, Put, PoolBit, Keep, Holds;
    KeptStep(orig, from, mask);
    ghost var bytes := orig.bits[..];
    CopyBit(orig, copy, at.src, at.dst, from, Kept(orig, from, mask));
    assert orig.bits[..] == bytes;
    var src := Advance(at.src, from);
    var dst := Advance(at.dst, at.dstOffset);
    next := Progress(src, dst, at.dstOffset + 1);
  }

  /** Passes over one source bit. */
  method SkipBit(orig: BitPool, copy: BitPool, at: Progress, ghost from: nat, ghost mask: seq<bool>) returns (next: Progress)
    requires from < |mask| && !mask[from] && Done(orig, copy, at, from, mask)
    ensures Done(orig, copy, next, from + 1, mask)
  {
    hide OneHot, BitOf, Put, PoolBit, Keep, Holds;
    KeptStep(orig, from, mask);
    assert Kept(orig, from + 1, mask) == Kept(orig, from, mask);
    var src := Advance(at.src, from);
    next := at.(src := src);
  }

  lemma Begin(orig: BitPool, copy: BitPool, at: Progress)
    requires orig.WellFormed() && orig.bits != copy.bits && orig.consumed <= 8 * copy.bits.Length
    requires at == Progress(Place(0, 0x01), Place(0, 0x01), 0) && Holds(copy.bits[..], [])
    ensures Done(orig, copy, at, 0, [])
  {
  }

  /** Deciding about more bits does not undo what is done. */
  lemma Extend(orig: BitPool, copy: BitPool, at: Progress, mask: seq<bool>, longer: seq<bool>)
    requires Done(orig, copy, at, |mask|, mask) && mask <= longer && |longer| <= orig.consumed
    ensures Done(orig, copy, at, |mask|, longer)
  {
    hide OneHot, BitOf, Keep, Holds;
    assert longer[..|mask|] == mask[..|mask|];
  }

  lemma Finish(orig: BitPool, copy: BitPool, at: Progress, mask: seq<bool>)
    requires Done(orig, copy, at, |mask|, mask)
    ensures at.dstOffset == |Kept(orig, |mask|, mask)| && Holds(copy.bits[..], Kept(orig, |mask|, mask))
    ensures at.dstOffset <= |mask|
  {
    hide OneHot, BitOf, Holds, Keep;
    KeepShortens(Slice(BitsOf(orig.bits[..]), 0, |mask|), mask[..|mask|]);
  }

  /** Part of a large request goes: its bits up to the chosen offset and past the chosen end stay. */
  method CopyAround(orig: BitPool, copy: BitPool, size: nat, dropOffset: nat, dropSize: nat, at: Progress,
                    ghost from: nat, ghost mask: seq<bool>) returns (next: Progress)
    requires from + size == |mask| && mask[from..] == KeepAround(size, dropOffset, dropSize)
    requires Done(orig, copy, at, from, mask)
    modifies copy.bits
    ensures Done(orig, copy, next, from + size, mask)
  {
    hide OneHot, BitOf, Put, PoolBit, Keep, Holds, Done, Kept;
    next := at;
    for bi := 0 to size
      invariant Done(orig, copy, next, from + bi, mask)
    {
      assert mask[from + bi] == KeepAround(size, dropOffset, dropSize)[bi];
      if bi < dropOffset || bi > (dropOffset + dropSize) % UINT32 {
        next := TakeBit(orig, copy, next, from + bi, mask);
      } else {
        next := SkipBit(orig, copy, next, from + bi, mask);
      }
    }
  }

  /** The body of the loop over requests: drop part of a large request, drop a small one whole, or copy it. */
  method DropRequest(prng: Prng, orig: BitPool, copy: BitPool, ri: nat, toDrop: nat, bits: nat, threshold: nat,
                     at: Progress, ghost s: Stream, ghost pos: nat, ghost before: seq<bool>) returns (next: Progress)
    requires Drawing(prng, s, pos) && bits <= 64 && ri < |orig.requests| && orig.requests[ri] > 0
    requires orig != copy && prng.rng.mt != orig.bits as object && prng.rng.mt != copy.bits as object
    requires Done(orig, copy, at, |before|, before + Decide(s, pos, ri, orig.requests[ri], toDrop, bits, threshold).mask)
    modifies prng`buf, prng`bitsAvailable, prng.rng, prng.rng.mt, copy.bits
    ensures prng.rng.seed == old(prng.rng.seed)
    ensures var now := Decide(s, pos, ri, orig.requests[ri], toDrop, bits, threshold);
      && Drawing(prng, s, now.pos)
      && Done(orig, copy, next, |before + now.mask|, before + now.mask)
  {
    hide OneHot, BitOf, Put, PoolBit, Keep, Holds, DrawAt, Done, Kept, Drawing;
    var size := orig.requests[ri];
    ghost var now := Decide(s, pos, ri, size, toDrop, bits, threshold);
    ghost var mask := before + now.mask;
    next := at;
    var drop := ri == toDrop;
    if !drop {
      var odds := Draw(prng, bits, s, pos);
      drop := odds <= threshold;
    }
    ghost var p := AfterDecision(pos, ri, toDrop, bits);
    if drop {
      if size > 64 {
        var dropOffset := Draw(prng, 32, s, p);
        dropOffset := dropOffset % size;
        var dropSize := Draw(prng, 32, s, p + 32);
        dropSize := dropSize % size;
        next := CopyAround(orig, copy, size, dropOffset, dropSize, next, |before|, mask);
      } else {
        for bi := 0 to size
          invariant Done(orig, copy, next, |before| + bi, mask)
          modifies {}
        {
          next := SkipBit(orig, copy, next, |before| + bi, mask);
        }
      }
    } else {
      for bi := 0 to size
        invariant Done(orig, copy, next, |before| + bi, mask)
        modifies copy.bits
      {
        next := TakeBit(orig, copy, next, |before| + bi, mask);
      }
    }
  }

  lemma CopyShortens(orig: BitPool, s: Stream, pos: nat, bits: nat, threshold: nat)
    requires AllPositive(orig.requests) && Fit32(orig.requests) && Sum(orig.requests) == orig.consumed
    ensures |Kept(orig, orig.consumed, DropPlan(s, pos, orig.requests, bits, threshold).mask)| < orig.consumed
      <==> DropLoses(s, pos, orig.requests, bits, threshold)
  {
    hide PoolBit, Keep, DropPlan, DropLosesAt;
    var mask := DropPlan(s, pos, orig.requests, bits, threshold).mask;
    assert mask[..orig.consumed] == mask;
    DropShortensExactly(s, pos, orig.requests, bits, threshold, Slice(BitsOf(orig.bits[..]), 0, orig.consumed));
  }

  /** drop_from_bit_pool. `bits` and `threshold` are the drop odds after defaulting. */
  method DropFromBitPool(prng: Prng, orig: BitPool, copy: BitPool, bits: nat, threshold: nat, ghost s: Stream, ghost pos: nat)
    requires Drawing(prng, s, pos) && bits <= 64
    requires orig.WellFormed() && copy.WellFormed() && orig != copy && orig.bits != copy.bits
    requires prng.rng.mt != orig.bits as object && prng.rng.mt != copy.bits as object
    requires orig.bitsFilled <= copy.bitsCeil && copy.consumed == 0 && Holds(copy.bits[..], [])
    modifies prng`buf, prng`bitsAvailable, prng.rng, prng.rng.mt, copy`bitsFilled, copy.bits
    ensures copy.WellFormed() && prng.rng.seed == old(prng.rng.seed)
    ensures var plan := DropPlan(s, pos, orig.requests, bits, threshold);
      && Drawing(prng, s, plan.pos)
      && copy.bitsFilled == |Kept(orig, orig.consumed, plan.mask)|
      && Holds(copy.bits[..], Kept(orig, orig.consumed, plan.mask))
    ensures Fit32(orig.requests) ==> (copy.bitsFilled < orig.consumed <==> DropLoses(s, pos, orig.requests, bits, threshold))
  {
    hide OneHot, BitOf, Put, PoolBit, Keep, Holds, DrawAt, Done, Kept, Drawing;
    var first := Draw(prng, 32, s, pos);
    var toDrop := ChosenDrop(first, |orig.requests|);
    var at := Progress(Place(0, 0x01), Place(0, 0x01), 0);
    ghost var plan := Plan([], pos + 32);
    ghost var from := 0;
    Begin(orig, copy, at);
    for ri := 0 to |orig.requests|
      invariant plan == PlanFor(s, pos + 32, orig.requests[..ri], toDrop, bits, threshold)
      invariant from == |plan.mask| == Sum(orig.requests[..ri])
      invariant Drawing(prng, s, plan.pos) && prng.rng.seed == old(prng.rng.seed)
      invariant Done(orig, copy, at, from, plan.mask)
    {
      RequestInside(orig.requests, ri);
      assert orig.requests[..ri + 1][..ri] == orig.requests[..ri];
      ghost var next := PlanFor(s, pos + 32, orig.requests[..ri + 1], toDrop, bits, threshold);
      Extend(orig, copy, at, plan.mask, next.mask);
      at := DropRequest(prng, orig, copy, ri, toDrop, bits, threshold, at, s, plan.pos, plan.mask);
      plan, from := next, from + orig.requests[ri];
    }
    assert orig.requests[..|orig.requests|] == orig.requests;
    Finish(orig, copy, at, plan.mask);
    if Fit32(orig.requests) { CopyShortens(orig, s, pos, bits, threshold); }
    copy.bitsFilled := at.dstOffset;
  }
}
