/**
choose_and_mutate_request and mutate_bit_pool (src/theft_autoshrink.c): in-place changes to the bits
of one request, or two, chosen by random draws.
*/
module Mutate {
  import opened Bits
  import opened BitPool
  import opened PoolEdit
  import opened Random
  import opened Draws
  import opened Weights

  // ----- The choice of an edit, as a function of the draw stream -----

  /** A change to request `ri`; block offsets are relative to the request. */
  datatype Edit =
    | ShiftBlock(at: nat, n: nat, shift: nat)
    | MaskBlock(at: nat, n: nat, mask: Word)
    | SubBlock(at: nat, n: nat, amount: nat)
    | SwapBlocks(a: nat, b: nat, n: nat)
    | SwapWithLater
    | NoEdit

  datatype Choice = Choice(edit: Edit, pos: nat)

  /** The part of a request to change: all of a small one, a drawn stretch of a large one. */
  datatype Region = Region(at: nat, n: nat, pos: nat)

  function RegionFor(size: nat, s: Stream, pos: nat): (r: Region)
    ensures r.at + r.n <= size
    ensures size <= 64 ==> r.at == 0 && r.n == size
  {
    if size > 64 then
      var at := DrawAt(s, pos, 32) % size;
      Region(at, Least(DrawAt(s, pos + 32, 6), size - at), pos + 38)
    else Region(0, size, pos)
  }

  /** Two's complement of `1 << k`: the mask that clears the bits below `k`. */
  function ClearBelow(k: nat): Word {
    seq(64, i requires 0 <= i < 64 => i >= k)
  }

  const ALL_ONES: Word := Mask(64)

  /** A mask that keeps a bit if either of two draws has it. The all-ones mask loses the bits below a drawn one. */
  function MaskFor(maskSize: nat, s: Stream, pos: nat): (Word, nat)
    requires 0 < maskSize <= 64
  {
    var either := Or(Slice(s, pos, maskSize) + Zeros(64 - maskSize), Slice(s, pos + maskSize, maskSize) + Zeros(64 - maskSize));
    var p := pos + maskSize + maskSize;
    if either == ALL_ONES then (And(either, ClearBelow(DrawAt(s, p, 8) % maskSize)), p + 8) else (either, p)
  }

  /** The mask keeps each of the `n` bits it is drawn for. */
  predicate KeepsAll(mask: Word, n: nat)
    requires n <= 64
  {
    forall i :: 0 <= i < n ==> mask[i]
  }

  /** One of the two draws has bit `i`. */
  predicate InEither(s: Stream, pos: nat, n: nat, i: nat) {
    s(pos + i) || s(pos + n + i)
  }

  /**
  A mask clears none of the bits it is drawn for if and only if both draws together are all ones and, for 64 bits, the correction
  draws bit 0. A mask of fewer bits is never corrected.
  */
  lemma MaskKeepsEverything(maskSize: nat, s: Stream, pos: nat)
    requires 0 < maskSize <= 64
    ensures KeepsAll(MaskFor(maskSize, s, pos).0, maskSize)
      <==> (forall i: nat :: i < maskSize ==> InEither(s, pos, maskSize, i))
           && (maskSize == 64 ==> DrawAt(s, pos + 128, 8) % 64 == 0)
  {
    hide DrawAt;
    var either := Or(Slice(s, pos, maskSize) + Zeros(64 - maskSize), Slice(s, pos + maskSize, maskSize) + Zeros(64 - maskSize));
    forall i: nat | i < maskSize ensures either[i] == InEither(s, pos, maskSize, i) {}
    if maskSize < 64 {
      assert !either[63];
    } else if KeepsAll(either, 64) {
      assert either == ALL_ONES;
      var k := DrawAt(s, pos + 128, 8) % 64;
      assert MaskFor(64, s, pos).0 == And(either, ClearBelow(k));
      if k > 0 { assert !And(either, ClearBelow(k))[0]; }
    } else {
      assert KeepsAll(ALL_ONES, 64);
    }
  }

  /** Halves a swap size until two such blocks fit. */
  function Halved(toSwap: nat, size: nat): (r: nat)
    requires size > 0
    ensures 2 * r < size && r <= toSwap
  {
    if 2 * toSwap >= size then Halved(toSwap / 2, size) else toSwap
  }

  predicate Overlap(a: nat, b: nat, n: nat) {
    (a < b && a + n > b) || (b < a && b + n > a)
  }

  function SwapFor(size: nat, s: Stream, pos: nat): Choice
    requires size > 0
  {
    if size <= 64 then Choice(SwapWithLater, pos)
    else
      var n := Halved(DrawAt(s, pos, 6), size);
      if n == 0 then Choice(NoEdit, pos + 6)
      else
        var a, b := DrawAt(s, pos + 6, 32) % (size - n), DrawAt(s, pos + 38, 32) % (size - 2 * n);
        Choice(if Overlap(a, b, n) then NoEdit else SwapBlocks(a, b, n), pos + 70)
  }

  function EditFor(action: Action, size: nat, s: Stream, pos: nat): Choice
    requires size > 0 && action != DROP
  {
    match action
    case SHIFT =>
      var r := RegionFor(size, s, pos + 2);
      Choice(ShiftBlock(r.at, r.n, DrawAt(s, pos, 2) + 1), r.pos)
    case MASK =>
      var (mask, p) := MaskFor(Least(size, 64), s, pos);
      var r := RegionFor(size, s, p);
      Choice(MaskBlock(r.at, r.n, mask), r.pos)
    case SUB =>
      var r := RegionFor(size, s, pos + Least(size, 64));
      Choice(SubBlock(r.at, r.n, DrawAt(s, pos, Least(size, 64))), r.pos)
    case _ => SwapFor(size, s, pos)
  }

  // ----- What an edit does -----

  predicate ChangesBlock(e: Edit) {
    e.ShiftBlock? || e.MaskBlock? || e.SubBlock?
  }

  /** The new bits of a block under a shift, mask or subtraction. */
  function NewBlock(e: Edit, block: seq<bool>): (r: seq<bool>)
    requires ChangesBlock(e) && |block| <= 64
    ensures |r| == |block|
  {
    match e
    case ShiftBlock(_, _, shift) => seq(|block|, i requires 0 <= i < |block| => i + shift < |block| && block[i + shift])
    case MaskBlock(_, _, mask) => seq(|block|, i requires 0 <= i < |block| => block[i] && mask[i])
    case SubBlock(_, _, amount) => if ToNat(block) == 0 then block else FromNat(Subtracted(ToNat(block), amount), |block|)
  }

  /** A number below `v`: less by the remainder of `amount`, or by one when that is nothing. */
  function Subtracted(v: nat, amount: nat): (r: nat)
    requires v > 0
    ensures r < v
  {
    if amount % v == 0 then v - 1 else v - amount % v
  }

  /** The bits that a request-relative block of request `ri` holds. */
  function Block(bytes: seq<bv8>, requests: seq<nat>, ri: nat, at: nat, n: nat): (r: seq<bool>)
    requires ri < |requests|
    ensures |r| == n
  {
    Slice(BitsOf(bytes), Sum(requests[..ri]) + at, n)
  }

  /** The edit stays inside request `ri`. */
  predicate Legal(e: Edit, requests: seq<nat>, ri: nat) {
    && ri < |requests|
    && (ChangesBlock(e) ==> e.n <= 64 && e.at + e.n <= requests[ri])
    && (e.SwapBlocks? ==> 0 < e.n <= 64 && e.a + e.n <= requests[ri] && e.b + e.n <= requests[ri] && !Overlap(e.a, e.b, e.n))
    && (e.SwapWithLater? ==> requests[ri] <= 64)
  }

  lemma EditForIsLegal(action: Action, requests: seq<nat>, ri: nat, s: Stream, pos: nat)
    requires ri < |requests| && requests[ri] > 0 && action != DROP
    ensures Legal(EditFor(action, requests[ri], s, pos).edit, requests, ri)
  {
    DrawBound(s, pos, 6);
    DrawBound(s, pos + 2 + 32, 6);
    DrawBound(s, MaskFor(Least(requests[ri], 64), s, pos).1 + 32, 6);
    DrawBound(s, pos + Least(requests[ri], 64) + 32, 6);
    assert Pow2(6) == 64 by { assert Pow2(3) == 8; }
  }

  /** Where bit `i` comes from when the stretches at `p` and `q` trade places. */
  function Origin(i: nat, p: nat, q: nat, n: nat): nat {
    if p <= i < p + n then q + (i - p) else if q <= i < q + n then p + (i - q) else i
  }

  /** Two equally long stretches of a buffer have traded places. */
  ghost predicate Swapped(before: seq<bv8>, after: seq<bv8>, p: nat, q: nat, n: nat) {
    && |after| == |before|
    && forall i: nat :: PoolBit(after, i) == PoolBit(before, Origin(i, p, q, n))
  }

  /** Request `i` comes after `ri`, is as long, and holds a smaller number. */
  predicate Smaller(bytes: seq<bv8>, requests: seq<nat>, ri: nat, i: nat) {
    && ri < i < |requests| && requests[i] == requests[ri]
    && ToNat(RequestBits(bytes, requests, i)) < ToNat(RequestBits(bytes, requests, ri))
  }

  /** `i` is the first request after `ri` that a swap would help. */
  ghost predicate FirstSmaller(bytes: seq<bv8>, requests: seq<nat>, ri: nat, i: nat) {
    Smaller(bytes, requests, ri, i) && forall j: nat :: ri < j < i ==> !Smaller(bytes, requests, ri, j)
  }

  /** The outcome of an edit: the new buffer, and whether the source reports a change. */
  ghost predicate Performs(e: Edit, requests: seq<nat>, ri: nat, before: seq<bv8>, after: seq<bv8>, changed: bool)
    requires Legal(e, requests, ri)
  {
    match e
    case SwapBlocks(a, b, n) =>
      if ToNat(Block(before, requests, ri, b, n)) < ToNat(Block(before, requests, ri, a, n))
      then changed && Swapped(before, after, Sum(requests[..ri]) + a, Sum(requests[..ri]) + b, n)
      else !changed && after == before
    case SwapWithLater =>
      if changed then
        exists i: nat :: FirstSmaller(before, requests, ri, i)
          && Swapped(before, after, Sum(requests[..ri]), Sum(requests[..i]), requests[ri])
      else after == before && forall i: nat :: !Smaller(before, requests, ri, i)
    case NoEdit => !changed && after == before
    case _ =>
      assert ChangesBlock(e);
      var block := Block(before, requests, ri, e.at, e.n);
      && Written(before, after, Sum(requests[..ri]) + e.at, e.n, NewBlock(e, block))
      && changed == (NewBlock(e, block) != block)
  }

  // ----- Descent -----

  /** Equally long vectors, the first lower at the first place where they differ. */
  ghost predicate LexLess(a: seq<nat>, b: seq<nat>) {
    |a| == |b| && exists k :: LowerAt(a, b, k)
  }

  predicate LowerAt(a: seq<nat>, b: seq<nat>, k: int) {
    0 <= k < |a| && k < |b| && a[k] < b[k] && forall j :: 0 <= j < k ==> a[j] == b[j]
  }

  ghost predicate LexLessEq(a: seq<nat>, b: seq<nat>) {
    a == b || LexLess(a, b)
  }

  lemma LexTransitive(a: seq<nat>, b: seq<nat>, c: seq<nat>)
    requires LexLessEq(a, b) && LexLessEq(b, c)
    ensures LexLessEq(a, c) && (LexLess(a, b) || LexLess(b, c) ==> LexLess(a, c))
  {
    if a != b && b != c {
      var k :| LowerAt(a, b, k);
      var m :| LowerAt(b, c, m);
      assert LowerAt(a, c, if k < m then k else m);
    }
  }

  /** A changed shift, mask or subtraction always leaves a smaller number in its block. */
  lemma NewBlockLowers(e: Edit, block: seq<bool>)
    requires ChangesBlock(e) && |block| <= 64
    ensures NewBlock(e, block) == block || ToNat(NewBlock(e, block)) < ToNat(block)
  {
    var result := NewBlock(e, block);
    match e {
      case ShiftBlock(_, _, shift) =>
        var k := Least(shift, |block|);
        assert result == block[k..] + Zeros(k);
        ToNatPad(block[k..], k);
        ToNatDrop(block, k);
      case MaskBlock(_, _, _) =>
        ToNatSubset(result, block);
      case SubBlock(_, _, amount) =>
        if ToNat(block) > 0 {
          ToNatBound(block);
          ToNatFromNat(Subtracted(ToNat(block), amount), |block|);
        }
    }
    if ToNat(result) == ToNat(block) { ToNatInjective(result, block); }
  }

  /** A write inside one request leaves the bits of every other request alone. */
  lemma OthersUntouched(requests: seq<nat>, ri: nat, before: seq<bv8>, after: seq<bv8>, j: nat)
    requires ri < |requests| && j < |requests| && j != ri && |after| == |before|
    requires forall i: nat :: !(Sum(requests[..ri]) <= i < Sum(requests[..ri + 1])) ==> PoolBit(after, i) == PoolBit(before, i)
    ensures RequestBits(after, requests, j) == RequestBits(before, requests, j)
  {
    hide PoolBit;
    RequestInside(requests, j);
    if j < ri { SumMonotone(requests, j + 1, ri); } else { SumMonotone(requests, ri + 1, j); }
    SliceEqual(BitsOf(after), BitsOf(before), Sum(requests[..j]), requests[j]);
  }

  /** The bits of a stretch, split around a block inside it. */
  lemma SliceSplit(s: Stream, pos: nat, at: nat, n: nat, size: nat)
    requires at + n <= size
    ensures Slice(s, pos, size) == Slice(s, pos, at) + Slice(s, pos + at, n) + Slice(s, pos + at + n, size - at - n)
  {
    SliceConcat(s, pos, at, n);
    SliceConcat(s, pos, at + n, size - at - n);
  }

  /** Reading back a stretch around a write: what was written, and on both sides what was there. */
  lemma WrittenSlices(before: seq<bv8>, after: seq<bv8>, off: nat, at: nat, n: nat, size: nat, result: seq<bool>)
    requires at + n <= size && |result| == n && Written(before, after, off + at, n, result)
    ensures Slice(BitsOf(after), off, at) == Slice(BitsOf(before), off, at)
    ensures Slice(BitsOf(after), off + at, n) == result
    ensures Slice(BitsOf(after), off + at + n, size - at - n) == Slice(BitsOf(before), off + at + n, size - at - n)
  {
    hide PoolBit;
    SliceEqual(BitsOf(after), BitsOf(before), off, at);
    SliceEqual(BitsOf(after), BitsOf(before), off + at + n, size - at - n);
    var slice := Slice(BitsOf(after), off + at, n);
    forall i | 0 <= i < n ensures slice[i] == result[i] {
      assert slice[i] == PoolBit(after, off + at + i);
    }
  }

  /** Writing a block moves its request's value the way it moves the block's value. */
  lemma BlockDecides(requests: seq<nat>, ri: nat, before: seq<bv8>, after: seq<bv8>, at: nat, n: nat, result: seq<bool>)
    requires ri < |requests| && at + n <= requests[ri] && |result| == n
    requires Written(before, after, Sum(requests[..ri]) + at, n, result)
    ensures ToNat(RequestBits(after, requests, ri)) < ToNat(RequestBits(before, requests, ri))
      <==> ToNat(result) < ToNat(Block(before, requests, ri, at, n))
  {
    hide PoolBit, ToNat, Sum, Slice, BitsOf, Written;
    var off, size := Sum(requests[..ri]), requests[ri];
    SliceSplit(BitsOf(before), off, at, n, size);
    SliceSplit(BitsOf(after), off, at, n, size);
    WrittenSlices(before, after, off, at, n, size, result);
    ToNatMiddle(Slice(BitsOf(before), off, at), result, Slice(BitsOf(before), off + at, n),
      Slice(BitsOf(before), off + at + n, size - at - n));
  }

  /** A number is decided by its high part first. */
  lemma {:induction false} ToNatHigh(low1: seq<bool>, low2: seq<bool>, x: seq<bool>, y: seq<bool>, high: seq<bool>)
    requires |low1| == |low2| && |x| == |y| && ToNat(x) < ToNat(y)
    ensures ToNat(low1 + x + high) < ToNat(low2 + y + high)
  {
    if low1 != [] {
      ToNatHigh(low1[1..], low2[1..], x, y, high);
      assert (low1 + x + high)[1..] == low1[1..] + x + high;
      assert (low2 + y + high)[1..] == low2[1..] + y + high;
    } else {
      assert low1 + x + high == x + high && low2 + y + high == y + high;
      ToNatTop(x, y, high);
    }
  }

  lemma SliceMoved(s: Stream, t: Stream, p: nat, q: nat, n: nat)
    requires forall i: nat :: q <= i < q + n && p + (i - q) >= 0 ==> t(i) == s(p + (i - q))
    ensures Slice(t, q, n) == Slice(s, p, n)
  {
    var left, right := Slice(t, q, n), Slice(s, p, n);
    assert forall k :: 0 <= k < n ==> left[k] == t(q + k) == s(p + (q + k - q)) == right[k];
  }

  /** Swapping two blocks of one request moves its value the way the HIGHER block moves. */
  lemma SwapDecides(requests: seq<nat>, ri: nat, before: seq<bv8>, after: seq<bv8>, low: nat, high: nat, n: nat)
    requires ri < |requests| && low + n <= high && high + n <= requests[ri]
    requires Sum(requests[..ri]) + requests[ri] <= 8 * |before|
    requires Swapped(before, after, Sum(requests[..ri]) + low, Sum(requests[..ri]) + high, n)
      || Swapped(before, after, Sum(requests[..ri]) + high, Sum(requests[..ri]) + low, n)
    ensures ToNat(Block(before, requests, ri, low, n)) < ToNat(Block(before, requests, ri, high, n))
      ==> ToNat(RequestBits(after, requests, ri)) < ToNat(RequestBits(before, requests, ri))
    ensures ToNat(Block(before, requests, ri, high, n)) < ToNat(Block(before, requests, ri, low, n))
      ==> ToNat(RequestBits(before, requests, ri)) < ToNat(RequestBits(after, requests, ri))
  {
    hide PoolBit, ToNat, Sum;
    var off, size := Sum(requests[..ri]), requests[ri];
    var was, now := BitsOf(before), BitsOf(after);
    SliceSplit(was, off, high, n, size);
    SliceSplit(now, off, high, n, size);
    SliceEqual(was, now, off + high + n, size - high - n);
    SliceMoved(was, now, off + low, off + high, n);
    var x, y, rest := Slice(was, off + low, n), Slice(was, off + high, n), Slice(was, off + high + n, size - high - n);
    if ToNat(x) < ToNat(y) {
      ToNatHigh(Slice(now, off, high), Slice(was, off, high), x, y, rest);
    } else if ToNat(y) < ToNat(x) {
      ToNatHigh(Slice(was, off, high), Slice(now, off, high), y, x, rest);
    }
  }

  /** The recorded requests lie inside the buffer. */
  predicate Fits(requests: seq<nat>, bytes: seq<bv8>) {
    Sum(requests) <= 8 * |bytes|
  }

  /** Only request `ri` can differ, and its value tells how the vector moved. */
  lemma OneRequestDecides(requests: seq<nat>, ri: nat, before: seq<bv8>, after: seq<bv8>)
    requires ri < |requests| && |after| == |before|
    requires forall i: nat :: !(Sum(requests[..ri]) <= i < Sum(requests[..ri + 1])) ==> PoolBit(after, i) == PoolBit(before, i)
    ensures ToNat(RequestBits(after, requests, ri)) < ToNat(RequestBits(before, requests, ri))
      ==> LexLess(Values(after, requests), Values(before, requests))
    ensures ToNat(RequestBits(before, requests, ri)) < ToNat(RequestBits(after, requests, ri))
      ==> LexLess(Values(before, requests), Values(after, requests))
  {
    hide PoolBit;
    var now, was := Values(after, requests), Values(before, requests);
    forall j | 0 <= j < |requests| && j != ri
      ensures now[j] == was[j]
    {
      OthersUntouched(requests, ri, before, after, j);
    }
    if now[ri] < was[ri] { assert LowerAt(now, was, ri); }
    if was[ri] < now[ri] { assert LowerAt(was, now, ri); }
  }

  /** A bulk swap that raises: the smaller block moves from the higher place to the lower one. */
  predicate RaisingSwap(e: Edit) {
    e.SwapBlocks? && e.a < e.b
  }

  /**
  Descent. An edit that reports no change leaves every byte as it was; one that reports a change strictly lowers
  the vector of request values, earlier requests first, unless it is a bulk swap whose first block is
  the lower one: then, and only then, it strictly raises the vector.
  */
  lemma EditDescends(e: Edit, requests: seq<nat>, ri: nat, before: seq<bv8>, after: seq<bv8>, changed: bool)
    requires Legal(e, requests, ri) && Fits(requests, before) && AllPositive(requests)
    requires Performs(e, requests, ri, before, after, changed)
    ensures !changed ==> after == before
    ensures changed && !RaisingSwap(e) ==> LexLess(Values(after, requests), Values(before, requests))
    ensures changed && RaisingSwap(e) ==> LexLess(Values(before, requests), Values(after, requests))
  {
    hide PoolBit, Values, RequestBits, Slice, BitsOf, Sum, Swapped, LexLess, NewBlock, Written;
    RequestInside(requests, ri);
    if ChangesBlock(e) {
      BlockEditDescends(e, requests, ri, before, after, changed);
    } else if e.SwapBlocks? && changed {
      BulkSwapDescends(requests, ri, before, after, e.a, e.b, e.n);
    } else if e.SwapWithLater? && changed {
      var i: nat :| FirstSmaller(before, requests, ri, i)
        && Swapped(before, after, Sum(requests[..ri]), Sum(requests[..i]), requests[ri]);
      RequestSwapDescends(requests, ri, i, before, after);
    }
  }

  lemma BulkSwapDescends(requests: seq<nat>, ri: nat, before: seq<bv8>, after: seq<bv8>, a: nat, b: nat, n: nat)
    requires ri < |requests| && a + n <= requests[ri] && b + n <= requests[ri] && !Overlap(a, b, n)
    requires Fits(requests, before)
    requires ToNat(Block(before, requests, ri, b, n)) < ToNat(Block(before, requests, ri, a, n))
    requires Swapped(before, after, Sum(requests[..ri]) + a, Sum(requests[..ri]) + b, n)
    ensures a > b ==> LexLess(Values(after, requests), Values(before, requests))
    ensures a < b ==> LexLess(Values(before, requests), Values(after, requests))
    ensures a != b
  {
    hide PoolBit;
    RequestInside(requests, ri);
    OneRequestDecides(requests, ri, before, after);
    if a < b {
      SwapDecides(requests, ri, before, after, a, b, n);
    } else if b < a {
      SwapDecides(requests, ri, before, after, b, a, n);
    }
  }

  lemma BlockEditDescends(e: Edit, requests: seq<nat>, ri: nat, before: seq<bv8>, after: seq<bv8>, changed: bool)
    requires Legal(e, requests, ri) && Fits(requests, before) && ChangesBlock(e)
    requires Performs(e, requests, ri, before, after, changed)
    ensures !changed ==> after == before
    ensures changed ==> LexLess(Values(after, requests), Values(before, requests))
  {
    hide PoolBit, NewBlock, Values, RequestBits, Slice, BitsOf, Sum;
    RequestInside(requests, ri);
    var block := Block(before, requests, ri, e.at, e.n);
    var result := NewBlock(e, block);
    if changed {
      NewBlockLowers(e, block);
      BlockDecides(requests, ri, before, after, e.at, e.n, result);
      OneRequestDecides(requests, ri, before, after);
    } else {
      assert result[..e.n] == block;
      WriteBackIsIdentity(before, after, Sum(requests[..ri]) + e.at, e.n, result);
    }
  }

  lemma RequestSwapDescends(requests: seq<nat>, ri: nat, i: nat, before: seq<bv8>, after: seq<bv8>)
    requires Smaller(before, requests, ri, i) && Fits(requests, before)
    requires Swapped(before, after, Sum(requests[..ri]), Sum(requests[..i]), requests[ri])
    ensures LexLess(Values(after, requests), Values(before, requests))
  {
    hide PoolBit;
    var size, p, q := requests[ri], Sum(requests[..ri]), Sum(requests[..i]);
    var was, now := BitsOf(before), BitsOf(after);
    RequestInside(requests, ri);
    RequestInside(requests, i);
    SumMonotone(requests, ri + 1, i);
    SliceMoved(was, now, q, p, size);
    forall j | 0 <= j < ri
      ensures RequestBits(after, requests, j) == RequestBits(before, requests, j)
    {
      RequestInside(requests, j);
      SumMonotone(requests, j + 1, ri);
      SliceEqual(now, was, Sum(requests[..j]), requests[j]);
    }
    assert LowerAt(Values(after, requests), Values(before, requests), ri);
  }

  // ----- The in-place mutations -----

  /** A request of `orig`, and the buffer of the copy that is being mutated. */
  ghost predicate Target(pool: BitPool, requests: seq<nat>, ri: nat, off: nat, size: nat)
    reads pool
  {
    && ri < |requests| && requests[ri] == size > 0 && Sum(requests[..ri]) == off
    && off + size <= Sum(requests) <= 8 * pool.bits.Length
  }

  method PickRegion(prng: Prng, size: nat, ghost s: Stream, ghost pos: nat) returns (at: nat, n: nat)
    requires Drawing(prng, s, pos)
    modifies prng`buf, prng`bitsAvailable, prng.rng, prng.rng.mt
    ensures var r := RegionFor(size, s, pos); at == r.at && n == r.n && Drawing(prng, s, r.pos)
    ensures prng.rng.seed == old(prng.rng.seed) && n <= 64
  {
    hide Drawing;
    if size > 64 {
      var draw := Draw(prng, 32, s, pos);
      at := draw % size;
      n := Draw(prng, 6, s, pos + 32);
      DrawBound(s, pos + 32, 6);
      Powers();
      if n > size - at {
        n := size - at;
      }
    } else {
      at, n := 0, size;
    }
  }

  /** Reading, changing and writing back one block, as words: the low `n` bits carry it. */
  lemma WordsCarryBlock(e: Edit, word: Word, changedWord: Word, block: seq<bool>)
    requires ChangesBlock(e) && |block| <= 64
    requires word == block + Zeros(64 - |block|)
    requires changedWord == NewBlock(e, block) + Zeros(64 - |block|)
    ensures word == changedWord <==> NewBlock(e, block) == block
    ensures changedWord[..|block|] == NewBlock(e, block)
  {
    assert word[..|block|] == block && changedWord[..|block|] == NewBlock(e, block);
  }

  /** The common tail of shift, mask and subtract. */
  method WriteBlock(pool: BitPool, off: nat, at: nat, n: nat, bits: Word, nbits: Word, ghost e: Edit,
                    ghost requests: seq<nat>, ghost ri: nat) returns (changed: bool)
    requires Legal(e, requests, ri) && ChangesBlock(e) && e.at == at && e.n == n <= 64
    requires Sum(requests[..ri]) == off && off + at + n <= 8 * pool.bits.Length
    requires bits == Block(pool.bits[..], requests, ri, at, n) + Zeros(64 - n)
    requires nbits == NewBlock(e, Block(pool.bits[..], requests, ri, at, n)) + Zeros(64 - n)
    modifies pool.bits
    ensures Performs(e, requests, ri, old(pool.bits[..]), pool.bits[..], changed)
    ensures changed <==> bits != nbits
  {
    hide PoolBit, NewBlock, ToNat, Sum, Slice, Swapped, FirstSmaller, Smaller;
    ghost var before := pool.bits[..];
    WordsCarryBlock(e, bits, nbits, Block(before, requests, ri, at, n));
    WriteBitsAtOffset(pool, off + at, n, nbits);
    assert forall i :: 0 <= i < n ==> nbits[i] == nbits[..n][i];
    changed := bits != nbits;
  }

  method ReadBlock(pool: BitPool, off: nat, at: nat, n: nat, ghost requests: seq<nat>, ghost ri: nat) returns (bits: Word)
    requires ri < |requests| && Sum(requests[..ri]) == off && n <= 64 && off + at + n <= 8 * pool.bits.Length
    ensures bits == Block(pool.bits[..], requests, ri, at, n) + Zeros(64 - n)
  {
    hide PoolBit;
    bits := ReadBitsAtOffset(pool, off + at, n);
    assert bits == bits[..n] + bits[n..];
  }

  method MutateShift(prng: Prng, pool: BitPool, off: nat, size: nat, ghost requests: seq<nat>, ghost ri: nat,
                     ghost s: Stream, ghost pos: nat) returns (changed: bool)
    requires Drawing(prng, s, pos) && Target(pool, requests, ri, off, size) && pool.bits as object != prng.rng.mt
    modifies prng`buf, prng`bitsAvailable, prng.rng, prng.rng.mt, pool.bits
    ensures prng.rng.seed == old(prng.rng.seed)
    ensures var c := EditFor(SHIFT, size, s, pos);
      && Drawing(prng, s, c.pos) && Legal(c.edit, requests, ri)
      && Performs(c.edit, requests, ri, old(pool.bits[..]), pool.bits[..], changed)
  {
    hide PoolBit, Drawing, DrawAt, Performs, NewBlock;
    EditForIsLegal(SHIFT, requests, ri, s, pos);
    var shift := Draw(prng, 2, s, pos);
    shift := shift + 1;
    var at, n := PickRegion(prng, size, s, pos + 2);
    var bits := ReadBlock(pool, off, at, n, requests, ri);
    var nbits := Shr(bits, shift);
    ShiftedWord(ShiftBlock(at, n, shift), bits, Block(pool.bits[..], requests, ri, at, n));
    changed := WriteBlock(pool, off, at, n, bits, nbits, ShiftBlock(at, n, shift), requests, ri);
  }

  lemma ShiftedWord(e: Edit, word: Word, block: seq<bool>)
    requires e.ShiftBlock? && |block| <= 64 && word == block + Zeros(64 - |block|)
    ensures Shr(word, e.shift) == NewBlock(e, block) + Zeros(64 - |block|)
  {
  }

  lemma MaskedWord(e: Edit, word: Word, block: seq<bool>)
    requires e.MaskBlock? && |block| <= 64 && word == block + Zeros(64 - |block|)
    ensures And(word, e.mask) == NewBlock(e, block) + Zeros(64 - |block|)
  {
  }

  /** prng(mask_size) | prng(mask_size), and the correction for an all-ones result. */
  method PickMask(prng: Prng, maskSize: nat, ghost s: Stream, ghost pos: nat) returns (mask: Word)
    requires Drawing(prng, s, pos) && 0 < maskSize <= 64
    modifies prng`buf, prng`bitsAvailable, prng.rng, prng.rng.mt
    ensures var (m, p) := MaskFor(maskSize, s, pos); mask == m && Drawing(prng, s, p)
    ensures prng.rng.seed == old(prng.rng.seed)
  {
    hide Drawing, DrawAt, Or, And;
    var first := DrawBits(prng, maskSize, s, pos);
    var second := DrawBits(prng, maskSize, s, pos + maskSize);
    mask := Or(first, second);
    if mask == ALL_ONES {
      var oneBit := Draw(prng, 8, s, pos + maskSize + maskSize);
      mask := And(mask, ClearBelow(oneBit % maskSize));
    }
  }

  method MutateMask(prng: Prng, pool: BitPool, off: nat, size: nat, ghost requests: seq<nat>, ghost ri: nat,
                    ghost s: Stream, ghost pos: nat) returns (changed: bool)
    requires Drawing(prng, s, pos) && Target(pool, requests, ri, off, size) && pool.bits as object != prng.rng.mt
    modifies prng`buf, prng`bitsAvailable, prng.rng, prng.rng.mt, pool.bits
    ensures prng.rng.seed == old(prng.rng.seed)
    ensures var c := EditFor(MASK, size, s, pos);
      && Drawing(prng, s, c.pos) && Legal(c.edit, requests, ri)
      && Performs(c.edit, requests, ri, old(pool.bits[..]), pool.bits[..], changed)
  {
    hide PoolBit, Drawing, DrawAt, Performs, NewBlock, MaskFor;
    EditForIsLegal(MASK, requests, ri, s, pos);
    var mask := PickMask(prng, if size <= 64 then size else 64, s, pos);
    var at, n := PickRegion(prng, size, s, MaskFor(Least(size, 64), s, pos).1);
    var bits := ReadBlock(pool, off, at, n, requests, ri);
    var nbits := And(bits, mask);
    MaskedWord(MaskBlock(at, n, mask), bits, Block(pool.bits[..], requests, ri, at, n));
    changed := WriteBlock(pool, off, at, n, bits, nbits, MaskBlock(at, n, mask), requests, ri);
  }

  lemma SubtractedWord(e: Edit, word: Word, block: seq<bool>)
    requires e.SubBlock? && |block| <= 64 && word == block + Zeros(64 - |block|)
    ensures ToNat(word) == ToNat(block)
    ensures ToNat(block) > 0 ==>
      FromNat(Subtracted(ToNat(block), e.amount), 64) == NewBlock(e, block) + Zeros(64 - |block|)
    ensures ToNat(block) > 0 ==> NewBlock(e, block) != block
  {
    hide ToNat, FromNat, Pow2, Subtracted;
    ToNatPad(block, 64 - |block|);
    if ToNat(block) > 0 {
      var v := Subtracted(ToNat(block), e.amount);
      ToNatBound(block);
      FromNatWide(v, |block|, 64);
      ToNatFromNat(v, |block|);
    }
  }

  /** A number that fits in `width` bits has zeroes above them. */
  lemma FromNatWide(v: nat, width: nat, wider: nat)
    requires v < Pow2(width) && width <= wider
    ensures FromNat(v, wider) == FromNat(v, width) + Zeros(wider - width)
  {
    hide ToNat, FromNat, Pow2;
    ToNatFromNat(v, width);
    ToNatPad(FromNat(v, width), wider - width);
    PowMonotone(width, wider);
    ToNatFromNat(v, wider);
    ToNatInjective(FromNat(v, wider), FromNat(v, width) + Zeros(wider - width));
  }

  lemma {:induction false} PowMonotone(a: nat, b: nat)
    requires a <= b
    ensures Pow2(a) <= Pow2(b)
    decreases b
  {
    if a < b { PowMonotone(a, b - 1); }
  }

  method MutateSub(prng: Prng, pool: BitPool, off: nat, size: nat, ghost requests: seq<nat>, ghost ri: nat,
                   ghost s: Stream, ghost pos: nat) returns (changed: bool)
    requires Drawing(prng, s, pos) && Target(pool, requests, ri, off, size) && pool.bits as object != prng.rng.mt
    modifies prng`buf, prng`bitsAvailable, prng.rng, prng.rng.mt, pool.bits
    ensures prng.rng.seed == old(prng.rng.seed)
    ensures var c := EditFor(SUB, size, s, pos);
      && Drawing(prng, s, c.pos) && Legal(c.edit, requests, ri)
      && Performs(c.edit, requests, ri, old(pool.bits[..]), pool.bits[..], changed)
  {
    hide PoolBit, Drawing, DrawAt, Performs, NewBlock, Block, SwapFor, MaskFor, Legal, FromNat, ToNat;
    EditForIsLegal(SUB, requests, ri, s, pos);
    var subSize := if size <= 64 then size else 64;
    var sub := Draw(prng, subSize, s, pos);
    var at, n := PickRegion(prng, size, s, pos + subSize);
    var word := ReadBlock(pool, off, at, n, requests, ri);
    ghost var e := SubBlock(at, n, sub);
    ghost var block := Block(pool.bits[..], requests, ri, at, n);
    SubtractedWord(e, word, block);
    var bits := ToNat(word);
    if bits > 0 {
      var nbits := bits - sub % bits;
      if nbits == bits {
        nbits := nbits - 1;
      }
      changed := WriteBlock(pool, off, at, n, word, FromNat(nbits, 64), e, requests, ri);
    } else {
      changed := false;
      NothingToSubtract(e, requests, ri, pool.bits[..]);
    }
  }

  lemma NothingToSubtract(e: Edit, requests: seq<nat>, ri: nat, bytes: seq<bv8>)
    requires Legal(e, requests, ri) && e.SubBlock? && ToNat(Block(bytes, requests, ri, e.at, e.n)) == 0
    ensures Performs(e, requests, ri, bytes, bytes, false)
  {
    hide PoolBit, Written, Swapped, FirstSmaller, Smaller, Sum;
    UnwrittenBlock(bytes, Sum(requests[..ri]) + e.at, Block(bytes, requests, ri, e.at, e.n));
  }

  lemma UnwrittenBlock(bytes: seq<bv8>, from: nat, block: seq<bool>)
    requires block == Slice(BitsOf(bytes), from, |block|)
    ensures Written(bytes, bytes, from, |block|, block)
  {
    hide PoolBit;
    forall i: nat | from <= i < from + |block|
      ensures block[i - from] == PoolBit(bytes, i)
    {
      assert block[i - from] == BitsOf(bytes)(from + (i - from));
    }
  }

  /** Writing each of two separate stretches with what the other held swaps them. */
  lemma TwoWritesSwap(before: seq<bv8>, mid: seq<bv8>, after: seq<bv8>, p: nat, q: nat, n: nat, a: Word, b: Word)
    requires n <= 64 && (p + n <= q || q + n <= p)
    requires a[..n] == Slice(BitsOf(before), p, n) && b[..n] == Slice(BitsOf(before), q, n)
    requires Written(before, mid, p, n, b) && Written(mid, after, q, n, a)
    ensures Swapped(before, after, p, q, n)
  {
    hide PoolBit, ToNat, Sum, Slice;
    var was := BitsOf(before);
    forall i: nat
      ensures PoolBit(after, i) == PoolBit(before, Origin(i, p, q, n))
    {
      if p <= i < p + n {
        assert b[i - p] == b[..n][i - p] == was(q + (i - p));
      } else if q <= i < q + n {
        assert a[i - q] == a[..n][i - q] == was(p + (i - q));
      }
    }
  }

  /** Writes two blocks crosswise. */
  method SwapWrite(pool: BitPool, p: nat, q: nat, n: nat, a: Word, b: Word)
    requires n <= 64 && (p + n <= q || q + n <= p) && p + n <= 8 * pool.bits.Length && q + n <= 8 * pool.bits.Length
    requires a[..n] == Slice(BitsOf(pool.bits[..]), p, n) && b[..n] == Slice(BitsOf(pool.bits[..]), q, n)
    modifies pool.bits
    ensures Swapped(old(pool.bits[..]), pool.bits[..], p, q, n)
  {
    hide PoolBit, Written, Swapped, Slice;
    WriteBitsAtOffset(pool, p, n, b);
    ghost var mid := pool.bits[..];
    WriteBitsAtOffset(pool, q, n, a);
    TwoWritesSwap(old(pool.bits[..]), mid, pool.bits[..], p, q, n, a, b);
  }

  lemma NothingPerformed(requests: seq<nat>, ri: nat, bytes: seq<bv8>)
    requires ri < |requests|
    ensures Performs(NoEdit, requests, ri, bytes, bytes, false)
  {
  }

  method SwapInRequest(prng: Prng, pool: BitPool, off: nat, size: nat, ghost requests: seq<nat>, ghost ri: nat,
                       ghost s: Stream, ghost pos: nat) returns (changed: bool)
    requires Drawing(prng, s, pos) && Target(pool, requests, ri, off, size) && pool.bits as object != prng.rng.mt
    requires size > 64
    modifies prng`buf, prng`bitsAvailable, prng.rng, prng.rng.mt, pool.bits
    ensures prng.rng.seed == old(prng.rng.seed)
    ensures var c := SwapFor(size, s, pos);
      && Drawing(prng, s, c.pos) && Legal(c.edit, requests, ri)
      && Performs(c.edit, requests, ri, old(pool.bits[..]), pool.bits[..], changed)
  {
    hide PoolBit, Drawing, DrawAt, Swapped, Slice, ToNat, Sum, Performs;
    EditForIsLegal(SWAP, requests, ri, s, pos);
    var toSwap: nat := Draw(prng, 6, s, pos);
    DrawBound(s, pos, 6);
    Powers();
    while 2 * toSwap >= size
      invariant Halved(toSwap, size) == Halved(DrawAt(s, pos, 6), size) && toSwap < 64
    {
      toSwap := toSwap / 2;
    }
    if toSwap == 0 {
      NothingPerformed(requests, ri, pool.bits[..]);
      return false;
    }
    var posA := Draw(prng, 32, s, pos + 6);
    posA := posA % (size - toSwap);
    var posB := Draw(prng, 32, s, pos + 38);
    posB := posB % (size - 2 * toSwap);
    if Overlap(posA, posB, toSwap) {
      NothingPerformed(requests, ri, pool.bits[..]);
      return false;
    }
    changed := SwapIfLower(pool, off, size, posA, posB, toSwap, requests, ri);
  }

  /** Swaps two blocks of a request if the second holds the smaller number. */
  method SwapIfLower(pool: BitPool, off: nat, size: nat, posA: nat, posB: nat, n: nat, ghost requests: seq<nat>, ghost ri: nat)
    returns (changed: bool)
    requires Target(pool, requests, ri, off, size) && Legal(SwapBlocks(posA, posB, n), requests, ri)
    modifies pool.bits
    ensures Performs(SwapBlocks(posA, posB, n), requests, ri, old(pool.bits[..]), pool.bits[..], changed)
  {
    hide PoolBit, Swapped, Slice, ToNat, Sum;
    var a := ReadBlock(pool, off, posA, n, requests, ri);
    var b := ReadBlock(pool, off, posB, n, requests, ri);
    ToNatPad(Block(pool.bits[..], requests, ri, posA, n), 64 - n);
    ToNatPad(Block(pool.bits[..], requests, ri, posB, n), 64 - n);
    if ToNat(b) < ToNat(a) {
      SwapWrite(pool, off + posA, off + posB, n, a, b);
      return true;
    }
    return false;
  }

  method SwapWithLaterRequest(orig: BitPool, pool: BitPool, ri: nat, off: nat, size: nat) returns (changed: bool)
    requires orig.WellFormed() && orig.index.Some? && Target(pool, orig.requests, ri, off, size) && size <= 64
    modifies pool.bits
    ensures Legal(SwapWithLater, orig.requests, ri)
    ensures Performs(SwapWithLater, orig.requests, ri, old(pool.bits[..]), pool.bits[..], changed)
  {
    hide PoolBit, Swapped, Slice, ToNat, Sum;
    ghost var before := pool.bits[..];
    var requests := orig.requests;
    RequestInside(requests, ri);
    var bits := ReadBlock(pool, off, 0, size, requests, ri);
    ToNatPad(RequestBits(before, requests, ri), 64 - size);
    for i := ri + 1 to |requests|
      invariant pool.bits[..] == before
      invariant forall j: nat :: j < i ==> !Smaller(before, requests, ri, j)
    {
      RequestInside(requests, i);
      if requests[i] == size {
        var otherOffset := orig.index.value[i];
        var other := ReadBlock(pool, otherOffset, 0, size, requests, i);
        ToNatPad(RequestBits(before, requests, i), 64 - size);
        if ToNat(other) < ToNat(bits) {
          SumMonotone(requests, ri + 1, i);
          SwapWrite(pool, off, otherOffset, size, bits, other);
          assert FirstSmaller(before, requests, ri, i);
          return true;
        }
      }
    }
    return false;
  }

  /** log2ceil */
  function Log2Ceil(value: nat, bits: nat): nat
    decreases if Pow2(bits) < value then value - Pow2(bits) else 0
  {
    if Pow2(bits) < value then Log2Ceil(value, bits + 1) else bits
  }

  lemma {:induction false} Log2CeilBound(value: nat, bits: nat, most: nat)
    requires value <= Pow2(most) && bits <= most
    ensures Log2Ceil(value, bits) <= most
    decreases if Pow2(bits) < value then value - Pow2(bits) else 0
  {
    if Pow2(bits) < value {
      if bits == most { PowMonotone(bits, most); }
      Log2CeilBound(value, bits + 1, most);
    }
  }

  /** It is the least count, from `bits` on, of bits that can index `value` things. */
  lemma {:induction false} Log2CeilIsLeast(value: nat, bits: nat)
    ensures value <= Pow2(Log2Ceil(value, bits)) && Log2Ceil(value, bits) >= bits
    ensures Log2Ceil(value, bits) > bits ==> Pow2(Log2Ceil(value, bits) - 1) < value
    decreases if Pow2(bits) < value then value - Pow2(bits) else 0
  {
    if Pow2(bits) < value { Log2CeilIsLeast(value, bits + 1); }
  }

  /** log2ceil */
  method LeastBits(value: nat) returns (res: nat)
    ensures res == Log2Ceil(value, 0)
    ensures value <= Pow2(res) && (res > 0 ==> Pow2(res - 1) < value)
  {
    hide Pow2;
    res := 0;
    while Pow2(res) < value
      invariant Log2Ceil(value, res) == Log2Ceil(value, 0)
      decreases if Pow2(res) < value then value - Pow2(res) else 0
    {
      MorePower(res);
      res := res + 1;
    }
    Log2CeilIsLeast(value, 0);
  }

  /** What one call of choose_and_mutate_request goes for: which request, with which edit. */
  datatype Aim = Aim(ri: nat, edit: Edit, pos: nat)

  function AimFor(action: Action, requests: seq<nat>, s: Stream, pos: nat): Aim
    requires AllPositive(requests) && action != DROP
  {
    if requests == [] then Aim(0, NoEdit, pos) else
      var bits := Log2Ceil(|requests|, 0);
      var ri := DrawAt(s, pos, bits) % |requests|;
      var c := EditFor(action, requests[ri], s, pos + bits);
      Aim(ri, c.edit, c.pos)
  }

  /** The result of going for `aim`: with no requests nothing happens, otherwise its edit is performed. */
  ghost predicate Carried(aim: Aim, requests: seq<nat>, before: seq<bv8>, after: seq<bv8>, changed: bool) {
    if requests == [] then !changed && after == before
    else Legal(aim.edit, requests, aim.ri) && Performs(aim.edit, requests, aim.ri, before, after, changed)
  }

  /** choose_and_mutate_request */
  method ChooseAndMutateRequest(prng: Prng, model: Model, orig: BitPool, pool: BitPool, ghost s: Stream, ghost pos: nat)
    returns (changed: bool, action: Action, ghost rejected: nat, ghost aim: Aim)
    requires Drawing(prng, s, pos) && Fair(s) && InRange(model.weights)
    requires Apart(prng, orig, pool)
    modifies prng`buf, prng`bitsAvailable, prng.rng, prng.rng.mt, model`curTried, model`curSet, pool.bits
    ensures prng.rng.seed == old(prng.rng.seed) && action != DROP
    ensures Sampled(model.weights, s, pos, action, rejected)
    ensures aim == AimFor(action, orig.requests, s, AfterSample(model.weights, pos, rejected))
    ensures Drawing(prng, s, aim.pos)
    ensures Carried(aim, orig.requests, old(pool.bits[..]), pool.bits[..], changed)
    ensures model.curTried == old(model.curTried) + (if orig.requests == [] then {} else {action})
    ensures model.curSet == old(model.curSet) + (if changed then {action} else {})
  {
    hide PoolBit, Drawing, DrawAt, Performs, EditFor, Sampled, AfterSample, ToNat, Fair, Legal, Fits;
    action, rejected := model.GetWeightedMutation(prng, s, pos);
    ghost var p := AfterSample(model.weights, pos, rejected);
    aim := AimFor(action, orig.requests, s, p);
    if |orig.requests| == 0 {
      changed := false;
      return;
    }
    var requestBits := LeastBits(|orig.requests|);
    Log2CeilBound(|orig.requests|, 0, 64);
    var draw := Draw(prng, requestBits, s, p);
    var ri := draw % |orig.requests|;
    model.curTried := model.curTried + {action};
    changed := MutateRequest(prng, orig, pool, action, ri, s, p + requestBits);
    if changed {
      model.curSet := model.curSet + {action};
    }
  }

  /** What a mutation needs: an indexed original, and a copy whose buffer is its own and large enough. */
  ghost predicate Apart(prng: Prng, orig: BitPool, pool: BitPool)
    reads orig, orig.bits, pool
  {
    && orig.WellFormed() && orig.index.Some? && orig != pool && orig.bits != pool.bits
    && orig.consumed <= 8 * pool.bits.Length && |orig.requests| <= Pow2(64)
    && prng.rng.mt != orig.bits as object && prng.rng.mt != pool.bits as object
  }

  /** The mutation proper, once request and action are known. */
  method MutateRequest(prng: Prng, orig: BitPool, pool: BitPool, action: Action, ri: nat, ghost s: Stream, ghost pos: nat)
    returns (changed: bool)
    requires Drawing(prng, s, pos) && Apart(prng, orig, pool) && ri < |orig.requests| && action != DROP
    modifies prng`buf, prng`bitsAvailable, prng.rng, prng.rng.mt, pool.bits
    ensures prng.rng.seed == old(prng.rng.seed)
    ensures var c := EditFor(action, orig.requests[ri], s, pos);
      && Drawing(prng, s, c.pos)
      && Legal(c.edit, orig.requests, ri)
      && Performs(c.edit, orig.requests, ri, old(pool.bits[..]), pool.bits[..], changed)
  {
    hide PoolBit, Drawing, DrawAt, Performs, ToNat, Legal, MaskFor, SwapFor, RegionFor;
    var off, size := orig.index.value[ri], orig.requests[ri];
    RequestInside(orig.requests, ri);
    if action == SHIFT {
      changed := MutateShift(prng, pool, off, size, orig.requests, ri, s, pos);
    } else if action == MASK {
      changed := MutateMask(prng, pool, off, size, orig.requests, ri, s, pos);
    } else if action == SUB {
      changed := MutateSub(prng, pool, off, size, orig.requests, ri, s, pos);
    } else if size > 64 {
      changed := SwapInRequest(prng, pool, off, size, orig.requests, ri, s, pos);
    } else {
      SmallSwap(size, s, pos);
      changed := SwapWithLaterRequest(orig, pool, ri, off, size);
    }
  }

  lemma SmallSwap(size: nat, s: Stream, pos: nat)
    requires 0 < size <= 64
    ensures SwapFor(size, s, pos) == Choice(SwapWithLater, pos)
  {
  }

  // ----- A whole mutation pass -----

  /** One call of choose_and_mutate_request: its draws, its aim, the buffer it left, and whether it reported a change. */
  datatype Try = Try(action: Action, rejected: nat, aim: Aim, bytes: seq<bv8>, changed: bool)

  function BytesAfter(start: seq<bv8>, tries: seq<Try>): seq<bv8> {
    if tries == [] then start else tries[|tries| - 1].bytes
  }

  function PosAfter(pos: nat, tries: seq<Try>): nat {
    if tries == [] then pos else tries[|tries| - 1].aim.pos
  }

  function Changes(tries: seq<Try>): nat {
    if tries == [] then 0
    else Changes(tries[..|tries| - 1]) + (if tries[|tries| - 1].changed then 1 else 0)
  }

  /** The actions that tries attempted: none if there is no request to try them on. */
  function TriedBy(requests: seq<nat>, tries: seq<Try>): set<Action> {
    if tries == [] || requests == [] then {} else TriedBy(requests, tries[..|tries| - 1]) + {tries[|tries| - 1].action}
  }

  /** The actions that changed something. */
  function SetBy(tries: seq<Try>): set<Action> {
    if tries == [] then {}
    else SetBy(tries[..|tries| - 1]) + (if tries[|tries| - 1].changed then {tries[|tries| - 1].action} else {})
  }

  /** Each try starts where the one before it stopped, in the buffer and in the draw stream. */
  ghost predicate Linked(m: Mix, requests: seq<nat>, s: Stream, pos: nat, start: seq<bv8>, tries: seq<Try>)
    requires AllPositive(requests)
  {
    tries == [] ||
    var before, t := tries[..|tries| - 1], tries[|tries| - 1];
    && Linked(m, requests, s, pos, start, before)
    && t.action != DROP && Sampled(m, s, PosAfter(pos, before), t.action, t.rejected)
    && t.aim == AimFor(t.action, requests, s, AfterSample(m, PosAfter(pos, before), t.rejected))
    && Carried(t.aim, requests, BytesAfter(start, before), t.bytes, t.changed)
  }

  predicate AllSmall(requests: seq<nat>) {
    forall i :: 0 <= i < |requests| ==> requests[i] <= 64
  }

  /** No try was a bulk swap that raised. */
  predicate NoneRaised(tries: seq<Try>) {
    forall k :: 0 <= k < |tries| && tries[k].changed ==> !RaisingSwap(tries[k].aim.edit)
  }

  /** With only small requests none can be. */
  lemma {:induction false} SmallNeverRaise(m: Mix, requests: seq<nat>, s: Stream, pos: nat, start: seq<bv8>, tries: seq<Try>)
    requires AllPositive(requests) && AllSmall(requests) && Linked(m, requests, s, pos, start, tries)
    ensures NoneRaised(tries)
  {
    hide Sampled, AfterSample, AimFor, Carried;
    if tries != [] {
      var before, t := tries[..|tries| - 1], tries[|tries| - 1];
      SmallNeverRaise(m, requests, s, pos, start, before);
      SmallAims(t.action, requests, s, AfterSample(m, PosAfter(pos, before), t.rejected));
      forall k | 0 <= k < |tries| && tries[k].changed
        ensures !RaisingSwap(tries[k].aim.edit)
      {
        if k < |before| { assert tries[k] == before[k]; }
      }
    }
  }

  /** With only small requests, no aim is a bulk swap. */
  lemma SmallAims(action: Action, requests: seq<nat>, s: Stream, pos: nat)
    requires AllPositive(requests) && AllSmall(requests) && action != DROP
    ensures !AimFor(action, requests, s, pos).edit.SwapBlocks?
  {
    hide DrawAt, MaskFor, RegionFor;
  }

  /** Bits past the recorded requests are never touched. */
  lemma CarriedFrame(aim: Aim, requests: seq<nat>, before: seq<bv8>, after: seq<bv8>, changed: bool, i: nat)
    requires AllPositive(requests) && Carried(aim, requests, before, after, changed) && i >= Sum(requests)
    ensures |after| == |before| && PoolBit(after, i) == PoolBit(before, i)
  {
    hide PoolBit, NewBlock, ToNat, Slice;
    if requests != [] {
      RequestInside(requests, aim.ri);
      if aim.edit.SwapWithLater? && changed {
        var k: nat :| FirstSmaller(before, requests, aim.ri, k)
          && Swapped(before, after, Sum(requests[..aim.ri]), Sum(requests[..k]), requests[aim.ri]);
        RequestInside(requests, k);
      }
    }
  }

  /**
  Tries of which none is a raising bulk swap never raise the vector of request values, and lower it strictly if one of them
  reported a change; without a change they leave every byte alone. In any case, bits past the consumed ones stay.
  */
  lemma {:induction false} TriesDescend(m: Mix, requests: seq<nat>, s: Stream, pos: nat, start: seq<bv8>, tries: seq<Try>)
    requires AllPositive(requests) && Fits(requests, start) && Linked(m, requests, s, pos, start, tries)
    ensures |BytesAfter(start, tries)| == |start|
    ensures forall i: nat :: i >= Sum(requests) ==> PoolBit(BytesAfter(start, tries), i) == PoolBit(start, i)
    ensures NoneRaised(tries) ==> LexLessEq(Values(BytesAfter(start, tries), requests), Values(start, requests))
    ensures NoneRaised(tries) && Changes(tries) > 0 ==> LexLess(Values(BytesAfter(start, tries), requests), Values(start, requests))
    ensures Changes(tries) == 0 ==> BytesAfter(start, tries) == start
  {
    hide PoolBit, Performs, Legal, LexLess, Values, Sampled, AfterSample, AimFor, Carried, Sum;
    if tries != [] {
      var before, t := tries[..|tries| - 1], tries[|tries| - 1];
      TriesDescend(m, requests, s, pos, start, before);
      var mid := BytesAfter(start, before);
      OneTry(requests, t, mid, s, AfterSample(m, PosAfter(pos, before), t.rejected));
      if NoneRaised(tries) {
        assert NoneRaised(before);
        LexTransitive(Values(t.bytes, requests), Values(mid, requests), Values(start, requests));
      }
    }
  }

  lemma OneTry(requests: seq<nat>, t: Try, before: seq<bv8>, s: Stream, pos: nat)
    requires AllPositive(requests) && Fits(requests, before) && t.action != DROP
    requires t.aim == AimFor(t.action, requests, s, pos)
    requires Carried(t.aim, requests, before, t.bytes, t.changed)
    ensures |t.bytes| == |before|
    ensures forall i: nat :: i >= Sum(requests) ==> PoolBit(t.bytes, i) == PoolBit(before, i)
    ensures !t.changed ==> t.bytes == before
    ensures t.changed && !RaisingSwap(t.aim.edit) ==> LexLess(Values(t.bytes, requests), Values(before, requests))
  {
    hide PoolBit, Performs, Legal, LexLess, Values, AimFor;
    forall i: nat | i >= Sum(requests)
      ensures PoolBit(t.bytes, i) == PoolBit(before, i)
    {
      CarriedFrame(t.aim, requests, before, t.bytes, t.changed, i);
    }
    CarriedFrame(t.aim, requests, before, t.bytes, t.changed, Sum(requests));
    if requests != [] {
      EditDescends(t.aim.edit, requests, t.aim.ri, before, t.bytes, t.changed);
    }
  }

  function CountTrue(b: seq<bool>): (r: nat)
    ensures r <= |b|
  {
    if b == [] then 0 else CountTrue(b[..|b| - 1]) + (if b[|b| - 1] then 1 else 0)
  }

  method Popcount(value: Word) returns (pop: nat)
    ensures pop == CountTrue(value)
  {
    pop := 0;
    for i := 0 to 64
      invariant pop == CountTrue(value[..i])
    {
      assert value[..i + 1][..i] == value[..i];
      if value[i] {
        pop := pop + 1;
      }
    }
    assert value[..64] == value;
  }

  /** How many changes a pass aims for: one more than the ones in the draw, but no more than there are requests if all are small. */
  function ChangeCount(requests: seq<nat>, draw: seq<bool>): nat {
    var count := CountTrue(draw) + 1;
    if count > |requests| && AllSmall(requests) then |requests| else count
  }

  /** memcpy of the filled bytes into a zeroed buffer. */
  method CopyBytes(orig: BitPool, pool: BitPool)
    requires orig.bits != pool.bits && orig.bitsFilled <= 8 * orig.bits.Length && orig.bitsFilled <= 8 * pool.bits.Length
    requires orig.bitsFilled % 8 == 0 && ZeroFrom(pool.bits[..], 0)
    modifies pool.bits
    ensures forall i: nat :: i < orig.bitsFilled ==> PoolBit(pool.bits[..], i) == PoolBit(orig.bits[..], i)
    ensures ZeroFrom(pool.bits[..], orig.bitsFilled)
  {
    hide BitOf, OneHot;
    ghost var was := pool.bits[..];
    forall i | 0 <= i < orig.bitsFilled / 8 {
      pool.bits[i] := orig.bits[i];
    }
    forall i: nat | orig.bitsFilled <= i < 8 * pool.bits.Length ensures !PoolBit(pool.bits[..], i) {
      assert pool.bits[i / 8] == was[i / 8];
      assert !PoolBit(was, i);
    }
  }

  method DecideChangeCount(prng: Prng, requests: seq<nat>, ghost s: Stream, ghost pos: nat) returns (count: nat)
    requires Drawing(prng, s, pos) && |requests| <= Pow2(64)
    modifies prng`buf, prng`bitsAvailable, prng.rng, prng.rng.mt
    ensures prng.rng.seed == old(prng.rng.seed) && Drawing(prng, s, pos + Log2Ceil(|requests|, 5))
    ensures var bits := Log2Ceil(|requests|, 5);
      bits <= 64 && count == ChangeCount(requests, Slice(s, pos, bits) + Zeros(64 - bits))
  {
    hide Drawing, Pow2;
    var maxChanges := 5;
    while Pow2(maxChanges) < |requests|
      invariant Log2Ceil(|requests|, maxChanges) == Log2Ceil(|requests|, 5)
      modifies {}
      decreases if Pow2(maxChanges) < |requests| then |requests| - Pow2(maxChanges) else 0
    {
      MorePower(maxChanges);
      maxChanges := maxChanges + 1;
    }
    Log2CeilBound(|requests|, 5, 64);
    var draw := DrawBits(prng, maxChanges, s, pos);
    var ones := Popcount(draw);
    count := ones + 1;
    if count > |requests| {
      var allSmall := true;
      for i := 0 to |requests|
        invariant allSmall <==> AllSmall(requests[..i])
        modifies {}
      {
        if requests[i] > 64 {
          allSmall := false;
          assert !AllSmall(requests[..i + 1]) by { assert requests[..i + 1][i] > 64; }
          LargeStays(requests, i);
          break;
        }
      }
      assert requests[..|requests|] == requests;
      if allSmall {
        count := |requests|;
      }
    }
  }

  lemma MorePower(n: nat)
    ensures Pow2(n + 1) == 2 * Pow2(n)
  {
  }

  lemma LargeStays(requests: seq<nat>, i: nat)
    requires i < |requests| && requests[i] > 64
    ensures !AllSmall(requests)
  {
  }

  /** The loop of mutate_bit_pool: up to ten tries for each change it aims for. */
  method RunTries(prng: Prng, model: Model, orig: BitPool, pool: BitPool, changeCount: nat, ghost s: Stream, ghost pos: nat)
    returns (ghost tries: seq<Try>)
    requires Drawing(prng, s, pos) && Fair(s) && InRange(model.weights) && Apart(prng, orig, pool)
    modifies prng`buf, prng`bitsAvailable, prng.rng, prng.rng.mt, model`curTried, model`curSet, pool.bits
    ensures prng.rng.seed == old(prng.rng.seed)
    ensures Changes(tries) <= changeCount && |tries| <= 10 * changeCount
    ensures Changes(tries) == changeCount || |tries| == 10 * changeCount
    ensures Linked(model.weights, orig.requests, s, pos, old(pool.bits[..]), tries)
    ensures pool.bits[..] == BytesAfter(old(pool.bits[..]), tries)
    ensures Drawing(prng, s, PosAfter(pos, tries))
    ensures model.curTried == old(model.curTried) + TriedBy(orig.requests, tries)
    ensures model.curSet == old(model.curSet) + SetBy(tries)
  {
    hide PoolBit, Drawing, DrawAt, Fair, Carried, AimFor, Sampled, AfterSample;
    var changed, i := 0, 0;
    tries := [];
    while i < 10 * changeCount
      invariant i == |tries| <= 10 * changeCount && changed == Changes(tries) <= changeCount
      invariant changed == changeCount ==> i == 10 * changeCount
      invariant Linked(model.weights, orig.requests, s, pos, old(pool.bits[..]), tries)
      invariant pool.bits[..] == BytesAfter(old(pool.bits[..]), tries)
      invariant Drawing(prng, s, PosAfter(pos, tries)) && prng.rng.seed == old(prng.rng.seed)
      invariant model.curTried == old(model.curTried) + TriedBy(orig.requests, tries)
      invariant model.curSet == old(model.curSet) + SetBy(tries)
    {
      var again, action, rejected, aim := ChooseAndMutateRequest(prng, model, orig, pool, s, PosAfter(pos, tries));
      ghost var t := Try(action, rejected, aim, pool.bits[..], again);
      assert (tries + [t])[..|tries|] == tries;
      tries := tries + [t];
      i := i + 1;
      if again {
        changed := changed + 1;
        if changed == changeCount {
          break;
        }
      }
    }
  }

  /**
  mutate_bit_pool: copies the original's bits, makes a drawn number of changes with a limited number of tries, and
  cuts off half of the bits the original never consumed.
  */
  method MutateBitPool(prng: Prng, model: Model, orig: BitPool, pool: BitPool, ghost s: Stream, ghost pos: nat)
    returns (ghost start: seq<bv8>, ghost tries: seq<Try>)
    requires Drawing(prng, s, pos) && Fair(s) && InRange(model.weights) && Apart(prng, orig, pool)
    requires orig.bitsFilled % 8 == 0 && orig.bitsFilled <= pool.bitsCeil
    requires pool.WellFormed() && pool.consumed == 0 && ZeroFrom(pool.bits[..], 0)
    modifies prng`buf, prng`bitsAvailable, prng.rng, prng.rng.mt, model`curTried, model`curSet
    modifies pool`bitsFilled, pool`limit, pool.bits
    ensures prng.rng.seed == old(prng.rng.seed) && pool.WellFormed()
    ensures pool.bitsFilled == orig.bitsFilled
    ensures pool.limit == Least(orig.consumed + (orig.bitsFilled - orig.consumed) / 2, old(pool.limit))
    ensures MutationPass(model.weights, orig.requests, s, pos, orig.bits[..], orig.bitsFilled, start, tries)
    ensures |start| == pool.bits.Length && pool.bits[..] == BytesAfter(start, tries)
    ensures Drawing(prng, s, PosAfter(pos + Log2Ceil(|orig.requests|, 5), tries))
    ensures model.curTried == old(model.curTried) + TriedBy(orig.requests, tries)
    ensures model.curSet == old(model.curSet) + SetBy(tries)
  {
    hide PoolBit, Drawing, DrawAt, Fair, Linked, ChangeCount, Log2Ceil, Sum, IsIndex, Pow2, Changes, BytesAfter, TriedBy, SetBy;
    CopyBytes(orig, pool);
    start := pool.bits[..];
    pool.bitsFilled := orig.bitsFilled;
    var changeCount := DecideChangeCount(prng, orig.requests, s, pos);
    tries := RunTries(prng, model, orig, pool, changeCount, s, pos + Log2Ceil(|orig.requests|, 5));
    var nsize := orig.consumed + (orig.bitsFilled - orig.consumed) / 2;
    pool.limit := if nsize < pool.limit then nsize else pool.limit;
  }

  /**
  A pass over a copy of `bytes`: the tries are those the draws determine, and they stop as soon as the drawn number of
  changes is made, or after ten tries for each.
  */
  ghost predicate MutationPass(m: Mix, requests: seq<nat>, s: Stream, pos: nat, bytes: seq<bv8>, filled: nat,
                               start: seq<bv8>, tries: seq<Try>)
    requires AllPositive(requests)
  {
    var bits := Log2Ceil(|requests|, 5);
    && bits <= 64 && Copies(start, bytes, filled)
    && Linked(m, requests, s, pos + bits, start, tries)
    && var count := ChangeCount(requests, Slice(s, pos, bits) + Zeros(64 - bits));
    && Changes(tries) <= count && |tries| <= 10 * count
    && (Changes(tries) == count || |tries| == 10 * count)
  }

  /** A whole pass in which no bulk swap raises, small requests or not, never raises the values; bits past the consumed ones stay. */
  lemma PassDescends(m: Mix, requests: seq<nat>, s: Stream, pos: nat, bytes: seq<bv8>, filled: nat,
                     start: seq<bv8>, tries: seq<Try>)
    requires AllPositive(requests) && MutationPass(m, requests, s, pos, bytes, filled, start, tries)
    requires Sum(requests) <= filled <= 8 * |start|
    ensures var after := BytesAfter(start, tries);
      && |after| == |start| && ZeroFrom(after, filled)
      && (forall i: nat :: Sum(requests) <= i < filled ==> PoolBit(after, i) == PoolBit(bytes, i))
      && (Changes(tries) == 0 ==> forall i: nat :: i < filled ==> PoolBit(after, i) == PoolBit(bytes, i))
      && (NoneRaised(tries) ==> LexLessEq(Values(after, requests), Values(bytes, requests)))
      && (NoneRaised(tries) && Changes(tries) > 0 ==> LexLess(Values(after, requests), Values(bytes, requests)))
      && (AllSmall(requests) ==> NoneRaised(tries))
  {
    hide PoolBit, LexLess, Values, Linked, ChangeCount, Log2Ceil;
    TriesDescend(m, requests, s, pos + Log2Ceil(|requests|, 5), start, tries);
    if AllSmall(requests) { SmallNeverRaise(m, requests, s, pos + Log2Ceil(|requests|, 5), start, tries); }
    SameValues(requests, start, bytes);
  }

  /** `start` is `bytes` up to `filled` bits and zeroes after. */
  ghost predicate Copies(start: seq<bv8>, bytes: seq<bv8>, filled: nat) {
    && ZeroFrom(start, filled)
    && forall i: nat :: i < filled ==> PoolBit(start, i) == PoolBit(bytes, i)
  }

  lemma SameValues(requests: seq<nat>, a: seq<bv8>, b: seq<bv8>)
    requires forall i: nat :: i < Sum(requests) ==> PoolBit(a, i) == PoolBit(b, i)
    ensures Values(a, requests) == Values(b, requests)
  {
    hide PoolBit;
    forall j | 0 <= j < |requests|
      ensures Values(a, requests)[j] == Values(b, requests)[j]
    {
      RequestInside(requests, j);
      SliceEqual(BitsOf(a), BitsOf(b), Sum(requests[..j]), requests[j]);
    }
  }
}
