/**
What the mutations of src/theft_autoshrink.c do to the numbers that requests hold, and which requests and which parts of them they
can reach.
*/
module Effects {
  import opened Bits
  import opened BitPool
  import opened PoolEdit
  import opened Draws
  import opened Weights
  import opened Mutate

  // ----- Which request -----

  /** The request is the one drawn: whatever request it is, the draw that names it aims at it. */
  lemma DrawAims(action: Action, requests: seq<nat>, ri: nat, s: Stream, pos: nat)
    requires AllPositive(requests) && action != DROP && ri < |requests|
    requires DrawAt(s, pos, Log2Ceil(|requests|, 0)) == ri
    ensures AimFor(action, requests, s, pos).ri == ri
  {
    hide EditFor, DrawAt, Log2Ceil;
  }

  /** A stream whose next `n` bits are a given number. */
  function Spells(value: nat, n: nat): Stream {
    (i: nat) => i < n && FromNat(value, n)[i]
  }

  lemma SpellsIt(value: nat, n: nat)
    requires value < Pow2(n)
    ensures DrawAt(Spells(value, n), 0, n) == value
  {
    assert Slice(Spells(value, n), 0, n) == FromNat(value, n);
    ToNatFromNat(value, n);
  }

  /** For every request there are draws that aim at it. */
  lemma EveryRequestReachable(action: Action, requests: seq<nat>, ri: nat) returns (s: Stream)
    requires AllPositive(requests) && action != DROP && ri < |requests|
    ensures AimFor(action, requests, s, 0).ri == ri
  {
    hide EditFor, DrawAt, AimFor, Spells;
    var n := Log2Ceil(|requests|, 0);
    Log2CeilIsLeast(|requests|, 0);
    s := Spells(ri, n);
    SpellsIt(ri, n);
    DrawAims(action, requests, ri, s, 0);
  }

  // ----- Which part of it -----

  /** A small request is changed whole. */
  lemma SmallIsWhole(action: Action, size: nat, s: Stream, pos: nat)
    requires 0 < size <= 64 && (action == SHIFT || action == MASK || action == SUB)
    ensures var e := EditFor(action, size, s, pos).edit; ChangesBlock(e) && e.at == 0 && e.n == size
  {
    hide DrawAt, MaskFor;
  }

  /** Where the draws of the stretch begin: after those of the shift, the mask or the number. */
  function RegionPos(action: Action, size: nat, s: Stream, pos: nat): nat
    requires size > 0
  {
    if action == SHIFT then pos + 2 else if action == MASK then MaskFor(Least(size, 64), s, pos).1 else pos + Least(size, 64)
  }

  /** Of a large request, it is the stretch that the draws name, and no further than its end. */
  lemma DrawPicks(action: Action, size: nat, s: Stream, pos: nat, at: nat, n: nat)
    requires size > 64 && at < size && (action == SHIFT || action == MASK || action == SUB)
    requires DrawAt(s, RegionPos(action, size, s, pos), 32) == at && DrawAt(s, RegionPos(action, size, s, pos) + 32, 6) == n
    ensures var e := EditFor(action, size, s, pos).edit;
      ChangesBlock(e) && e.at == at && e.n == (if at + n <= size then n else size - at)
  {
    hide DrawAt, MaskFor;
    SmallRemainder(at, size);
  }

  /** So a small request ends up holding its new number, and no other request is touched. */
  lemma SmallBecomes(e: Edit, requests: seq<nat>, ri: nat, before: seq<bv8>, after: seq<bv8>, changed: bool)
    requires Legal(e, requests, ri) && ChangesBlock(e) && e.at == 0 && e.n == requests[ri] && Fits(requests, before)
    requires Performs(e, requests, ri, before, after, changed)
    ensures RequestBits(after, requests, ri) == NewBlock(e, RequestBits(before, requests, ri))
    ensures changed <==> RequestBits(after, requests, ri) != RequestBits(before, requests, ri)
    ensures forall j :: 0 <= j < |requests| && j != ri ==> RequestBits(after, requests, j) == RequestBits(before, requests, j)
  {
    hide PoolBit, NewBlock, Sum, Written, BitsOf, Slice;
    var off, n, result := Sum(requests[..ri]), requests[ri], NewBlock(e, RequestBits(before, requests, ri));
    assert Block(before, requests, ri, 0, n) == RequestBits(before, requests, ri);
    WrittenSlices(before, after, off, 0, n, n, result);
    forall j | 0 <= j < |requests| && j != ri
      ensures RequestBits(after, requests, j) == RequestBits(before, requests, j)
    {
      WrittenElsewhere(requests, ri, before, after, result, j);
    }
  }

  lemma WrittenElsewhere(requests: seq<nat>, ri: nat, before: seq<bv8>, after: seq<bv8>, result: seq<bool>, j: nat)
    requires ri < |requests| && |result| == requests[ri] && j < |requests| && j != ri
    requires Written(before, after, Sum(requests[..ri]), requests[ri], result)
    ensures RequestBits(after, requests, j) == RequestBits(before, requests, j)
  {
    hide PoolBit, Sum;
    RequestInside(requests, ri);
    OthersUntouched(requests, ri, before, after, j);
  }

  /** The blocks that the draws name are swapped, if two such blocks fit and do not overlap. */
  lemma DrawSwaps(size: nat, s: Stream, pos: nat, a: nat, b: nat, n: nat)
    requires size > 64 && 0 < n && 2 * n < size && a + n < size && b + 2 * n < size
    requires a + n <= b || b + n <= a
    requires DrawAt(s, pos, 6) == n && DrawAt(s, pos + 6, 32) == a && DrawAt(s, pos + 38, 32) == b
    ensures EditFor(SWAP, size, s, pos) == Choice(SwapBlocks(a, b, n), pos + 70)
  {
    hide DrawAt, RegionFor, MaskFor;
    assert Halved(n, size) == n;
    SmallRemainder(a, size - n);
    SmallRemainder(b, size - 2 * n);
    assert !Overlap(a, b, n);
    assert SwapFor(size, s, pos) == Choice(SwapBlocks(a, b, n), pos + 70);
  }

  /** A size that does not fit twice is halved until it does, and no more often. */
  lemma {:induction false} HalvedFits(toSwap: nat, size: nat)
    requires size > 0
    ensures 2 * Halved(toSwap, size) < size
    ensures 2 * toSwap < size ==> Halved(toSwap, size) == toSwap
    ensures 2 * toSwap >= size ==> Halved(toSwap, size) == Halved(toSwap / 2, size)
  {
  }

  // ----- What becomes of the number there -----

  /** The shift drawn is 1 to 4 bits: the number is divided by 2, 4, 8 or 16. */
  lemma ShiftDivides(size: nat, s: Stream, pos: nat, block: seq<bool>)
    requires |block| <= 64 && size > 0
    ensures var e := EditFor(SHIFT, size, s, pos).edit;
      && e.ShiftBlock? && 1 <= e.shift <= 4 && e.shift == DrawAt(s, pos, 2) + 1
      && ToNat(NewBlock(e, block)) == ToNat(block) / Pow2(DrawAt(s, pos, 2) + 1)
  {
    hide DrawAt, RegionFor, MaskFor, SwapFor, NewBlock, ToNat;
    DrawBound(s, pos, 2);
    assert Pow2(2) == 4;
    var e := EditFor(SHIFT, size, s, pos).edit;
    ShiftedBy(e, block);
  }

  lemma ShiftedBy(e: Edit, block: seq<bool>)
    requires e.ShiftBlock? && |block| <= 64
    ensures ToNat(NewBlock(e, block)) == ToNat(block) / Pow2(e.shift)
  {
    hide ToNat;
    var k := Least(e.shift, |block|);
    assert NewBlock(e, block) == block[k..] + Zeros(k);
    ToNatPad(block[k..], k);
    DropDivides(block, e.shift);
  }

  /** Leaving out low bits divides; nothing is left once all are out. */
  lemma {:induction false} DropDivides(block: seq<bool>, k: nat)
    ensures ToNat(block[Least(k, |block|)..]) == ToNat(block) / Pow2(k)
    decreases k
  {
    if k == 0 {
      assert block[0..] == block;
    } else if block == [] {
      assert block[0..] == [];
      ZeroDivided(k);
    } else {
      DropDivides(block[1..], k - 1);
      assert block[1..][Least(k - 1, |block| - 1)..] == block[Least(k, |block|)..];
      HalfThen(ToNat(block), Pow2(k - 1));
      assert ToNat(block) / 2 == ToNat(block[1..]);
    }
  }

  lemma ZeroDivided(k: nat)
    ensures 0 / Pow2(k) == 0
  {
  }

  lemma HalfThen(v: nat, d: nat)
    requires d > 0
    ensures v / (2 * d) == (v / 2) / d
  {
    var q, r := (v / 2) / d, (v / 2) % d;
    assert v / 2 == q * d + r;
    assert v == 2 * (q * d + r) + v % 2;
    assert v == q * (2 * d) + (2 * r + v % 2);
    assert 2 * r + v % 2 < 2 * d;
    QuotientIs(v, 2 * d, q, 2 * r + v % 2);
  }

  lemma QuotientIs(v: nat, d: nat, q: nat, r: nat)
    requires d > 0 && v == q * d + r && r < d
    ensures v / d == q
  {
    var p, t := v / d, v % d;
    assert v == p * d + t;
    if p > q { MoreIsMore(p, q, d); } else if q > p { MoreIsMore(q, p, d); }
  }

  lemma MoreIsMore(p: nat, q: nat, d: nat)
    requires p > q
    ensures p * d >= q * d + d
  {
    assert p * d == q * d + (p - q) * d;
    assert (p - q) * d == d + (p - q - 1) * d;
  }

  /** A masked bit stays if one of the two draws has it; only 64 ones are corrected, below a drawn bit. */
  lemma MaskKeeps(size: nat, s: Stream, pos: nat, i: nat)
    requires size > 0 && i < Least(size, 64)
    ensures var e, n := EditFor(MASK, size, s, pos).edit, Least(size, 64);
      && e.MaskBlock?
      && (e.mask[i] <==>
            && InEither(s, pos, n, i)
            && (n == 64 && (forall j: nat :: j < 64 ==> InEither(s, pos, 64, j)) ==> i >= DrawAt(s, pos + 128, 8) % 64))
  {
    hide DrawAt, RegionFor;
    var n := Least(size, 64);
    var either := Or(Slice(s, pos, n) + Zeros(64 - n), Slice(s, pos + n, n) + Zeros(64 - n));
    forall j: nat | j < n ensures either[j] == InEither(s, pos, n, j) {}
    if n < 64 {
      assert !either[63];
    } else if forall j: nat :: j < 64 ==> InEither(s, pos, 64, j) {
      assert either == ALL_ONES;
    } else {
      var j: nat :| j < 64 && !InEither(s, pos, 64, j);
      assert !either[j] && ALL_ONES[j];
    }
  }

  lemma MaskIsAnd(at: nat, n: nat, mask: Word, block: seq<bool>, i: nat)
    requires |block| <= 64 && i < |block|
    ensures NewBlock(MaskBlock(at, n, mask), block)[i] == (block[i] && mask[i])
  {
  }

  /** The number drawn, reduced to what is there, is subtracted; if that leaves nothing to subtract, one is. */
  lemma SubSubtracts(size: nat, s: Stream, pos: nat, block: seq<bool>)
    requires |block| <= 64 && size > 0
    ensures var e, drawn, v := EditFor(SUB, size, s, pos).edit, DrawAt(s, pos, Least(size, 64)), ToNat(block);
      && e.SubBlock?
      && ToNat(NewBlock(e, block)) == if v == 0 then 0 else if drawn % v == 0 then v - 1 else v - drawn % v
  {
    hide DrawAt, RegionFor;
    if ToNat(block) > 0 {
      ToNatBound(block);
      ToNatFromNat(Subtracted(ToNat(block), DrawAt(s, pos, Least(size, 64))), |block|);
    }
  }

  // ----- How many changes -----

  /** The places that are set. */
  function Places(b: seq<bool>): set<nat> {
    set i: nat | i < |b| && b[i]
  }

  lemma {:induction false} CountsPlaces(b: seq<bool>)
    ensures CountTrue(b) == |Places(b)|
  {
    if b != [] {
      var n := |b| - 1;
      CountsPlaces(b[..n]);
      assert Places(b) == Places(b[..n]) + (if b[n] then {n} else {});
    }
  }

  /** One more than the ones drawn, but no more than the requests if all of them are small. */
  lemma ChangesWanted(requests: seq<nat>, draw: seq<bool>)
    ensures var ones := |Places(draw)|;
      ChangeCount(requests, draw)
        == if ones + 1 > |requests| && (forall i :: 0 <= i < |requests| ==> requests[i] <= 64) then |requests| else ones + 1
  {
    CountsPlaces(draw);
  }
}
