/**
What the dynamic blocked Bloom filter of src/theft_bloom.c remembers, as a value: for each of 512 blocks a
chain of filters, newest first, each with the keys that were marked while it was the head.
*/
module BloomSpec {
  import opened Bits

  const TOP_BLOCK_BITS: nat := 9
  const MIN_FILTER_BITS: nat := 9
  const HASH_COUNT: nat := 4
  const BLOCKS: nat := 512
  const MAX_FILTER_BITS: nat := 13

  /** The block a hash selects: its low 9 bits. */
  function BlockId(h: Word): (r: nat)
    ensures r < BLOCKS
  {
    var r := ToNat(And(h, Mask(TOP_BLOCK_BITS)));
    assert r < BLOCKS by {
      MaskBound(h, TOP_BLOCK_BITS);
      NinePowers();
    }
    r
  }

  /** Probe `i` of a hash in a filter of 2^size bits. */
  function Probe(h: Word, size: nat, i: nat): nat
    requires size <= 64
  {
    ToNat(And(Shr(Shr(h, TOP_BLOCK_BITS), i * size), Mask(size)))
  }

  function Probes(h: Word, size: nat): set<nat>
    requires size <= 64
  {
    {Probe(h, size, 0), Probe(h, size, 1), Probe(h, size, 2), Probe(h, size, 3)}
  }

  lemma MaskBound(w: Word, k: nat)
    requires k <= 64
    ensures ToNat(And(w, Mask(k))) < Pow2(k)
  {
    var v := And(w, Mask(k));
    assert v == v[..k] + Zeros(64 - k);
    ToNatPad(v[..k], 64 - k);
    ToNatBound(v[..k]);
  }

  /** The block is the low nine bits of the hash. */
  lemma BlockIsLowBits(h: Word)
    ensures BlockId(h) == ToNat(h[..9])
  {
    assert And(h, Mask(9)) == h[..9] + Zeros(55);
    ToNatPad(h[..9], 55);
  }

  /** Probe `i` is the number in the `size` bits after those of the block and of the probes before it. */
  lemma ProbeIsBits(h: Word, size: nat, i: nat)
    requires 9 + (i + 1) * size <= 64
    ensures 9 + i * size <= 9 + (i + 1) * size
    ensures Probe(h, size, i) == ToNat(h[9 + i * size..9 + (i + 1) * size])
  {
    assert (i + 1) * size == i * size + size;
    var from := 9 + i * size;
    ProbeBits(h, size, i * size);
    ToNatPad(h[from..from + size], 64 - size);
  }

  lemma ProbeBits(h: Word, size: nat, off: nat)
    requires 9 + off + size <= 64
    ensures And(Shr(Shr(h, 9), off), Mask(size)) == h[9 + off..9 + off + size] + Zeros(64 - size)
  {
    var left, right := And(Shr(Shr(h, 9), off), Mask(size)), h[9 + off..9 + off + size] + Zeros(64 - size);
    assert forall k :: 0 <= k < 64 ==> left[k] == right[k];
  }

  /** In a smallest filter, block and probes together tell the low 45 bits of the hash. */
  lemma ProbesTellHash(a: Word, b: Word)
    requires BlockId(a) == BlockId(b) && forall i :: 0 <= i < 4 ==> Probe(a, 9, i) == Probe(b, 9, i)
    ensures a[..45] == b[..45]
  {
    hide BlockId, Probe, ToNat;
    BlockIsLowBits(a);
    BlockIsLowBits(b);
    ToNatInjective(a[..9], b[..9]);
    SameProbe(a, b, 0);
    SameProbe(a, b, 1);
    SameProbe(a, b, 2);
    SameProbe(a, b, 3);
    assert a[..45] == a[..9] + a[9..18] + a[18..27] + a[27..36] + a[36..45];
    assert b[..45] == b[..9] + b[9..18] + b[18..27] + b[27..36] + b[36..45];
  }

  lemma SameProbe(a: Word, b: Word, i: nat)
    requires i < 4 && Probe(a, 9, i) == Probe(b, 9, i)
    ensures a[9 + 9 * i..18 + 9 * i] == b[9 + 9 * i..18 + 9 * i]
  {
    hide Probe, ToNat;
    ProbeIsBits(a, 9, i);
    ProbeIsBits(b, 9, i);
    assert 9 + i * 9 == 9 + 9 * i && 9 + (i + 1) * 9 == 18 + 9 * i;
    ToNatInjective(a[9 + 9 * i..18 + 9 * i], b[9 + 9 * i..18 + 9 * i]);
  }

  lemma ProbesBound(h: Word, size: nat)
    requires size <= 64
    ensures forall v :: v in Probes(h, size) ==> v < Pow2(size)
  {
    hide And, Shr, Mask;
    MaskBound(Shr(Shr(h, TOP_BLOCK_BITS), 0 * size), size);
    MaskBound(Shr(Shr(h, TOP_BLOCK_BITS), 1 * size), size);
    MaskBound(Shr(Shr(h, TOP_BLOCK_BITS), 2 * size), size);
    MaskBound(Shr(Shr(h, TOP_BLOCK_BITS), 3 * size), size);
  }

  lemma NinePowers()
    ensures Pow2(9) == 512 && Pow2(10) == 1024 && Pow2(11) == 2048 && Pow2(12) == 4096 && Pow2(13) == 8192
  {
    assert Pow2(4) == 16;
    assert Pow2(7) == 128;
    assert Pow2(9) == 512;
    assert Pow2(11) == 2048;
  }

  /** One filter: its size, and the keys marked while it was the head of its chain. */
  datatype Gen = Gen(size2: nat, keys: set<Word>)

  predicate SizeOk(g: Gen) {
    MIN_FILTER_BITS <= g.size2 <= MAX_FILTER_BITS
  }

  /** The set bits of a filter: the probes of its keys. */
  ghost function SetBits(g: Gen): set<nat>
    requires SizeOk(g)
  {
    set v: nat | v < Pow2(g.size2) && HasBit(g, v)
  }

  ghost predicate HasBit(g: Gen, v: nat)
    requires SizeOk(g)
  {
    exists h :: h in g.keys && v in Probes(h, g.size2)
  }

  ghost predicate Hits(g: Gen, h: Word)
    requires SizeOk(g)
  {
    Probes(h, g.size2) <= SetBits(g)
  }

  /** A key of a filter has all its probes there. */
  lemma KeyHits(g: Gen, h: Word)
    requires SizeOk(g) && h in g.keys
    ensures Hits(g, h)
  {
    hide Probes;
    ProbesBound(h, g.size2);
    forall v | v in Probes(h, g.size2) ensures v in SetBits(g) {
      assert HasBit(g, v);
    }
  }

  type Chain = seq<Gen>

  /** Sizes run consecutively from the head down to 9, and never pass 13. */
  predicate ChainOk(c: Chain) {
    && |c| <= MAX_FILTER_BITS - MIN_FILTER_BITS + 1
    && forall i :: 0 <= i < |c| ==> c[i].size2 == MIN_FILTER_BITS + (|c| - 1 - i)
  }

  /** A key matches if ANY filter of its chain has all its probes. */
  ghost predicate CheckChain(c: Chain, h: Word)
    requires ChainOk(c)
  {
    exists i :: 0 <= i < |c| && Hits(c[i], h)
  }

  /** The hash has bits left for four probes of one size more. */
  predicate CanGrow(size: nat) {
    TOP_BLOCK_BITS + HASH_COUNT * (size + 1) <= 64
  }

  /** A chain grows up to size 13, and no further. */
  lemma GrowsToThirteen(size: nat)
    requires size >= 9
    ensures CanGrow(size) <==> size < 13
  {
  }

  /** Marking: the head takes the key; if that set no new bit, a larger empty filter becomes the head. */
  ghost function MarkChain(c: Chain, h: Word): (r: Chain)
    requires ChainOk(c)
    ensures ChainOk(r)
  {
    var had := if c == [] then [Gen(MIN_FILTER_BITS, {})] else c;
    var head := Gen(had[0].size2, had[0].keys + {h});
    if Hits(had[0], h) && CanGrow(head.size2) then [Gen(head.size2 + 1, {}), head] + had[1..]
    else [head] + had[1..]
  }

  type State = seq<Chain>

  ghost predicate StateOk(st: State) {
    |st| == BLOCKS && forall b :: 0 <= b < BLOCKS ==> ChainOk(st[b])
  }

  ghost predicate Check(st: State, h: Word)
    requires StateOk(st)
  {
    CheckChain(st[BlockId(h)], h)
  }

  ghost function Mark(st: State, h: Word): (r: State)
    requires StateOk(st)
    ensures StateOk(r)
  {
    st[BlockId(h) := MarkChain(st[BlockId(h)], h)]
  }

  /** No block has a filter yet. */
  ghost function Empty(): (r: State)
    ensures StateOk(r)
  {
    seq(BLOCKS, _ => [])
  }

  ghost function MarkAll(st: State, keys: seq<Word>): (r: State)
    requires StateOk(st)
    ensures StateOk(r)
  {
    if keys == [] then st else Mark(MarkAll(st, keys[..|keys| - 1]), keys[|keys| - 1])
  }

  /** The keys a chain remembers. */
  function KeysOf(c: Chain): set<Word> {
    if c == [] then {} else c[0].keys + KeysOf(c[1..])
  }

  lemma {:induction false} KeyIsInSomeGen(c: Chain, h: Word)
    ensures h in KeysOf(c) <==> exists i :: 0 <= i < |c| && h in c[i].keys
  {
    if c != [] {
      KeyIsInSomeGen(c[1..], h);
      if i :| 0 <= i < |c| && h in c[i].keys {
        if i > 0 { assert c[1..][i - 1] == c[i]; }
      }
    }
  }

  lemma MarkAddsKey(c: Chain, h: Word)
    requires ChainOk(c)
    ensures KeysOf(MarkChain(c, h)) == KeysOf(c) + {h}
  {
    hide Hits, Probe;
    var had := if c == [] then [Gen(MIN_FILTER_BITS, {})] else c;
    var head := Gen(had[0].size2, had[0].keys + {h});
    var r := MarkChain(c, h);
    assert ([head] + had[1..])[1..] == had[1..];
    if |r| > |had| {
      assert r[1..] == [head] + had[1..];
    }
    if c == [] { assert had[1..] == []; }
  }

  /** Exactness: the keys a block remembers are exactly the keys marked so far that select it. */
  lemma {:induction false} RemembersExactly(keys: seq<Word>, b: nat, h: Word)
    requires b < BLOCKS
    ensures h in KeysOf(MarkAll(Empty(), keys)[b]) <==> h in keys && BlockId(h) == b
  {
    hide Probe, BlockId;
    if keys != [] {
      var n := |keys| - 1;
      RemembersExactly(keys[..n], b, h);
      var before := MarkAll(Empty(), keys[..n]);
      MarkAddsKey(before[BlockId(keys[n])], keys[n]);
      assert keys == keys[..n] + [keys[n]];
    }
  }

  /** Nothing is found before anything is marked. */
  lemma NothingFound(h: Word)
    ensures !Check(MarkAll(Empty(), []), h)
  {
    hide BlockId, Hits;
  }

  /** A key is found only if each of its probes in some filter is a probe of a key marked in the same block. */
  lemma FoundByProbes(keys: seq<Word>, h: Word) returns (size: nat)
    requires Check(MarkAll(Empty(), keys), h)
    ensures MIN_FILTER_BITS <= size <= MAX_FILTER_BITS
    ensures forall i :: 0 <= i < 4 ==>
      exists k, j :: k in keys && BlockId(k) == BlockId(h) && 0 <= j < 4 && Probe(k, size, j) == Probe(h, size, i)
  {
    hide Probe, BlockId, MarkAll, KeysOf;
    var c := MarkAll(Empty(), keys)[BlockId(h)];
    var f :| 0 <= f < |c| && Hits(c[f], h);
    size := c[f].size2;
    forall i | 0 <= i < 4
      ensures exists k, j :: k in keys && BlockId(k) == BlockId(h) && 0 <= j < 4 && Probe(k, size, j) == Probe(h, size, i)
    {
      assert Probe(h, size, i) in Probes(h, size);
      assert HasBit(c[f], Probe(h, size, i));
      var k :| k in c[f].keys && Probe(h, size, i) in Probes(k, size);
      KeyIsInSomeGen(c, k);
      RemembersExactly(keys, BlockId(h), k);
    }
  }

  /** No growth ever loses a key: whatever was marked still checks true. */
  lemma MarkedStaysMarked(keys: seq<Word>, h: Word)
    requires h in keys
    ensures Check(MarkAll(Empty(), keys), h)
  {
    hide Probe, BlockId, MarkAll, KeysOf;
    var c := MarkAll(Empty(), keys)[BlockId(h)];
    RemembersExactly(keys, BlockId(h), h);
    KeyIsInSomeGen(c, h);
    var i :| 0 <= i < |c| && h in c[i].keys;
    KeyHits(c[i], h);
  }

  // ----- Any filter, or all of them? -----

  /** All filters of the chain have all the key's probes, and there is one. */
  ghost predicate AllHit(c: Chain, h: Word)
    requires ChainOk(c)
  {
    c != [] && forall i :: 0 <= i < |c| ==> Hits(c[i], h)
  }

  /** Asking for any filter and asking for all of them is the same exactly for keys about which no two filters disagree. */
  lemma AnyIsAll(c: Chain, h: Word)
    requires ChainOk(c)
    ensures (CheckChain(c, h) <==> AllHit(c, h)) <==> forall i, j :: 0 <= i < |c| && 0 <= j < |c| && Hits(c[i], h) ==> Hits(c[j], h)
  {
    hide Hits;
    if c != [] && Hits(c[0], h) { assert CheckChain(c, h); }
  }

  /** The filters behind the head all have the key. */
  ghost predicate OlderHit(c: Chain, h: Word)
    requires ChainOk(c)
  {
    forall i :: 1 <= i < |c| ==> Hits(c[i], h)
  }

  /**
  Just after a key is marked it is found, and whether all filters have it is decided by what could be seen before: they do if and
  only if the chain did not grow and the filters behind its head had the key already.
  */
  lemma MarkedAnyIsAll(c: Chain, h: Word)
    requires ChainOk(c)
    ensures CheckChain(MarkChain(c, h), h)
    ensures AllHit(MarkChain(c, h), h) <==> !(c != [] && Hits(c[0], h) && CanGrow(c[0].size2)) && OlderHit(c, h)
  {
    hide Hits;
    var had := if c == [] then [Gen(MIN_FILTER_BITS, {})] else c;
    var head := Gen(had[0].size2, had[0].keys + {h});
    var r := MarkChain(c, h);
    KeyHits(head, h);
    if c == [] { EmptyMisses(MIN_FILTER_BITS, h); }
    if Hits(had[0], h) && CanGrow(head.size2) {
      EmptyMisses(head.size2 + 1, h);
      assert r[1] == head && !Hits(r[0], h);
    } else {
      assert r[0] == head;
      forall i | 1 <= i < |had| ensures r[i] == had[i] {}
      assert |r| == |had|;
    }
  }

  /** After any growth the two differ: the key that made the chain grow is found, and not in the new head. */
  lemma GrowthDivides(c: Chain, h: Word)
    requires ChainOk(c) && c != [] && Hits(c[0], h) && CanGrow(c[0].size2)
    ensures CheckChain(MarkChain(c, h), h) && !AllHit(MarkChain(c, h), h)
  {
    var r := MarkChain(c, h);
    KeyHits(r[1], h);
    assert Probe(h, r[0].size2, 0) !in SetBits(r[0]);
  }

  /** Marking any key twice makes its chain grow. */
  lemma MarkedTwice(h: Word)
    ensures var st := MarkAll(Empty(), [h, h]); Check(st, h) && !AllHit(st[BlockId(h)], h)
  {
    hide BlockId, Hits, AllHit, CheckChain;
    var once := MarkAll(Empty(), [h]);
    assert [h, h][..1] == [h] && [h][..0] == [];
    var b := BlockId(h);
    assert once == Mark(MarkAll(Empty(), []), h);
    assert once[b] == MarkChain([], h);
    FirstMark(h);
    KeyHits(once[b][0], h);
    GrowthDivides(once[b], h);
  }

  lemma FirstMark(h: Word)
    ensures MarkChain([], h) == [Gen(9, {h})]
  {
    hide Hits;
    EmptyMisses(MIN_FILTER_BITS, h);
    assert {} + {h} == {h};
  }

  lemma EmptyMisses(size: nat, h: Word)
    requires MIN_FILTER_BITS <= size <= MAX_FILTER_BITS
    ensures !Hits(Gen(size, {}), h)
  {
    assert Probe(h, size, 0) !in SetBits(Gen(size, {}));
  }

  // ----- The runner's discipline: mark only what has just checked false -----

  /** Every block has at most its first, smallest filter. */
  ghost predicate Flat(st: State) {
    StateOk(st) && forall b :: 0 <= b < BLOCKS ==> |st[b]| <= 1
  }

  /** The bits set in the head of a chain. */
  ghost function HeadBits(c: Chain): set<nat>
    requires ChainOk(c)
  {
    if c == [] then {} else SetBits(c[0])
  }

  /** How many bits are set in the heads of the first `n` blocks. */
  ghost function Used(st: State, n: nat): nat
    requires StateOk(st) && n <= BLOCKS
  {
    if n == 0 then 0 else Used(st, n - 1) + |HeadBits(st[n - 1])|
  }

  lemma {:induction false} SubsetSize(a: set<nat>, b: set<nat>)
    requires a <= b
    ensures |a| <= |b|
    ensures a != b ==> |a| < |b|
  {
    if a == {} {
      if b != {} { assert |b| > 0; }
    } else {
      var x :| x in a;
      SubsetSize(a - {x}, b - {x});
    }
  }

  lemma {:induction false} RangeSize(a: set<nat>, n: nat)
    requires forall v :: v in a ==> v < n
    ensures |a| <= n
  {
    if n == 0 {
      assert a == {};
    } else {
      RangeSize(a - {n - 1}, n - 1);
      if n - 1 in a { assert |a| == |a - {n - 1}| + 1; } else { assert a - {n - 1} == a; }
    }
  }

  lemma {:induction false} UsedBound(st: State, n: nat)
    requires Flat(st) && n <= BLOCKS
    ensures Used(st, n) <= 512 * n
  {
    hide Probes;
    if n > 0 {
      UsedBound(st, n - 1);
      NinePowers();
      var c := st[n - 1];
      if c != [] {
        forall v | v in SetBits(c[0]) ensures v < 512 {
          var h :| h in c[0].keys && v in Probes(h, c[0].size2);
          ProbesBound(h, 9);
        }
      }
      RangeSize(HeadBits(c), 512);
    }
  }

  lemma {:induction false} UsedUpdate(st: State, b: nat, c: Chain, n: nat)
    requires StateOk(st) && b < BLOCKS && ChainOk(c) && n <= BLOCKS
    ensures Used(st[b := c], n) == Used(st, n) + (if b < n then |HeadBits(c)| - |HeadBits(st[b])| else 0)
  {
    hide HeadBits;
    if n > 0 { UsedUpdate(st, b, c, n - 1); }
  }

  /** Marking a key that checks false sets a bit that was clear, and never grows a chain. */
  lemma CheckThenMark(st: State, h: Word)
    requires Flat(st) && !Check(st, h)
    ensures Flat(Mark(st, h)) && Used(st, BLOCKS) < Used(Mark(st, h), BLOCKS)
    ensures Check(Mark(st, h), h)
  {
    hide Probes, BlockId;
    var b := BlockId(h);
    var c := st[b];
    var r := MarkChain(c, h);
    MissedHeadGains(c, h);
    SubsetSize(HeadBits(c), HeadBits(r));
    UsedUpdate(st, b, r, BLOCKS);
  }

  lemma MissedHeadGains(c: Chain, h: Word)
    requires ChainOk(c) && |c| <= 1 && !CheckChain(c, h)
    ensures |MarkChain(c, h)| == 1 && HeadBits(c) < HeadBits(MarkChain(c, h))
    ensures CheckChain(MarkChain(c, h), h)
  {
    hide Probe;
    var had := if c == [] then [Gen(MIN_FILTER_BITS, {})] else c;
    var head := Gen(had[0].size2, had[0].keys + {h});
    assert !Hits(had[0], h) by {
      if c == [] { assert Probe(h, 9, 0) in Probes(h, 9); }
    }
    assert MarkChain(c, h) == [head];
    forall v | v in HeadBits(c) ensures v in SetBits(head) {
      var k :| k in had[0].keys && v in Probes(k, had[0].size2);
      assert k in head.keys;
    }
    KeyHits(head, h);
    var missing :| missing in Probes(h, head.size2) && missing !in SetBits(had[0]);
    assert missing !in HeadBits(c);
    assert Hits(MarkChain(c, h)[0], h);
  }

  /** Each key of the sequence checks false when its turn comes. */
  ghost predicate EachNew(keys: seq<Word>) {
    forall i :: 0 <= i < |keys| ==> NewAt(keys, i)
  }

  ghost predicate NewAt(keys: seq<Word>, i: nat)
    requires i < |keys|
  {
    !Check(MarkAll(Empty(), keys[..i]), keys[i])
  }

  /** A run that only ever marks what checks false makes at most 2^9 * 2^9 marks. */
  lemma {:induction false} AtMost2To18Marks(keys: seq<Word>)
    requires EachNew(keys)
    ensures Flat(MarkAll(Empty(), keys))
    ensures |keys| <= Used(MarkAll(Empty(), keys), BLOCKS) <= 512 * 512
  {
    hide Check, Mark, Used, ChainOk;
    if keys == [] {
      assert Flat(Empty()) by { EmptyIsFlat(); }
    } else {
      var n := |keys| - 1;
      forall i | 0 <= i < n ensures NewAt(keys[..n], i) {
        assert NewAt(keys, i) && keys[..n][..i] == keys[..i];
      }
      assert NewAt(keys, n);
      AtMost2To18Marks(keys[..n]);
      CheckThenMark(MarkAll(Empty(), keys[..n]), keys[n]);
    }
    UsedBound(MarkAll(Empty(), keys), BLOCKS);
  }

  lemma EmptyIsFlat()
    ensures Flat(Empty())
  {
  }

  /** In the runner, where no chain grows, any filter is all filters. */
  lemma RunnerAnyIsAll(keys: seq<Word>, h: Word)
    requires EachNew(keys)
    ensures Check(MarkAll(Empty(), keys), h) <==> AllHit(MarkAll(Empty(), keys)[BlockId(h)], h)
  {
    hide BlockId, Hits, MarkAll;
    AtMost2To18Marks(keys);
    AnyIsAll(MarkAll(Empty(), keys)[BlockId(h)], h);
  }

  /** One mark without that discipline is enough: after it the two agree on the key if and only if the key checked false before. */
  lemma OneMarkDivides(keys: seq<Word>, h: Word)
    requires EachNew(keys)
    ensures var st := Mark(MarkAll(Empty(), keys), h);
      (Check(st, h) <==> AllHit(st[BlockId(h)], h)) <==> !Check(MarkAll(Empty(), keys), h)
  {
    hide BlockId, Hits, MarkAll;
    AtMost2To18Marks(keys);
    var c := MarkAll(Empty(), keys)[BlockId(h)];
    MarkedAnyIsAll(c, h);
  }
}
