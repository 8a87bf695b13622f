/**
The Bloom filter object of src/theft_bloom.c: 512 lazily allocated linked lists of filters, each a bit array
twice as large as the one behind it. Its methods are proved against the value-level BloomSpec.
*/
module Bloom {
  import opened Bits
  import opened BloomSpec
  import Hash

  /** The first `i` probes of a hash. */
  ghost function FirstProbes(h: Word, size: nat, i: nat): set<nat>
    requires size <= 64 && i <= HASH_COUNT
  {
    if i == 0 then {} else FirstProbes(h, size, i - 1) + {Probe(h, size, i - 1)}
  }

  lemma AllProbes(h: Word, size: nat)
    requires size <= 64
    ensures FirstProbes(h, size, HASH_COUNT) == Probes(h, size)
  {
    hide Probe;
    assert FirstProbes(h, size, 1) == {Probe(h, size, 0)};
    assert FirstProbes(h, size, 2) == {Probe(h, size, 0), Probe(h, size, 1)};
    assert FirstProbes(h, size, 3) == {Probe(h, size, 0), Probe(h, size, 1), Probe(h, size, 2)};
  }

  class BloomFilter {
    const size2: nat
    const bits: array<bv8>
    var next: BloomFilter?
    ghost var keys: set<Word>

    ghost function AsGen(): Gen
      reads `keys
    {
      Gen(size2, keys)
    }

    /** The set bits are exactly the probes of the keys marked here. */
    ghost predicate Ok()
      reads `keys, bits
    {
      && SizeOk(AsGen()) && 8 * bits.Length == Pow2(size2)
      && forall v: nat :: v < Pow2(size2) ==> (PoolBit(bits[..], v) <==> HasBit(AsGen(), v))
    }

    /** alloc_filter: 2^size zero bits. */
    constructor (size: nat)
      requires MIN_FILTER_BITS <= size <= MAX_FILTER_BITS
      ensures Ok() && fresh(bits) && AsGen() == Gen(size, {}) && next == null
    {
      hide BitOf, OneHot;
      NinePowers();
      size2 := size;
      bits := new bv8[Pow2(size) / 8](_ => 0);
      next := null;
      keys := {};
      new;
      ZeroByte(0);
    }

    /** The marking loop: sets four bits, and reports whether one of them was clear. */
    method MarkIn(h: Word) returns (anySet: bool)
      requires Ok()
      modifies bits, `keys
      ensures Ok() && AsGen() == Gen(size2, old(keys) + {h}) && next == old(next)
      ensures anySet <==> !old(Hits(AsGen(), h))
    {
      hide BitOf, OneHot, Probe, HasBit;
      var hash := Shr(h, TOP_BLOCK_BITS);
      anySet := false;
      ghost var before := bits[..];
      ghost var gen := AsGen();
      for i := 0 to HASH_COUNT
        invariant unchanged(this)
        invariant forall v: nat :: v < Pow2(size2) ==>
          (PoolBit(bits[..], v) <==> PoolBit(before, v) || v in FirstProbes(h, size2, i))
        invariant anySet <==> exists v: nat :: v in FirstProbes(h, size2, i) && !PoolBit(before, v)
      {
        var v := ToNat(And(Shr(hash, i * size2), Mask(size2)));
        assert v == Probe(h, size2, i) by { ProbeUnfolds(h, size2, i); }
        MaskBound(Shr(hash, i * size2), size2);
        var offset, bit := v / 8, OneHot(v % 8);
        ByteBitOf(bits[offset], v % 8);
        if 0 == bits[offset] & bit {
          anySet := true;
        }
        ghost var was := bits[..];
        assert PoolBit(was, v) <==> PoolBit(before, v) || v in FirstProbes(h, size2, i);
        bits[offset] := SetIn(bits[offset], v % 8);
        OneBitSet(was, bits[..], v);
        assert FirstProbes(h, size2, i + 1) == FirstProbes(h, size2, i) + {v};
      }
      keys := keys + {h};
      AllProbes(h, size2);
      AllMarked(gen, h, before, bits[..], anySet);
    }

    /** The checking loop: are all four bits set? */
    method CheckIn(h: Word) returns (hitAll: bool)
      requires Ok()
      ensures hitAll <==> Hits(AsGen(), h)
    {
      hide BitOf, OneHot, Probe, HasBit;
      var hash := Shr(h, TOP_BLOCK_BITS);
      hitAll := true;
      for i := 0 to HASH_COUNT
        invariant hitAll && forall v: nat :: v in FirstProbes(h, size2, i) ==> v in SetBits(AsGen())
      {
        var v := ToNat(And(Shr(hash, i * size2), Mask(size2)));
        assert v == Probe(h, size2, i) by { ProbeUnfolds(h, size2, i); }
        MaskBound(Shr(hash, i * size2), size2);
        ByteBitOf(bits[v / 8], v % 8);
        if 0 == bits[v / 8] & OneHot(v % 8) {
          hitAll := false;
          assert v in Probes(h, size2) && v !in SetBits(AsGen());
          return;
        }
      }
      AllProbes(h, size2);
    }
  }

  /** After the loop, the bits are those of the filter with one more key. */
  lemma AllMarked(g: Gen, h: Word, before: seq<bv8>, after: seq<bv8>, anySet: bool)
    requires SizeOk(g)
    requires forall v: nat :: v < Pow2(g.size2) ==> (PoolBit(before, v) <==> HasBit(g, v))
    requires forall v: nat :: v < Pow2(g.size2) ==> (PoolBit(after, v) <==> PoolBit(before, v) || v in Probes(h, g.size2))
    requires anySet <==> exists v: nat :: v in Probes(h, g.size2) && !PoolBit(before, v)
    ensures forall v: nat :: v < Pow2(g.size2) ==> (PoolBit(after, v) <==> HasBit(Gen(g.size2, g.keys + {h}), v))
    ensures anySet <==> !Hits(g, h)
  {
    hide PoolBit, HasBit, Probes, Pow2;
    ProbesBound(h, g.size2);
    MarkedBits(g, h);
  }

  lemma ProbeUnfolds(h: Word, size: nat, i: nat)
    requires size <= 64
    ensures Probe(h, size, i) == ToNat(And(Shr(Shr(h, TOP_BLOCK_BITS), i * size), Mask(size)))
  {
  }

  lemma ByteBitOf(b: bv8, k: nat)
    requires k < 8
    ensures (0 == b & OneHot(k)) <==> !BitOf(b, k)
  {
  }

  /** `b |= 1 << k` */
  function SetIn(b: bv8, k: nat): bv8
    requires k < 8
  {
    b | OneHot(k)
  }

  lemma OneBitSet(was: seq<bv8>, now: seq<bv8>, v: nat)
    requires v / 8 < |was| && now == was[v / 8 := SetIn(was[v / 8], v % 8)]
    ensures forall i: nat :: PoolBit(now, i) == (PoolBit(was, i) || i == v)
  {
    hide BitOf, OneHot;
    forall i: nat
      ensures PoolBit(now, i) == (PoolBit(was, i) || i == v)
    {
      if i / 8 == v / 8 { SetBit(was[v / 8], v % 8, i % 8); }
    }
  }

  /** A key adds its probes to what is set. */
  lemma MarkedBits(g: Gen, h: Word)
    requires SizeOk(g)
    ensures forall v: nat :: HasBit(Gen(g.size2, g.keys + {h}), v) <==> HasBit(g, v) || v in Probes(h, g.size2)
  {
    hide Probes;
    var marked := Gen(g.size2, g.keys + {h});
    forall v: nat
      ensures HasBit(marked, v) <==> HasBit(g, v) || v in Probes(h, g.size2)
    {
      if v in Probes(h, g.size2) { assert h in marked.keys; }
      if HasBit(g, v) {
        var k :| k in g.keys && v in Probes(k, g.size2);
        assert k in marked.keys;
      }
    }
  }

  /** The filters of a linked list, as values. */
  ghost function Gens(c: seq<BloomFilter>): (r: Chain)
    ensures |r| == |c|
    reads c
  {
    seq(|c|, i requires 0 <= i < |c| reads c => c[i].AsGen())
  }

  ghost function First(c: seq<BloomFilter>): BloomFilter? {
    if c == [] then null else c[0]
  }

  /** What follows filter `i`. */
  ghost function NextOf(c: seq<BloomFilter>, i: nat): BloomFilter? {
    if i + 1 < |c| then c[i + 1] else null
  }

  /** `first` is the head of the linked list `c`. */
  ghost predicate Linked(first: BloomFilter?, c: seq<BloomFilter>)
    reads c, set f | f in c :: f.bits
  {
    && first == First(c)
    && (forall i :: 0 <= i < |c| ==> c[i].Ok())
    && (forall i :: 0 <= i < |c| ==> c[i].next == NextOf(c, i))
    && ChainOk(Gens(c))
  }

  class Bloom {
    const blocks: array<BloomFilter?>
    ghost var chains: seq<seq<BloomFilter>>
    ghost var Repr: set<object>
    ghost var place: map<array<bv8>, (int, int)>   // whose bits an array is: the block, and the place counted from the list's end

    ghost predicate Valid()
      reads this, blocks, Repr
    {
      && blocks.Length == BLOCKS && |chains| == BLOCKS
      && blocks in Repr && this !in Repr
      && (forall b :: 0 <= b < BLOCKS ==> Inside(chains[b]))
      && (forall b :: 0 <= b < BLOCKS ==> Linked(blocks[b], chains[b]))
      && (forall b, i :: At(b, i) ==> chains[b][i].bits in place && place[chains[b][i].bits] == (b, |chains[b]| - i))
    }

    /** Block `b` has a filter number `i`. */
    ghost predicate At(b: int, i: int)
      reads this
    {
      0 <= b < |chains| && 0 <= i < |chains[b]|
    }

    /** All of a list belongs to this object. */
    ghost predicate Inside(c: seq<BloomFilter>)
      reads this
    {
      forall i :: 0 <= i < |c| ==> c[i] in Repr && c[i].bits in Repr && c[i] as object != blocks && c[i].bits as object != blocks
    }

    /** What the filter remembers. */
    ghost function State(): (st: State)
      requires Valid()
      reads this, blocks, Repr
      ensures StateOk(st)
      ensures forall b :: 0 <= b < BLOCKS ==> st[b] == Gens(chains[b])
    {
      seq(BLOCKS, b requires 0 <= b < BLOCKS reads this, blocks, Repr requires Valid() => Gens(chains[b]))
    }

    /** theft_bloom_init, with the default configuration. */
    constructor ()
      ensures Valid() && fresh(Repr) && State() == Empty()
    {
      blocks := new BloomFilter?[BLOCKS](_ => null);
      chains := seq(BLOCKS, _ => []);
      place := map[];
      new;
      Repr := {blocks};
    }

    /** theft_bloom_check: a block matches if any of its filters does. */
    method Check(data: seq<bv8>) returns (found: bool)
      requires Valid()
      ensures found <==> BloomSpec.Check(State(), Hash.OnePass(data))
    {
      hide SetBits, Probes, Hits, BlockId, And, ToNat, Mask, Linked, Gens;
      var hash := Hash.HashOnePass(data);
      BlockIdUnfolds(hash);
      var blockId := ToNat(And(hash, Mask(TOP_BLOCK_BITS)));
      found := CheckBlock(blocks[blockId], chains[blockId], hash);
    }

    /** Walks the filters of one block. */
    method CheckBlock(first: BloomFilter?, ghost c: seq<BloomFilter>, hash: Word) returns (found: bool)
      requires Linked(first, c)
      ensures found <==> exists i :: 0 <= i < |c| && Hits(Gens(c)[i], hash)
    {
      hide SetBits, Probes, Hits, And, ToNat, Mask, BloomFilter.Ok, Linked, Gens, ChainOk;
      Parts(first, c);
      var bf := first;
      ghost var i := 0;
      while bf != null
        invariant 0 <= i <= |c| && bf == (if i < |c| then c[i] else null)
        invariant forall j :: 0 <= j < i ==> !Hits(Gens(c)[j], hash)
        decreases |c| - i
      {
        var hitAll := bf.CheckIn(hash);
        if hitAll {
          assert Hits(Gens(c)[i], hash);
          return true;
        }
        bf := bf.next;
        i := i + 1;
      }
      return false;
    }

    /** theft_bloom_mark */
    method Mark(data: seq<bv8>)
      requires Valid()
      modifies this, Repr
      ensures Valid() && fresh(Repr - old(Repr))
      ensures State() == BloomSpec.Mark(old(State()), Hash.OnePass(data))
    {
      hide SetBits, Probes, Hits, Linked, Gens, And, ToNat, Mask, BlockId, MarkChain, ChainOk;
      var hash := Hash.HashOnePass(data);
      BlockIdUnfolds(hash);
      MarkBlock(ToNat(And(hash, Mask(TOP_BLOCK_BITS))), hash);
    }

    /** theft_bloom_mark, once the hash and its block are known. */
    method MarkBlock(b: nat, hash: Word)
      requires Valid() && b == BlockId(hash)
      modifies this, Repr
      ensures Valid() && fresh(Repr - old(Repr))
      ensures State() == BloomSpec.Mark(old(State()), hash)
    {
      hide SetBits, Probes, Hits, BlockId, HasBit, PoolBit, ChainOk, StateOk, BloomSpec.Mark, Bloom.Valid, Bloom.State, CanGrow;
      Owns();
      ghost var before := State();
      var bf := EnsureHead(b);
      ghost var had := State();
      var anySet := MarkHead(b, bf, hash);
      ghost var marked := State();
      assert had == before[b := had[b]];
      if !anySet {
        Grow(b, bf);
      }
      MarkedBlock(before, State(), hash, had[b]);
    }

    lemma Owns()
      requires Valid()
      ensures blocks in Repr && this !in Repr && blocks.Length == |State()| == BLOCKS
    {
    }

    /** The head of a block, lazily allocated. */
    method EnsureHead(b: nat) returns (bf: BloomFilter)
      requires Valid() && b < BLOCKS
      modifies this`chains, this`Repr, this`place, blocks
      ensures Valid() && fresh(Repr - old(Repr)) && blocks[b] == bf && bf in Repr && bf.bits in Repr
      ensures State() == old(State())[b := if old(State())[b] == [] then [Gen(MIN_FILTER_BITS, {})] else old(State())[b]]
    {
      hide SetBits, Probes, Hits, HasBit, PoolBit;
      ghost var before := State();
      if blocks[b] == null {
        var first := new BloomFilter(MIN_FILTER_BITS);
        Prepend(b, first);
        assert [first.AsGen()] + before[b] == [Gen(MIN_FILTER_BITS, {})];
      }
      bf := blocks[b];
      assert bf == chains[b][0];
    }

    /** If the hash still has bits for it, puts a larger empty filter before the head. */
    method Grow(b: nat, bf: BloomFilter)
      requires Valid() && b < BLOCKS && blocks[b] == bf
      modifies this`chains, this`Repr, this`place, blocks
      ensures Valid() && fresh(Repr - old(Repr))
      ensures var c := old(State())[b];
        && c != [] && c[0].size2 == bf.size2
        && State() == old(State())[b := if CanGrow(c[0].size2) then [Gen(c[0].size2 + 1, {})] + c else c]
    {
      hide SetBits, Probes, Hits, HasBit, PoolBit;
      assert bf == chains[b][0];
      if TOP_BLOCK_BITS + HASH_COUNT * (bf.size2 + 1) > 64 {
        // no more hash bits: the chain cannot grow any further
      } else {
        var nbf := new BloomFilter(bf.size2 + 1);
        Prepend(b, nbf);
      }
    }

    /** Puts a new, empty filter at the head of a block. */
    method Prepend(b: nat, bf: BloomFilter)
      requires Valid() && b < BLOCKS
      requires bf.Ok() && bf.next == null && bf.keys == {}
      requires bf !in Repr && bf.bits !in Repr && bf as object != this && bf.bits as object != this
      requires bf as object != blocks && bf.bits as object != blocks
      requires ChainOk([bf.AsGen()] + State()[b])
      modifies this`chains, this`Repr, this`place, blocks, bf`next
      ensures Valid() && Repr == old(Repr) + {bf, bf.bits}
      ensures State() == old(State())[b := [bf.AsGen()] + old(State())[b]] && bf.AsGen() == old(bf.AsGen())
    {
      hide Linked, Gens, ChainOk;
      ghost var before := State();
      assert forall c, i :: 0 <= c < BLOCKS && 0 <= i < |chains[c]| ==> At(c, i);
      SetHead(b, bf, before);
      PrependLinks(bf, First(chains[b]), chains[b]);
      place := place[bf.bits := (b, |chains[b]| + 1)];
      chains := chains[b := [bf] + chains[b]];
      Repr := Repr + {bf, bf.bits};
      Adopted(b, bf, old(chains), old(Repr), old(place), before);
    }

    /** The two pointer writes. The old lists are as they were. */
    method SetHead(b: nat, bf: BloomFilter, ghost before: State)
      requires Valid() && b < BLOCKS && before == State()
      requires bf.Ok() && bf !in Repr && bf as object != this && bf as object != blocks
      modifies blocks, bf`next
      ensures bf.next == First(chains[b]) && blocks[b] == bf
      ensures forall b' :: 0 <= b' < BLOCKS ==> Linked(First(chains[b']), chains[b']) && Gens(chains[b']) == before[b']
      ensures forall b' :: 0 <= b' < BLOCKS && b' != b ==> blocks[b'] == First(chains[b'])
    {
      hide Linked, Gens, ChainOk, BloomFilter.Ok, BloomFilter.AsGen;
      forall b' | 0 <= b' < BLOCKS
        ensures Linked(First(chains[b']), chains[b']) && blocks[b'] == First(chains[b'])
      {
        IsFirst(blocks[b'], chains[b']);
      }
      bf.next := blocks[b];
      blocks[b] := bf;
    }

    /** With its new filter entered in the books, the object is valid. */
    lemma Adopted(b: nat, bf: BloomFilter, had: seq<seq<BloomFilter>>, repr: set<object>, was: map<array<bv8>, (int, int)>,
                  before: State)
      requires b < BLOCKS == |had| == |before| == blocks.Length && StateOk(before)
      requires blocks in repr && this !in repr
      requires bf !in repr && bf.bits !in repr && bf as object != this && bf.bits as object != this
      requires bf as object != blocks && bf.bits as object != blocks
      requires forall c, i :: 0 <= c < BLOCKS && 0 <= i < |had[c]| ==>
        had[c][i] in repr && had[c][i].bits in repr && had[c][i] as object != blocks && had[c][i].bits as object != blocks
      requires forall c, i :: 0 <= c < BLOCKS && 0 <= i < |had[c]| ==>
        had[c][i].bits in was && was[had[c][i].bits] == (c, |had[c]| - i)
      requires forall c :: 0 <= c < BLOCKS ==> Linked(First(had[c]), had[c]) && Gens(had[c]) == before[c]
      requires forall c :: 0 <= c < BLOCKS && c != b ==> blocks[c] == First(had[c])
      requires blocks[b] == bf && Linked(bf, [bf] + had[b]) && Gens([bf] + had[b]) == [bf.AsGen()] + before[b]
      requires chains == had[b := [bf] + had[b]] && Repr == repr + {bf, bf.bits}
      requires place == was[bf.bits := (b, |had[b]| + 1)]
      ensures Valid() && State() == before[b := [bf.AsGen()] + before[b]]
    {
      hide Linked, Gens, ChainOk, BloomFilter.Ok, BloomFilter.AsGen, StateOk;
      forall c, i | At(c, i)
        ensures chains[c][i].bits in place && place[chains[c][i].bits] == (c, |chains[c]| - i)
        ensures chains[c][i] in Repr && chains[c][i].bits in Repr
        ensures chains[c][i] as object != blocks && chains[c][i].bits as object != blocks
      {
        if c == b && i > 0 { assert chains[c][i] == had[b][i - 1]; }
        if c != b { assert chains[c][i] == had[c][i]; }
      }
      forall c | 0 <= c < BLOCKS
        ensures Inside(chains[c])
      {
        assert forall i :: 0 <= i < |chains[c]| ==> At(c, i);
      }
    }

    /** Marks in the head filter of a block. */
    method MarkHead(b: nat, bf: BloomFilter, hash: Word) returns (anySet: bool)
      requires Valid() && b < BLOCKS && blocks[b] == bf
      modifies bf.bits, bf`keys
      ensures Valid() && Repr == old(Repr) && blocks[b] == bf
      ensures var c := old(State())[b];
        && c != [] && (anySet <==> !Hits(c[0], hash)) && bf.size2 == c[0].size2
        && State() == old(State())[b := [Gen(c[0].size2, c[0].keys + {hash})] + c[1..]]
    {
      hide SetBits, Probes, Hits, ChainOk, BloomFilter.Ok, Linked, Gens;
      ghost var c, before := chains[b], State();
      Parts(bf, c);
      anySet := bf.MarkIn(hash);
      forall b', i | At(b', i) && !(b' == b && i == 0)
        ensures chains[b'][i] != bf && chains[b'][i].bits != bf.bits
      {
        assert At(b, 0);
      }
      forall b' | 0 <= b' < BLOCKS && b' != b
        ensures Linked(blocks[b'], chains[b']) && Gens(chains[b']) == before[b']
      {
        assert forall i :: 0 <= i < |chains[b']| ==> At(b', i);
      }
      assert forall i :: 1 <= i < |c| ==> At(b, i);
      ghost var g := [Gen(before[b][0].size2, before[b][0].keys + {hash})] + before[b][1..];
      SameSizes(before[b], g);
      forall i | 0 <= i < |c|
        ensures c[i].Ok() && g[i] == c[i].AsGen()
      {
        if i > 0 { assert At(b, i); }
      }
      Assemble(bf, c, g);
    }
  }

  /** Lazy allocation, marking and growing together are one mark of the block. */
  lemma MarkedBlock(before: State, after: State, h: Word, had: Chain)
    requires StateOk(before)
    requires had == if before[BlockId(h)] == [] then [Gen(MIN_FILTER_BITS, {})] else before[BlockId(h)]
    requires var marked := [Gen(had[0].size2, had[0].keys + {h})] + had[1..];
      after == before[BlockId(h) :=
        if Hits(had[0], h) && CanGrow(had[0].size2) then [Gen(had[0].size2 + 1, {})] + marked else marked]
    ensures after == BloomSpec.Mark(before, h)
  {
    hide Hits, BlockId;
    var marked := [Gen(had[0].size2, had[0].keys + {h})] + had[1..];
    assert [Gen(had[0].size2 + 1, {})] + marked == [Gen(had[0].size2 + 1, {}), marked[0]] + had[1..];
  }

  lemma SameSizes(c: Chain, d: Chain)
    requires |d| == |c| && ChainOk(c) && forall i :: 0 <= i < |c| ==> d[i].size2 == c[i].size2
    ensures ChainOk(d)
  {
  }

  /** What it takes to be a linked list, part by part. */
  lemma Parts(first: BloomFilter?, c: seq<BloomFilter>)
    requires Linked(first, c)
    ensures first == First(c) && ChainOk(Gens(c))
    ensures forall i :: 0 <= i < |c| ==> c[i].Ok() && Gens(c)[i] == c[i].AsGen()
    ensures forall i :: 0 <= i < |c| ==> c[i].next == NextOf(c, i)
  {
  }

  lemma Assemble(first: BloomFilter?, c: seq<BloomFilter>, g: Chain)
    requires first == First(c) && |g| == |c| && ChainOk(g)
    requires forall i :: 0 <= i < |c| ==> c[i].Ok() && g[i] == c[i].AsGen()
    requires forall i :: 0 <= i < |c| ==> c[i].next == NextOf(c, i)
    ensures Linked(first, c) && Gens(c) == g
  {
    hide BloomFilter.Ok;
    assert Gens(c) == g;
  }

  lemma IsFirst(first: BloomFilter?, c: seq<BloomFilter>)
    requires Linked(first, c)
    ensures first == First(c)
  {
  }

  lemma PrependLinks(bf: BloomFilter, first: BloomFilter?, c: seq<BloomFilter>)
    requires Linked(first, c) && bf.Ok() && bf.next == first && ChainOk([bf.AsGen()] + Gens(c))
    ensures Linked(bf, [bf] + c) && Gens([bf] + c) == [bf.AsGen()] + Gens(c)
  {
    hide BloomFilter.Ok, Linked, Gens;
    Parts(first, c);
    var longer := [bf] + c;
    forall i | 0 <= i < |longer|
      ensures longer[i].Ok() && ([bf.AsGen()] + Gens(c))[i] == longer[i].AsGen()
      ensures longer[i].next == NextOf(longer, i)
    {
      if i > 0 {
        assert longer[i] == c[i - 1] && NextOf(longer, i) == NextOf(c, i - 1);
      } else {
        assert NextOf(longer, 0) == First(c);
      }
    }
    Assemble(bf, longer, [bf.AsGen()] + Gens(c));
  }

  lemma BlockIdUnfolds(h: Word)
    ensures BlockId(h) == ToNat(And(h, Mask(TOP_BLOCK_BITS)))
  {
  }
}
