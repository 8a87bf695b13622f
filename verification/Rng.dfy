/**
The block Mersenne Twister of src/theft_rng.c.

The C code regenerates 312 state words at a time, in place, so that one array
holds words of two generations while a block is being rewritten. The model keeps
that array and proves that what comes out is the MT19937-64 recurrence `State`,
tempered, one term for each call.
*/
module Rng {

  const NN: nat := 312
  const MM: nat := 156
  const MATRIX_A: bv64 := 0xB5026F5AA96619E9
  const UM: bv64 := 0xFFFFFFFF80000000
  const LM: bv64 := 0x7FFFFFFF
  const DEFAULT_SEED: bv64 := 5489

  /** One step of the recurrence: `upper` and `lower` supply the mixed word, `far` the word 156 places on. */
  function Twist(upper: bv64, lower: bv64, far: bv64): bv64 {
    var x := (upper & UM) | (lower & LM);
    far ^ (x >> 1) ^ (if x & 1 == 1 then MATRIX_A else 0)
  }

  // the four steps of tempering, and what each mixes into a word

  function Mixed1(x: bv64): bv64 {
    (x >> 29) & 0x5555555555555555
  }

  function Tempered1(x: bv64): bv64 {
    x ^ Mixed1(x)
  }

  function Mixed2(x: bv64): bv64 {
    (x << 17) & 0x71D67FFFEDA60000
  }

  function Tempered2(x: bv64): bv64 {
    x ^ Mixed2(x)
  }

  function Mixed3(x: bv64): bv64 {
    (x << 37) & 0xFFF7EEE000000000
  }

  function Tempered3(x: bv64): bv64 {
    x ^ Mixed3(x)
  }

  function Mixed4(x: bv64): bv64 {
    x >> 43
  }

  function Tempered4(x: bv64): bv64 {
    x ^ Mixed4(x)
  }

  function Temper(word: bv64): bv64 {
    Tempered4(Tempered3(Tempered2(Tempered1(word))))
  }

  /** The word that seeding puts after `previous`, at index `i`. */
  function SeedStep(previous: bv64, i: nat): bv64
    requires i < NN
  {
    6364136223846793005 * (previous ^ (previous >> 62)) + (i as bv64)
  }

  /** Term `n` of MT19937-64 from `seed`: 312 seeded words, then the recurrence. No array, no blocks. */
  function State(seed: bv64, n: nat): bv64 {
    if n == 0 then seed
    else if n < NN then SeedStep(State(seed, n - 1), n)
    else Twist(State(seed, n - NN), State(seed, n - NN + 1), State(seed, n - NN + MM))
  }

  /** Output number `n` after seeding: the tempering of term n + 312. */
  function Output(seed: bv64, n: nat): bv64 {
    Temper(State(seed, n + NN))
  }

  lemma Recurrence(seed: bv64, k: nat)
    ensures State(seed, k + NN) == Twist(State(seed, k), State(seed, k + 1), State(seed, k + MM))
  {
  }

  /** Place `i` of two windows on the recurrence holds the same word. */
  predicate Alike(a: bv64, m: nat, b: bv64, n: nat, i: nat) {
    State(a, m + i) == State(b, n + i)
  }

  /** 312 consecutive state words determine all later ones, whatever the seed and wherever they stand. */
  lemma {:induction false} WindowDeterminesFuture(a: bv64, m: nat, b: bv64, n: nat, k: nat)
    requires forall i: nat :: i < NN ==> Alike(a, m, b, n, i)
    ensures Alike(a, m, b, n, k)
  {
    hide SeedStep, Twist, State;
    if k >= NN {
      var j := k - NN;
      WindowDeterminesFuture(a, m, b, n, j);
      WindowDeterminesFuture(a, m, b, n, j + 1);
      WindowDeterminesFuture(a, m, b, n, j + MM);
      Recurrence(a, m + j);
      Recurrence(b, n + j);
      assert m + j + 1 == m + (j + 1) && m + j + MM == m + (j + MM) && m + j + NN == m + k;
      assert n + j + 1 == n + (j + 1) && n + j + MM == n + (j + MM) && n + j + NN == n + k;
    }
  }

  // ----- Tempering loses nothing -----

  /** What differs in two results of the same exclusive or is what differs in what was mixed in. */
  lemma Moved(x: bv64, y: bv64, a: bv64, b: bv64)
    requires x ^ a == y ^ b
    ensures x ^ y == a ^ b
  {
  }

  lemma SameIfNoDifference(x: bv64, y: bv64)
    requires x ^ y == 0
    ensures x == y
  {
  }

  lemma Linear1(x: bv64, y: bv64)
    ensures Mixed1(x) ^ Mixed1(y) == Mixed1(x ^ y)
  {
  }

  lemma Vanishes1(d: bv64)
    requires d == Mixed1(d)
    ensures d == 0
  {
  }

  lemma Injective1(x: bv64, y: bv64)
    requires Tempered1(x) == Tempered1(y)
    ensures x == y
  {
    hide Mixed1;
    Moved(x, y, Mixed1(x), Mixed1(y));
    Linear1(x, y);
    Vanishes1(x ^ y);
    SameIfNoDifference(x, y);
  }

  lemma Linear2(x: bv64, y: bv64)
    ensures Mixed2(x) ^ Mixed2(y) == Mixed2(x ^ y)
  {
  }

  lemma Vanishes2(d: bv64)
    requires d == Mixed2(d)
    ensures d == 0
  {
  }

  lemma Injective2(x: bv64, y: bv64)
    requires Tempered2(x) == Tempered2(y)
    ensures x == y
  {
    hide Mixed2;
    Moved(x, y, Mixed2(x), Mixed2(y));
    Linear2(x, y);
    Vanishes2(x ^ y);
    SameIfNoDifference(x, y);
  }

  lemma Linear3(x: bv64, y: bv64)
    ensures Mixed3(x) ^ Mixed3(y) == Mixed3(x ^ y)
  {
  }

  lemma Vanishes3(d: bv64)
    requires d == Mixed3(d)
    ensures d == 0
  {
  }

  lemma Injective3(x: bv64, y: bv64)
    requires Tempered3(x) == Tempered3(y)
    ensures x == y
  {
    hide Mixed3;
    Moved(x, y, Mixed3(x), Mixed3(y));
    Linear3(x, y);
    Vanishes3(x ^ y);
    SameIfNoDifference(x, y);
  }

  lemma Linear4(x: bv64, y: bv64)
    ensures Mixed4(x) ^ Mixed4(y) == Mixed4(x ^ y)
  {
  }

  lemma Vanishes4(d: bv64)
    requires d == Mixed4(d)
    ensures d == 0
  {
  }

  lemma Injective4(x: bv64, y: bv64)
    requires Tempered4(x) == Tempered4(y)
    ensures x == y
  {
    hide Mixed4;
    Moved(x, y, Mixed4(x), Mixed4(y));
    Linear4(x, y);
    Vanishes4(x ^ y);
    SameIfNoDifference(x, y);
  }

  /** The state word behind an output is determined by it. */
  lemma TemperInjective(x: bv64, y: bv64)
    requires Temper(x) == Temper(y)
    ensures x == y
  {
    hide Tempered1, Tempered2, Tempered3, Tempered4;
    Injective4(Tempered3(Tempered2(Tempered1(x))), Tempered3(Tempered2(Tempered1(y))));
    Injective3(Tempered2(Tempered1(x)), Tempered2(Tempered1(y)));
    Injective2(Tempered1(x), Tempered1(y));
    Injective1(x, y);
  }

  predicate SameOutput(a: bv64, m: nat, b: bv64, n: nat, i: nat) {
    Output(a, m + i) == Output(b, n + i)
  }

  /** Two generators that agree on 312 consecutive outputs agree for ever after. */
  lemma OutputsDetermineFuture(a: bv64, m: nat, b: bv64, n: nat, k: nat)
    requires forall i: nat :: i < NN ==> SameOutput(a, m, b, n, i)
    ensures SameOutput(a, m, b, n, k)
  {
    hide SeedStep, Twist, State, Temper;
    var m', n' := m + NN, n + NN;
    forall i: nat | i < NN
      ensures Alike(a, m', b, n', i)
    {
      assert SameOutput(a, m, b, n, i);
      assert m + i + NN == m + NN + i && n + i + NN == n + NN + i;
      TemperInjective(State(a, m + NN + i), State(b, n + NN + i));
    }
    WindowDeterminesFuture(a, m + NN, b, n + NN, k);
    assert Alike(a, m + NN, b, n + NN, k);
    assert m + k + NN == m + NN + k && n + k + NN == n + NN + k;
  }

  class Rng {
    const mt: array<bv64>
    var mti: nat

    ghost var seed: bv64   // the seed in force
    ghost var drawn: nat   // how many words have been drawn since seeding

    ghost var block: nat   // the recurrence index of the word in mt[0]

    ghost predicate Valid()
      reads this, mt
    {
      && mt.Length == NN
      && (mti <= NN || (mti == NN + 1 && seed == DEFAULT_SEED && drawn == 0))
      && (mti <= NN ==>
            && drawn + NN == block + mti
            && forall i :: 0 <= i < NN ==> mt[i] == State(seed, block + i))
    }

    /** A generator that was never seeded: `mti` holds the source's marker value 313. */
    constructor Unseeded()
      ensures Valid() && fresh(mt) && seed == DEFAULT_SEED && drawn == 0
    {
      mt := new bv64[NN];
      mti := NN + 1;
      seed, drawn, block := DEFAULT_SEED, 0, 0;
    }

    method Reset(newSeed: bv64)
      requires mt.Length == NN
      modifies this, mt
      ensures Valid() && seed == newSeed && drawn == 0 && mti == NN
    {
      hide SeedStep, Twist;
      mt[0] := newSeed;
      for i := 1 to NN
        invariant forall j :: 0 <= j < i ==> mt[j] == State(newSeed, j)
      {
        mt[i] := SeedStep(mt[i - 1], i);
      }
      mti := NN;
      seed, drawn, block := newSeed, 0, 0;
    }

    /** Rewrites the whole block in place; every word moves on by 312 terms. */
    method Regenerate(ghost s: bv64, ghost base: nat)
      requires mt.Length == NN
      requires forall i :: 0 <= i < NN ==> mt[i] == State(s, base + i)
      modifies mt
      ensures forall i :: 0 <= i < NN ==> mt[i] == State(s, base + NN + i)
    {
      hide SeedStep, Twist, State;
      for i := 0 to NN - MM
        invariant forall j :: 0 <= j < i ==> mt[j] == State(s, base + NN + j)
        invariant forall j :: i <= j < NN ==> mt[j] == State(s, base + j)
      {
        Recurrence(s, base + i);
        mt[i] := Twist(mt[i], mt[i + 1], mt[i + MM]);
      }
      for i := NN - MM to NN - 1
        invariant forall j :: 0 <= j < i ==> mt[j] == State(s, base + NN + j)
        invariant forall j :: i <= j < NN ==> mt[j] == State(s, base + j)
      {
        Recurrence(s, base + i);
        assert State(s, base + i + MM) == State(s, base + NN + (i + MM - NN));
        mt[i] := Twist(mt[i], mt[i + 1], mt[i + MM - NN]);
      }
      Recurrence(s, base + NN - 1);
      assert State(s, base + NN - 1 + 1) == State(s, base + NN + 0);
      assert State(s, base + NN - 1 + MM) == State(s, base + NN + (MM - 1));
      mt[NN - 1] := Twist(mt[NN - 1], mt[0], mt[MM - 1]);
    }

    /** Draws the next word. */
    method Random() returns (x: bv64)
      requires Valid()
      modifies this, mt
      ensures Valid() && seed == old(seed) && drawn == old(drawn) + 1
      ensures x == Output(seed, old(drawn))
    {
      hide SeedStep, Twist, State, Temper;
      if mti >= NN {
        if mti == NN + 1 {
          Reset(DEFAULT_SEED);
        }
        Regenerate(seed, block);
        mti, block := 0, block + NN;
      }
      x := mt[mti];
      mti := mti + 1;
      assert x == State(seed, drawn + NN);
      drawn := drawn + 1;
      x := Temper(x);
    }
  }
}
