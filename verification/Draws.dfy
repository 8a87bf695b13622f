/**
Random draws made while shrinking: def_autoshrink_prng (src/theft_autoshrink.c) takes them from the
runner's generator, never from a pool. The draws of a shrinking step are a function of one bit stream.
*/
module Draws {
  import opened Bits
  import opened Random

  /** The number drawn from `n` bits of `s` at `pos`. */
  function DrawAt(s: Stream, pos: nat, n: nat): (r: nat) {
    ToNat(Slice(s, pos, n))
  }

  lemma SmallRemainder(a: nat, d: nat)
    requires a < d
    ensures a % d == a
  {
  }

  lemma DrawBound(s: Stream, pos: nat, n: nat)
    ensures DrawAt(s, pos, n) < Pow2(n)
  {
    ToNatBound(Slice(s, pos, n));
  }

  /** The generator has delivered the first `pos` bits of `s`, and no pool is in use. */
  ghost predicate Drawing(prng: Prng, s: Stream, pos: nat)
    reads prng, prng.rng, prng.rng.mt
  {
    prng.bitPool == null && prng.Valid() && prng.Next(s, pos)
  }

  method DrawBits(prng: Prng, n: nat, ghost s: Stream, ghost pos: nat) returns (res: Word)
    requires n <= 64 && Drawing(prng, s, pos)
    modifies prng`buf, prng`bitsAvailable, prng.rng, prng.rng.mt
    ensures Drawing(prng, s, pos + n) && prng.rng.seed == old(prng.rng.seed)
    ensures res == Slice(s, pos, n) + Zeros(64 - n)
  {
    hide Prng.Ahead;
    res := prng.RandomBits(n, s, pos);
    var wanted := Slice(s, pos, n) + Zeros(64 - n);
    assert forall j :: 0 <= j < 64 ==> res[j] == (j < n && Later(s, pos, j));
    assert forall j :: 0 <= j < n ==> wanted[j] == s(pos + j);
    assert res == wanted;
  }

  method Draw(prng: Prng, n: nat, ghost s: Stream, ghost pos: nat) returns (res: nat)
    requires n <= 64 && Drawing(prng, s, pos)
    modifies prng`buf, prng`bitsAvailable, prng.rng, prng.rng.mt
    ensures Drawing(prng, s, pos + n) && prng.rng.seed == old(prng.rng.seed)
    ensures res == DrawAt(s, pos, n)
  {
    var word := DrawBits(prng, n, s, pos);
    ToNatPad(Slice(s, pos, n), 64 - n);
    res := ToNat(word);
  }
}
