/**
The weights that steer autoshrinking (src/theft_autoshrink.c): the chance of dropping requests, and the
mix of the four mutations, adjusted after every shrinking trial in 8-bit arithmetic.
*/
module Weights {
  import opened Bits
  import opened Random
  import opened Draws

  datatype Action = DROP | SHIFT | MASK | SWAP | SUB

  const TWO_EVENLY: nat := 0x80
  const FOUR_EVENLY: nat := 0x40
  const MODEL_MIN: nat := 0x08
  const MODEL_MAX: nat := 0x80
  const DROPS_MIN: nat := 0x10
  const DROPS_MAX: nat := 0xA0

  /** One weight for each action, each a uint8_t. */
  datatype Mix = Mix(drop: nat, shift: nat, mask: nat, swap: nat, sub: nat)

  const INITIAL: Mix := Mix(TWO_EVENLY, FOUR_EVENLY, FOUR_EVENLY, FOUR_EVENLY - 0x10, FOUR_EVENLY)

  predicate InRange(m: Mix) {
    && DROPS_MIN <= m.drop <= DROPS_MAX
    && MODEL_MIN <= m.shift <= MODEL_MAX && MODEL_MIN <= m.mask <= MODEL_MAX
    && MODEL_MIN <= m.swap <= MODEL_MAX && MODEL_MIN <= m.sub <= MODEL_MAX
  }

  function WeightOf(m: Mix, a: Action): nat {
    match a
    case DROP => m.drop
    case SHIFT => m.shift
    case MASK => m.mask
    case SWAP => m.swap
    case SUB => m.sub
  }

  function Lowest(a: Action): nat {
    if a == DROP then 0x10 else 0x08
  }

  function Highest(a: Action): nat {
    if a == DROP then 0xA0 else 0x80
  }

  /** At first a step drops on half of its draws, and swaps less often than it shifts, masks or subtracts. */
  lemma FirstOdds()
    ensures 2 * INITIAL.drop == 256 && INITIAL.swap == 48 && INITIAL.shift == INITIAL.mask == INITIAL.sub == 64
  {
  }

  // ----- Adjusting -----

  function Clamp(v: int, min: nat, max: nat): nat
    requires min <= max
  {
    if v > max then max else if v < min then min else v
  }

  /** adjust, for one weight: uint8_t arithmetic, with 0 meaning "no new value". */
  function Adjusted(weight: nat, isSet: bool, tried: bool, min: nat, max: nat, adjustment: int): nat
    requires min <= max
  {
    var nv := if isSet then (weight + adjustment) % 256
              else if tried && adjustment > 0 then (weight - adjustment) % 256
              else 0;
    if nv != 0 then Clamp(nv, min, max) else weight
  }

  /** How an adjustment moves a weight, over the integers. */
  function Move(isSet: bool, tried: bool, adjustment: int): int {
    if isSet then adjustment else if tried && adjustment > 0 then -adjustment else 0
  }

  /**
  For a weight in range and the adjustments the source makes, 8-bit arithmetic never wraps and the "no new value"
  marker never gets in the way: the result is the integer move, clamped.
  */
  lemma AdjustedIsClampedMove(weight: nat, isSet: bool, tried: bool, min: nat, max: nat, adjustment: int)
    requires MODEL_MIN <= min <= weight <= max <= DROPS_MAX && -8 <= adjustment <= 8
    ensures Adjusted(weight, isSet, tried, min, max, adjustment)
      == Clamp(weight + Move(isSet, tried, adjustment), min, max)
  {
    assert 0 <= weight + adjustment < 256 && 0 <= weight - adjustment < 256;
  }

  /** A trial that still fails rewards what the step did, any other outcome punishes it. */
  function Signed(failed: bool, adjustment: int): int {
    if failed then adjustment else -adjustment
  }

  /** What a shrinking step did, and how its trial ended: all that an update depends on. */
  datatype Event = Event(curSet: set<Action>, curTried: set<Action>, failed: bool, adjustment: nat)

  /** theft_autoshrink_update_model, as a function. */
  function Updated(m: Mix, e: Event): Mix {
    if e.curSet == {} then m else
      var adj := Signed(e.failed, e.adjustment);
      Mix(Adjusted(m.drop, DROP in e.curSet, DROP in e.curTried, DROPS_MIN, DROPS_MAX, adj),
          Adjusted(m.shift, SHIFT in e.curSet, SHIFT in e.curTried, MODEL_MIN, MODEL_MAX, adj),
          Adjusted(m.mask, MASK in e.curSet, MASK in e.curTried, MODEL_MIN, MODEL_MAX, adj),
          Adjusted(m.swap, SWAP in e.curSet, SWAP in e.curTried, MODEL_MIN, MODEL_MAX, adj),
          Adjusted(m.sub, SUB in e.curSet, SUB in e.curTried, MODEL_MIN, MODEL_MAX, adj))
  }

  /** The same without bytes and markers: each weight moves by an integer and is clamped. */
  function Steered(m: Mix, e: Event): (r: Mix)
    ensures InRange(r)
  {
    var adj := Signed(e.failed, e.adjustment);
    Mix(Clamp(m.drop + Move(DROP in e.curSet, DROP in e.curTried, adj), DROPS_MIN, DROPS_MAX),
        Clamp(m.shift + Move(SHIFT in e.curSet, SHIFT in e.curTried, adj), MODEL_MIN, MODEL_MAX),
        Clamp(m.mask + Move(MASK in e.curSet, MASK in e.curTried, adj), MODEL_MIN, MODEL_MAX),
        Clamp(m.swap + Move(SWAP in e.curSet, SWAP in e.curTried, adj), MODEL_MIN, MODEL_MAX),
        Clamp(m.sub + Move(SUB in e.curSet, SUB in e.curTried, adj), MODEL_MIN, MODEL_MAX))
  }

  /** Over weights in range, an update is that. */
  lemma UpdateSteers(m: Mix, e: Event)
    requires InRange(m) && e.curSet != {} && (e.adjustment == 3 || e.adjustment == 8)
    ensures Updated(m, e) == Steered(m, e)
  {
    hide Adjusted, Move, Clamp;
    var adj := Signed(e.failed, e.adjustment);
    AdjustedIsClampedMove(m.drop, DROP in e.curSet, DROP in e.curTried, DROPS_MIN, DROPS_MAX, adj);
    AdjustedIsClampedMove(m.shift, SHIFT in e.curSet, SHIFT in e.curTried, MODEL_MIN, MODEL_MAX, adj);
    AdjustedIsClampedMove(m.mask, MASK in e.curSet, MASK in e.curTried, MODEL_MIN, MODEL_MAX, adj);
    AdjustedIsClampedMove(m.swap, SWAP in e.curSet, SWAP in e.curTried, MODEL_MIN, MODEL_MAX, adj);
    AdjustedIsClampedMove(m.sub, SUB in e.curSet, SUB in e.curTried, MODEL_MIN, MODEL_MAX, adj);
  }

  function UpdatedAll(m: Mix, events: seq<Event>): Mix {
    if events == [] then m else Updated(UpdatedAll(m, events[..|events| - 1]), events[|events| - 1])
  }

  /**
  What an update does to the weight of an action. One that did something gains by a failing result and loses by any other, as far as its
  range goes; one that was tried and did nothing loses by a failing result; all others stay.
  */
  lemma UpdateMeans(m: Mix, e: Event, a: Action)
    requires InRange(m) && e.curSet != {} && (e.adjustment == 3 || e.adjustment == 8)
    ensures var was, now, n := WeightOf(m, a), WeightOf(Updated(m, e), a), e.adjustment;
      && (a in e.curSet && e.failed ==> now == if was + n > Highest(a) then Highest(a) else was + n)
      && (a in e.curSet && !e.failed ==> now == if was < Lowest(a) + n then Lowest(a) else was - n)
      && (a !in e.curSet && a in e.curTried && e.failed ==> now == if was < Lowest(a) + n then Lowest(a) else was - n)
      && (a !in e.curSet && (a !in e.curTried || !e.failed) ==> now == was)
  {
    hide Updated;
    UpdateSteers(m, e);
  }

  /** The source only ever adjusts by 3 or by 8. */
  predicate SourceEvents(events: seq<Event>) {
    forall i :: 0 <= i < |events| ==> events[i].adjustment == 3 || events[i].adjustment == 8
  }

  /** Over every run after initialization, all weights stay in range. */
  lemma {:induction false} WeightsStayInRange(events: seq<Event>)
    requires SourceEvents(events)
    ensures InRange(UpdatedAll(INITIAL, events))
    ensures forall a: Action :: Lowest(a) <= WeightOf(UpdatedAll(INITIAL, events), a) <= Highest(a)
  {
    if events != [] {
      WeightsStayInRange(events[..|events| - 1]);
      UpdateKeepsRange(UpdatedAll(INITIAL, events[..|events| - 1]), events[|events| - 1]);
    }
  }

  lemma UpdateKeepsRange(m: Mix, e: Event)
    requires InRange(m) && (e.adjustment == 3 || e.adjustment == 8)
    ensures InRange(Updated(m, e))
  {
    hide Updated, Steered;
    if e.curSet != {} { UpdateSteers(m, e); } else { assert Updated(m, e) == m by { Unset(m, e); } }
  }

  lemma Unset(m: Mix, e: Event)
    requires e.curSet == {}
    ensures Updated(m, e) == m
  {
  }

  // ----- Sampling -----

  /** Where the bands of the four mutations end. */
  function Ceiling(m: Mix): nat {
    m.shift + m.mask + m.swap + m.sub
  }

  /** How many bits the sampler draws: at least 7, and enough for every band. */
  function SampleBits(ceiling: nat, bits: nat): nat
    decreases if Pow2(bits) < ceiling then ceiling - Pow2(bits) else 0
  {
    if Pow2(bits) < ceiling then SampleBits(ceiling, bits + 1) else bits
  }

  /** The action whose band holds `draw`. */
  function Band(m: Mix, draw: nat): Action
    requires draw < Ceiling(m)
  {
    if draw < m.shift then SHIFT
    else if draw < m.shift + m.mask then MASK
    else if draw < m.shift + m.mask + m.swap then SWAP
    else SUB
  }

  /** With weights in range the sampler needs 7 to 9 bits, and at least a quarter of the possible draws are accepted. */
  lemma SamplerBounds(m: Mix)
    requires InRange(m)
    ensures 7 <= SampleBits(Ceiling(m), 7) <= 9
    ensures Pow2(SampleBits(Ceiling(m), 7) - 2) <= Ceiling(m) <= Pow2(SampleBits(Ceiling(m), 7))
  {
    Powers();
    var c := Ceiling(m);
    assert SampleBits(c, 9) == 9;
    assert SampleBits(c, 8) == if 256 < c then 9 else 8;
    assert SampleBits(c, 7) == if 128 < c then SampleBits(c, 8) else 7;
  }

  lemma Powers()
    ensures Pow2(5) == 32 && Pow2(6) == 64 && Pow2(7) == 128 && Pow2(8) == 256 && Pow2(9) == 512
  {
    assert Pow2(3) == 8;
    assert Pow2(5) == 32;
    assert Pow2(7) == 128;
  }

  /** Every mutation has a band of its own: some draw selects it. */
  lemma EveryActionReachable(m: Mix, action: Action) returns (draw: nat)
    requires InRange(m) && action != DROP
    ensures draw < Ceiling(m) && Band(m, draw) == action
  {
    draw := if action == SHIFT then 0
            else if action == MASK then m.shift
            else if action == SWAP then m.shift + m.mask
            else m.shift + m.mask + m.swap;
  }

  /** The draws that select an action. */
  ghost function BandOf(m: Mix, a: Action): set<nat> {
    set draw: nat | draw < Ceiling(m) && Band(m, draw) == a
  }

  /** There are as many of them as its weight, and none that drops. */
  lemma BandSizes(m: Mix, a: Action)
    ensures |BandOf(m, a)| == if a == DROP then 0 else WeightOf(m, a)
  {
    var from := if a == SHIFT then 0 else if a == MASK then m.shift else if a == SWAP then m.shift + m.mask
                else m.shift + m.mask + m.swap;
    if a == DROP {
      assert BandOf(m, a) == {};
    } else {
      forall d: nat ensures d in BandOf(m, a) <==> d in Range(from, WeightOf(m, a)) {
        if d < Ceiling(m) { assert Band(m, d) == a <==> InRun(d, from, WeightOf(m, a)); }
      }
      assert BandOf(m, a) == Range(from, WeightOf(m, a));
      RangeHas(from, WeightOf(m, a));
    }
  }

  predicate InRun(i: nat, from: nat, n: nat) {
    from <= i < from + n
  }

  ghost function Range(from: nat, n: nat): set<nat> {
    set i: nat | i < from + n && InRun(i, from, n)
  }

  lemma {:induction false} RangeHas(from: nat, n: nat)
    ensures |Range(from, n)| == n
  {
    if n > 0 {
      RangeHas(from, n - 1);
      forall i: nat ensures i in Range(from, n) <==> i in Range(from, n - 1) || i == from + n - 1 {
        assert InRun(i, from, n) <==> InRun(i, from, n - 1) || i == from + n - 1;
      }
      assert Range(from, n) == Range(from, n - 1) + {from + n - 1};
    } else {
      assert Range(from, n) == {};
    }
  }

  /** The position of draw number `k` of a row of `n`-bit draws. */
  function Nth(pos: nat, n: nat, k: nat): nat
    decreases k
  {
    if k == 0 then pos else Nth(pos + n, n, k - 1)
  }

  /**
  The draw stream does not withhold small numbers for ever: this is what the source relies on to leave its
  sampling loop, and it is asked of the generator, not proved of it.
  */
  ghost predicate Fair(s: Stream) {
    forall pos: nat, n: nat :: 7 <= n <= 9 ==> EventuallySmall(s, pos, n)
  }

  ghost predicate EventuallySmall(s: Stream, pos: nat, n: nat)
    requires n >= 2
  {
    exists k: nat :: DrawAt(s, Nth(pos, n, k), n) < Pow2(n - 2)
  }

  /** The `k` draws from `pos` on all miss every band. */
  predicate AllRejected(s: Stream, pos: nat, n: nat, ceiling: nat, k: nat)
    decreases k
  {
    k == 0 || (DrawAt(s, pos, n) >= ceiling && AllRejected(s, pos + n, n, ceiling, k - 1))
  }

  lemma {:induction false} RejectOne(s: Stream, pos: nat, n: nat, ceiling: nat, k: nat)
    requires AllRejected(s, pos, n, ceiling, k) && DrawAt(s, Nth(pos, n, k), n) >= ceiling
    ensures AllRejected(s, pos, n, ceiling, k + 1) && Nth(pos, n, k + 1) == Nth(pos, n, k) + n
    decreases k
  {
    if k > 0 { RejectOne(s, pos + n, n, ceiling, k - 1); }
  }

  lemma {:induction false} RejectedThere(s: Stream, pos: nat, n: nat, ceiling: nat, k: nat, j: nat)
    requires AllRejected(s, pos, n, ceiling, k) && j < k
    ensures DrawAt(s, Nth(pos, n, j), n) >= ceiling
    decreases k
  {
    if j > 0 { RejectedThere(s, pos + n, n, ceiling, k - 1, j - 1); }
  }

  /** `action` is the band hit by the first draw that hits one, after `rejected` draws that do not. */
  predicate Sampled(m: Mix, s: Stream, pos: nat, action: Action, rejected: nat) {
    var n := SampleBits(Ceiling(m), 7);
    && AllRejected(s, pos, n, Ceiling(m), rejected)
    && DrawAt(s, Nth(pos, n, rejected), n) < Ceiling(m)
    && action == Band(m, DrawAt(s, Nth(pos, n, rejected), n))
  }

  function AfterSample(m: Mix, pos: nat, rejected: nat): nat {
    Nth(pos, SampleBits(Ceiling(m), 7), rejected) + SampleBits(Ceiling(m), 7)
  }

  /** The sample is determined by the stream. */
  lemma SampleIsUnique(m: Mix, s: Stream, pos: nat, action1: Action, rejected1: nat, action2: Action, rejected2: nat)
    requires Sampled(m, s, pos, action1, rejected1) && Sampled(m, s, pos, action2, rejected2)
    ensures action1 == action2 && rejected1 == rejected2
  {
    var n := SampleBits(Ceiling(m), 7);
    if rejected1 < rejected2 {
      RejectedThere(s, pos, n, Ceiling(m), rejected2, rejected1);
    } else if rejected2 < rejected1 {
      RejectedThere(s, pos, n, Ceiling(m), rejected1, rejected2);
    }
  }

  class Model {
    var curTried: set<Action>
    var curSet: set<Action>
    var weights: Mix

    /** As allocated: all zero, so the first shrink initializes it. */
    constructor ()
      ensures weights == Mix(0, 0, 0, 0, 0) && curTried == {} && curSet == {}
    {
      curTried, curSet, weights := {}, {}, Mix(0, 0, 0, 0, 0);
    }

    /** The start of a shrinking step: forget the last one, and initialize on first use. */
    method Begin()
      requires weights == Mix(0, 0, 0, 0, 0) || InRange(weights)
      modifies this
      ensures curTried == {} && curSet == {} && InRange(weights)
      ensures weights == if old(weights.drop) == 0 then INITIAL else old(weights)
    {
      curTried, curSet := {}, {};
      if weights.drop == 0 {
        weights := INITIAL;
      }
    }

    /** theft_autoshrink_update_model: weights in range move by an integer and stay in range; with nothing set they stay as they are. */
    method Update(failed: bool, adjustment: nat)
      requires (adjustment == 3 || adjustment == 8) && (curSet == {} || InRange(weights))
      modifies `weights
      ensures weights == Updated(old(weights), Event(curSet, curTried, failed, adjustment))
      ensures old(InRange(weights)) ==>
        InRange(weights) && weights == if curSet == {} then old(weights) else Steered(old(weights), Event(curSet, curTried, failed, adjustment))
    {
      if curSet == {} {
        return;
      }
      UpdateSteers(weights, Event(curSet, curTried, failed, adjustment));
      var adj := Signed(failed, adjustment);
      weights := weights.(drop := Adjusted(weights.drop, DROP in curSet, DROP in curTried, DROPS_MIN, DROPS_MAX, adj));
      weights := weights.(shift := Adjusted(weights.shift, SHIFT in curSet, SHIFT in curTried, MODEL_MIN, MODEL_MAX, adj));
      weights := weights.(mask := Adjusted(weights.mask, MASK in curSet, MASK in curTried, MODEL_MIN, MODEL_MAX, adj));
      weights := weights.(swap := Adjusted(weights.swap, SWAP in curSet, SWAP in curTried, MODEL_MIN, MODEL_MAX, adj));
      weights := weights.(sub := Adjusted(weights.sub, SUB in curSet, SUB in curTried, MODEL_MIN, MODEL_MAX, adj));
    }

    /** should_drop: the odds are limited when there are only a few requests. */
    method ShouldDrop(prng: Prng, requestCount: nat, ghost s: Stream, ghost pos: nat) returns (drop: bool)
      requires Drawing(prng, s, pos)
      modifies prng`buf, prng`bitsAvailable, prng.rng, prng.rng.mt
      ensures Drawing(prng, s, pos + 8) && prng.rng.seed == old(prng.rng.seed)
      ensures drop <==> DrawAt(s, pos, 8) < weights.drop && DrawAt(s, pos, 8) < 8 * requestCount
    {
      hide Drawing;
      var weight := weights.drop;
      if weight > 8 * requestCount {
        weight := 8 * requestCount;
      }
      var draw := Draw(prng, 8, s, pos);
      drop := draw < weight;
    }

    /** get_weighted_mutation: draws until one falls in a band, and returns that band's action. */
    method GetWeightedMutation(prng: Prng, ghost s: Stream, ghost pos: nat) returns (action: Action, ghost rejected: nat)
      requires InRange(weights) && Drawing(prng, s, pos) && Fair(s)
      modifies prng`buf, prng`bitsAvailable, prng.rng, prng.rng.mt
      ensures prng.rng.seed == old(prng.rng.seed)
      ensures Sampled(weights, s, pos, action, rejected) && action != DROP
      ensures Drawing(prng, s, AfterSample(weights, pos, rejected))
    {
      hide Drawing, DrawAt, Pow2, AllRejected, SampleBits;
      var shift := weights.shift;
      var mask := shift + weights.mask;
      var swap := mask + weights.swap;
      var sub := swap + weights.sub;
      SamplerBounds(weights);
      var n := CountSampleBits(sub);
      assert EventuallySmall(s, pos, n);
      ghost var last: nat :| DrawAt(s, Nth(pos, n, last), n) < Pow2(n - 2);
      rejected := 0;
      NoneRejected(s, pos, n, sub);
      while true
        invariant AllRejected(s, pos, n, sub, rejected) && rejected <= last
        invariant Drawing(prng, s, Nth(pos, n, rejected)) && prng.rng.seed == old(prng.rng.seed)
        decreases last - rejected
      {
        var bits := Draw(prng, n, s, Nth(pos, n, rejected));
        if bits < shift {
          return SHIFT, rejected;
        } else if bits < mask {
          return MASK, rejected;
        } else if bits < swap {
          return SWAP, rejected;
        } else if bits < sub {
          return SUB, rejected;
        }
        RejectOne(s, pos, n, sub, rejected);
        assert rejected != last;
        rejected := rejected + 1;
      }
    }

    /** The sampler's bit count: 7, or as many more as the bands need. */
    method CountSampleBits(sub: nat) returns (n: nat)
      ensures n == SampleBits(sub, 7) && n >= 7
    {
      n := 7;
      while Pow2(n) < sub
        invariant 7 <= n && SampleBits(sub, n) == SampleBits(sub, 7)
        decreases if Pow2(n) < sub then sub - Pow2(n) else 0
      {
        n := n + 1;
      }
    }
  }

  lemma NoneRejected(s: Stream, pos: nat, n: nat, ceiling: nat)
    ensures AllRejected(s, pos, n, ceiling, 0)
  {
  }
}
