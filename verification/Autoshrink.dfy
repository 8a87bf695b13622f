/**
theft_autoshrink_shrink (src/theft_autoshrink.c): one shrinking step. It copies the pool with
requests dropped or bits mutated, truncates the copy, and builds a new instance from it.
*/
module Autoshrink {
  import opened Bits
  import opened BitPool
  import opened PoolEdit
  import opened Random
  import opened Draws
  import opened Weights
  import opened Alloc
  import opened Drop
  import opened Mutate

  const DEF_MAX_FAILED_SHRINKS: nat := 100
  const DEF_DROP_THRESHOLD: nat := 0
  const DEF_DROP_BITS: nat := 5

  datatype AllocResult<T> = AllocOk(instance: T) | AllocSkip | AllocError

  datatype ShrinkResult<T> = ShrinkOk(instance: T, pool: BitPool) | ShrinkDeadEnd | NoMoreTactics | ShrinkError

  /** The stream of a copy with requests dropped: the kept bits, then zeroes. */
  function DroppedStream(kept: seq<bool>): Stream {
    (i: nat) => i < |kept| && kept[i]
  }

  /** How a step decided, and what it put in the copy. */
  datatype Step = DropStep(mask: seq<bool>) | MutateStep(start: seq<bv8>, tries: seq<Try>)

  /** The half of the unconsumed bits that a mutated copy keeps still ends past the consumed ones. */
  function MutatedLimit(consumed: nat, filled: nat, limit: nat): nat
    requires consumed <= filled
  {
    Least(consumed + (filled - consumed) / 2, limit)
  }

  /**
  Everything a step derives from an original and from the draw stream: the bits the callback is replayed on. The
  model `m` holds the weights in force, `bytes`, `filled`, `limit` and `requests` describe the original.
  */
  ghost predicate Derives(step: Step, child: Stream, m: Mix, s: Stream, pos: nat, bytes: seq<bv8>, filled: nat, limit: nat,
                          requests: seq<nat>)
    requires AllPositive(requests) && Sum(requests) <= filled
  {
    var drop := DrawAt(s, pos, 8) < m.drop && DrawAt(s, pos, 8) < 8 * |requests|;
    match step
    case DropStep(mask) =>
      && drop && mask == DropPlan(s, pos + 8, requests, DEF_DROP_BITS, DEF_DROP_THRESHOLD).mask
      && forall i: nat :: child(i) == DroppedStream(Keep(Slice(BitsOf(bytes), 0, |mask|), mask))(i)
    case MutateStep(start, tries) =>
      && !drop && MutationPass(m, requests, s, pos + 8, bytes, filled, start, tries)
      && forall i: nat ::
           child(i) == (i < MutatedLimit(Sum(requests), filled, limit) && PoolBit(BytesAfter(start, tries), i))
  }

  /** The actions a step notes as tried in the model. */
  function NotesTried(step: Step, requests: seq<nat>): set<Action> {
    if step.DropStep? then {} else TriedBy(requests, step.tries)
  }

  /** The actions it notes as having done something. */
  function NotesSet(step: Step): set<Action> {
    if step.DropStep? then {DROP} else SetBy(step.tries)
  }

  /** A drop leaves a request out on one draw of 32: 5 bits, and only a 0 will do. */
  lemma DropsOneIn32(step: Step, child: Stream, m: Mix, s: Stream, pos: nat, bytes: seq<bv8>, filled: nat, limit: nat, requests: seq<nat>)
    requires AllPositive(requests) && Sum(requests) <= filled
    requires Derives(step, child, m, s, pos, bytes, filled, limit, requests) && step.DropStep?
    ensures step.mask == DropPlan(s, pos + 8, requests, 5, 0).mask
  {
  }

  /** The weights a step works with: those of the first step are set then. */
  function InForce(weights: Mix): Mix {
    if weights.drop == 0 then INITIAL else weights
  }

  /** A pool that a shrinking step may start from, and whose buffer is not the generator's. */
  ghost predicate Shrinkable(prng: Prng, orig: BitPool)
    reads orig, orig.bits
  {
    orig.Valid() && |orig.requests| <= Pow2(64) && prng.rng.mt != orig.bits as object
  }

  /** A fresh copy for a shrinking step: nothing in it yet, and room for all of the original. */
  ghost predicate FreshCopy(prng: Prng, orig: BitPool, copy: BitPool)
    reads orig, copy, copy.bits
  {
    && copy.WellFormed() && orig != copy && orig.bits != copy.bits && prng.rng.mt != copy.bits as object
    && copy.consumed == 0 && copy.requests == [] && copy.index == None
    && orig.bitsFilled <= copy.bitsCeil && copy.limit == orig.limit && ZeroFrom(copy.bits[..], 0)
  }

  /** Fills a fresh copy by dropping requests. */
  method DropInto(prng: Prng, ghost m: Mix, orig: BitPool, copy: BitPool, ghost s: Stream, ghost pos: nat)
    returns (ghost step: Step, ghost pos': nat)
    requires Drawing(prng, s, pos + 8) && Shrinkable(prng, orig) && FreshCopy(prng, orig, copy)
    requires DrawAt(s, pos, 8) < m.drop && DrawAt(s, pos, 8) < 8 * |orig.requests|
    modifies prng`buf, prng`bitsAvailable, prng.rng, prng.rng.mt, copy`bitsFilled, copy.bits
    ensures Drawing(prng, s, pos') && prng.rng.seed == old(prng.rng.seed) && copy.WellFormed()
    ensures copy.bitsFilled <= orig.consumed && ZeroFrom(copy.bits[..], copy.bitsFilled)
    ensures Derives(step, ZeroExtended(copy.bits[..], copy.limit), m, s, pos,
      orig.bits[..], orig.bitsFilled, orig.limit, orig.requests)
    ensures step.DropStep?
  {
    hide PoolBit, Drawing, DrawAt, PlanFor, Holds;
    RefersToZero(copy.bits[..]);
    DropFromBitPool(prng, orig, copy, DEF_DROP_BITS, DEF_DROP_THRESHOLD, s, pos + 8);
    ghost var plan := DropPlan(s, pos + 8, orig.requests, DEF_DROP_BITS, DEF_DROP_THRESHOLD);
    step, pos' := DropStep(plan.mask), plan.pos;
    DroppedIsKept(orig, copy, plan.mask);
  }

  /** Fills a fresh copy by mutating the original's bits. */
  method MutateInto(prng: Prng, model: Model, orig: BitPool, copy: BitPool, ghost s: Stream, ghost pos: nat)
    returns (ghost step: Step, ghost pos': nat)
    requires Drawing(prng, s, pos + 8) && Fair(s) && InRange(model.weights)
    requires Shrinkable(prng, orig) && orig.index.Some? && FreshCopy(prng, orig, copy)
    requires !(DrawAt(s, pos, 8) < model.weights.drop && DrawAt(s, pos, 8) < 8 * |orig.requests|)
    modifies prng`buf, prng`bitsAvailable, prng.rng, prng.rng.mt, model`curTried, model`curSet
    modifies copy`bitsFilled, copy`limit, copy.bits
    ensures Drawing(prng, s, pos') && prng.rng.seed == old(prng.rng.seed) && copy.WellFormed()
    ensures copy.bitsFilled == orig.bitsFilled && ZeroFrom(copy.bits[..], copy.bitsFilled)
    ensures copy.limit == MutatedLimit(orig.consumed, orig.bitsFilled, orig.limit)
    ensures Derives(step, ZeroExtended(copy.bits[..], copy.limit), model.weights, s, pos,
      orig.bits[..], orig.bitsFilled, orig.limit, orig.requests)
    ensures model.curTried == old(model.curTried) + NotesTried(step, orig.requests)
    ensures model.curSet == old(model.curSet) + NotesSet(step)
  {
    hide PoolBit, Drawing, DrawAt, MutationPass, Fair, Linked, NoneRaised, AllSmall, LexLess, LexLessEq, Values, Changes, TriedBy, SetBy;
    ghost var start, tries := MutateBitPool(prng, model, orig, copy, s, pos + 8);
    PassDescends(model.weights, orig.requests, s, pos + 8, orig.bits[..], orig.bitsFilled, start, tries);
    step, pos' := MutateStep(start, tries), PosAfter(pos + 8 + Log2Ceil(|orig.requests|, 5), tries);
  }

  /** Decides between dropping and mutating, and fills the copy. */
  method FillCopy(prng: Prng, model: Model, orig: BitPool, copy: BitPool, ghost s: Stream, ghost pos: nat)
    returns (ghost step: Step, ghost pos': nat)
    requires Drawing(prng, s, pos) && Fair(s) && Shrinkable(prng, orig) && orig.index.Some?
    requires InRange(model.weights) && FreshCopy(prng, orig, copy)
    modifies prng`buf, prng`bitsAvailable, prng.rng, prng.rng.mt, model`curTried, model`curSet
    modifies copy`bitsFilled, copy`limit, copy.bits
    ensures Drawing(prng, s, pos') && prng.rng.seed == old(prng.rng.seed) && copy.WellFormed()
    ensures copy.bitsFilled <= orig.bitsFilled && copy.limit <= orig.limit && ZeroFrom(copy.bits[..], copy.bitsFilled)
    ensures Derives(step, ZeroExtended(copy.bits[..], copy.limit), model.weights, s, pos,
      orig.bits[..], orig.bitsFilled, orig.limit, orig.requests)
    ensures model.curTried == old(model.curTried) + NotesTried(step, orig.requests)
    ensures model.curSet == old(model.curSet) + NotesSet(step)
  {
    hide TriedBy, SetBy, PoolBit, Drawing, DrawAt, Fair, Derives, Sum, InRange, ZeroFrom;
    var drop := model.ShouldDrop(prng, |orig.requests|, s, pos);
    if drop {
      model.curSet := model.curSet + {DROP};
      step, pos' := DropInto(prng, model.weights, orig, copy, s, pos);
    } else {
      step, pos' := MutateInto(prng, model, orig, copy, s, pos);
    }
  }

  /** An empty pool with room for the original, whose request index is in place. */
  method NewCopy(prng: Prng, orig: BitPool) returns (copy: BitPool)
    requires Shrinkable(prng, orig)
    modifies orig`index
    ensures Shrinkable(prng, orig) && orig.index.Some? && fresh(copy) && fresh(copy.bits)
    ensures FreshCopy(prng, orig, copy) && copy.generation == orig.generation + 1
  {
    hide PoolBit, Sum, ZeroFrom, IsIndex, AllPositive;
    BuildIndex(orig);
    copy := new BitPool(orig.bitsFilled, orig.limit);
    ZeroBytesHoldNothing(copy.bits[..]);
    copy.generation := orig.generation + 1;
  }

  /** The part of a step before the callback: the truncated copy, still unread. */
  method MakeCopy(prng: Prng, model: Model, orig: BitPool, ghost s: Stream, ghost pos: nat)
    returns (copy: BitPool, ghost step: Step, ghost child: Stream, ghost pos': nat)
    requires Drawing(prng, s, pos) && Fair(s) && Shrinkable(prng, orig)
    requires model.weights == Mix(0, 0, 0, 0, 0) || InRange(model.weights)
    modifies prng`buf, prng`bitsAvailable, prng.rng, prng.rng.mt, model, orig`index
    ensures Shrinkable(prng, orig) && Drawing(prng, s, pos') && prng.rng.seed == old(prng.rng.seed)
    ensures InRange(model.weights) && model.weights == InForce(old(model.weights))
    ensures Derives(step, child, model.weights, s, pos, orig.bits[..], orig.bitsFilled, orig.limit, orig.requests)
    ensures fresh(copy) && fresh(copy.bits) && copy.WellFormed() && copy.bitsFilled % 8 == 0
    ensures copy.consumed == 0 && copy.requests == [] && copy.index == None
    ensures copy.generation == orig.generation + 1
    ensures copy.limit <= copy.bitsFilled <= orig.bitsFilled && copy.limit <= orig.limit
    ensures forall i: nat :: ZeroExtended(copy.bits[..], copy.limit)(i) == child(i)
    ensures model.curTried == NotesTried(step, orig.requests) && model.curSet == NotesSet(step)
  {
    hide NotesTried, NotesSet, PoolBit, Drawing, DrawAt, Fair, Derives, Sum, InRange, ZeroFrom, IsIndex, AllPositive, ZeroExtended;
    copy := NewCopy(prng, orig);
    model.Begin();
    step, pos' := FillCopy(prng, model, orig, copy, s, pos);
    child := ZeroExtended(copy.bits[..], copy.limit);
    TruncateTrailingZeroBytes(copy);
  }

  /**
  theft_autoshrink_shrink. On success the new pool is a valid shrunk pool no larger than the original, and the new
  instance is what the callback builds from the derived bits. The original keeps all but its cached index.
  */
  method AutoshrinkShrink<T(!new)>(prng: Prng, model: Model, orig: BitPool, tactic: nat, maxFailedShrinks: nat,
                                   cb: Callback<AllocResult<T>>, ghost bound: nat, ghost s: Stream, ghost pos: nat)
    returns (res: ShrinkResult<T>, ghost step: Step, ghost child: Stream, ghost pos': nat)
    requires Drawing(prng, s, pos) && Fair(s) && Ends(cb, bound) && Shrinkable(prng, orig)
    requires model.weights == Mix(0, 0, 0, 0, 0) || InRange(model.weights)
    modifies prng, prng.rng, prng.rng.mt, model, orig`index
    ensures Shrinkable(prng, orig) && Drawing(prng, s, pos') && prng.rng.seed == old(prng.rng.seed)
    ensures tactic >= (if maxFailedShrinks == 0 then DEF_MAX_FAILED_SHRINKS else maxFailedShrinks)
      <==> res == NoMoreTactics
    ensures maxFailedShrinks == 0 ==> (res == NoMoreTactics <==> tactic >= 100)
    ensures res == NoMoreTactics ==> model.weights == old(model.weights)
    ensures !res.NoMoreTactics? ==>
      && InRange(model.weights) && model.weights == InForce(old(model.weights))
      && Derives(step, child, model.weights, s, pos, orig.bits[..], orig.bitsFilled, orig.limit, orig.requests)
      && Reports(Play(cb, bound, child, []).res, res)
      && model.curTried == NotesTried(step, orig.requests) && model.curSet == NotesSet(step)
    ensures res.ShrinkOk? ==>
      && fresh(res.pool) && fresh(res.pool.bits) && res.pool.Valid() && res.pool.shrinking && res.pool.index == None
      && res.pool.generation == orig.generation + 1
      && res.pool.consumed <= res.pool.limit <= res.pool.bitsFilled
      && res.pool.limit <= orig.limit && res.pool.bitsFilled <= orig.bitsFilled
      && (forall i: nat :: ZeroExtended(res.pool.bits[..], res.pool.limit)(i) == child(i))
      && res.pool.requests == Recorded(Play(cb, bound, child, []).answers, res.pool.limit)
      && Values(res.pool.bits[..], res.pool.requests) == RecordedValues(Play(cb, bound, child, []).answers, res.pool.limit)
  {
    hide NotesTried, NotesSet, PoolBit, Drawing, DrawAt, Fair, Derives, Sum, ToNat, InRange, Play, Recorded;
    step, child, pos' := DropStep([]), s, pos;
    if tactic >= (if maxFailedShrinks == 0 then DEF_MAX_FAILED_SHRINKS else maxFailedShrinks) {
      return NoMoreTactics, step, child, pos';
    }
    var copy;
    copy, step, child, pos' := MakeCopy(prng, model, orig, s, pos);
    var ares := Rebuild(prng, copy, cb, bound, child, s, pos');
    ReadableValues(cb, bound, child, copy.bits[..], copy.limit);
    match ares {
      case AllocOk(instance) => res := ShrinkOk(instance, copy);
      case AllocSkip => res := ShrinkDeadEnd;
      case AllocError => res := ShrinkError;
    }
  }

  lemma ReadableValues<T(!new)>(cb: Callback<T>, bound: nat, child: Stream, bytes: seq<bv8>, limit: nat)
    requires Ends(cb, bound) && forall i: nat :: ZeroExtended(bytes, limit)(i) == child(i)
    ensures var answers := Play(cb, bound, child, []).answers;
      Values(bytes, Recorded(answers, limit)) == RecordedValues(answers, limit)
  {
    hide PoolBit, Play, Recorded, RecordedValues, Values;
    forall i: nat ensures child(i) == (i < limit && PoolBit(bytes, i)) { assert ZeroExtended(bytes, limit)(i) == child(i); }
    PlayedValues(cb, bound, child, bytes, limit);
  }

  /** What the step reports for what the callback reported. */
  ghost predicate Reports<T>(built: AllocResult<T>, res: ShrinkResult<T>) {
    match built
    case AllocOk(instance) => res.ShrinkOk? && res.instance == instance
    case AllocSkip => res.ShrinkDeadEnd?
    case AllocError => res.ShrinkError?
  }

  /** Runs the callback on a truncated copy. The generator is not consulted. */
  method Rebuild<T(!new)>(prng: Prng, copy: BitPool, cb: Callback<AllocResult<T>>, ghost bound: nat, ghost child: Stream,
                          ghost s: Stream, ghost pos: nat) returns (ares: AllocResult<T>)
    requires Drawing(prng, s, pos) && Ends(cb, bound)
    requires copy.WellFormed() && copy.bitsFilled % 8 == 0 && copy.bits as object != prng.rng.mt
    requires copy.consumed == 0 && copy.requests == [] && copy.index == None && copy.limit <= copy.bitsFilled
    requires forall i: nat :: ZeroExtended(copy.bits[..], copy.limit)(i) == child(i)
    modifies prng, prng.rng, prng.rng.mt, copy, copy.bits
    ensures Drawing(prng, s, pos) && prng.rng.seed == old(prng.rng.seed)
    ensures ares == Play(cb, bound, child, []).res
    ensures copy.Valid() && copy.shrinking && copy.index == None && (copy.bits == old(copy.bits) || fresh(copy.bits))
    ensures copy.generation == old(copy.generation) && copy.limit == old(copy.limit)
    ensures copy.bitsFilled == old(copy.bitsFilled) && copy.consumed <= copy.limit
    ensures copy.requests == Recorded(Play(cb, bound, child, []).answers, copy.limit)
    ensures forall i: nat :: ZeroExtended(copy.bits[..], copy.limit)(i) == child(i)
  {
    hide PoolBit, Sum, ToNat, Play, Recorded, RngBit;
    assert forall i: nat :: prng.Ahead(i) == Later(s, pos, i);
    ghost var answers;
    ares, answers := AllocFromBitPool(prng, copy, true, cb, bound, child);
    assert Run(ares, answers) == Play(cb, bound, child, []);
    forall i: nat
      ensures ZeroExtended(copy.bits[..], copy.limit)(i) == child(i)
    {
      assert copy.At(prng.rng, i) == child(i);
    }
    forall i: nat
      ensures prng.Ahead(i) == Later(s, pos, i)
    {
      assert old(prng.Ahead(i)) == Later(s, pos, i);
    }
  }

  lemma ZeroBytesHoldNothing(bytes: seq<bv8>)
    requires forall i :: 0 <= i < |bytes| ==> bytes[i] == 0
    ensures ZeroFrom(bytes, 0)
  {
    hide BitOf, OneHot;
    ZeroByte(0);
  }

  lemma RefersToZero(bytes: seq<bv8>)
    requires ZeroFrom(bytes, 0)
    ensures Holds(bytes, [])
  {
  }

  /** A buffer that holds the kept bits delivers them and then zeroes, whatever its limit past them. */
  lemma DroppedIsKept(orig: BitPool, copy: BitPool, mask: seq<bool>)
    requires |mask| <= orig.consumed <= copy.limit && Holds(copy.bits[..], Kept(orig, |mask|, mask))
    ensures |Kept(orig, |mask|, mask)| <= |mask|
    ensures ZeroFrom(copy.bits[..], |Kept(orig, |mask|, mask)|)
    ensures Kept(orig, |mask|, mask) == Keep(Slice(BitsOf(orig.bits[..]), 0, |mask|), mask)
    ensures forall i: nat ::
      ZeroExtended(copy.bits[..], copy.limit)(i) == DroppedStream(Keep(Slice(BitsOf(orig.bits[..]), 0, |mask|), mask))(i)
  {
    hide BitOf, OneHot, Keep;
    assert mask[..|mask|] == mask;
    KeepShortens(Slice(BitsOf(orig.bits[..]), 0, |mask|), mask);
    var kept := Kept(orig, |mask|, mask);
    forall i: nat
      ensures ZeroExtended(copy.bits[..], copy.limit)(i) == DroppedStream(kept)(i)
    {
      if i < 8 * copy.bits.Length { assert PoolBit(copy.bits[..], i) == (i < |kept| && kept[i]); }
    }
  }

  /**
  A mutation step that changed nothing rebuilds the very same instance: the half of the unconsumed bits it cuts off is
  never missed.
  */
  lemma UnchangedStepReplays<T(!new)>(cb: Callback<T>, bound: nat, step: Step, child: Stream, m: Mix, s: Stream, pos: nat,
                                      bytes: seq<bv8>, filled: nat, limit: nat, requests: seq<nat>)
    requires Ends(cb, bound) && AllPositive(requests) && filled <= 8 * |bytes|
    requires var total := Total(Play(cb, bound, ZeroExtended(bytes, limit), []).answers);
      Sum(requests) == Least(total, limit) && Sum(requests) <= filled
    requires Derives(step, child, m, s, pos, bytes, filled, limit, requests)
    requires step.MutateStep? && Changes(step.tries) == 0 && |step.start| >= |bytes|
    ensures Play(cb, bound, child, []) == Play(cb, bound, ZeroExtended(bytes, limit), [])
  {
    hide PoolBit, Linked, DrawAt, ChangeCount, Log2Ceil, LexLess, Values;
    var t := ZeroExtended(bytes, limit);
    PassDescends(m, requests, s, pos + 8, bytes, filled, step.start, step.tries);
    forall i: nat | i < Total(Play(cb, bound, t, []).answers)
      ensures t(i) == child(i)
    {
    }
    PlayAgrees(cb, bound, t, child, []);
  }

  // ----- Many steps -----

  /** The instance is what the callback builds from the pool, and the pool's record says how it was asked for. */
  ghost predicate Replays<T(!new)>(cb: Callback<AllocResult<T>>, bound: nat, pool: BitPool, instance: T)
    requires Ends(cb, bound)
    reads pool`bits, pool`limit, pool`requests, pool.bits
  {
    var run := Play(cb, bound, ZeroExtended(pool.bits[..], pool.limit), []);
    run.res == AllocOk(instance) && pool.requests == Recorded(run.answers, pool.limit)
  }

  lemma {:induction false} NoMoreThanBits(requests: seq<nat>)
    requires AllPositive(requests)
    ensures |requests| <= Sum(requests)
  {
    if requests != [] { NoMoreThanBits(requests[..|requests| - 1]); }
  }

  /** A freshly recorded pool replays its instance. */
  lemma RecordedReplays<T(!new)>(cb: Callback<AllocResult<T>>, bound: nat, s: Stream, pool: BitPool, instance: T)
    requires Ends(cb, bound) && pool.consumed <= pool.limit
    requires var run := Play(cb, bound, s, []);
      && run.res == AllocOk(instance) && pool.consumed == Total(run.answers)
      && pool.requests == Recorded(run.answers, pool.limit)
    requires forall i: nat :: i < pool.consumed ==> PoolBit(pool.bits[..], i) == s(i)
    ensures Replays(cb, bound, pool, instance)
  {
    hide PoolBit, Play, Recorded, Total;
    SavedPoolReplays(cb, bound, s, pool.bits[..], pool.limit);
  }

  lemma ChildReplays<T(!new)>(cb: Callback<AllocResult<T>>, bound: nat, child: Stream, pool: BitPool, instance: T)
    requires Ends(cb, bound) && Play(cb, bound, child, []).res == AllocOk(instance)
    requires forall i: nat :: ZeroExtended(pool.bits[..], pool.limit)(i) == child(i)
    requires pool.requests == Recorded(Play(cb, bound, child, []).answers, pool.limit)
    ensures Replays(cb, bound, pool, instance)
  {
    hide PoolBit, Play, Recorded, Total, ZeroExtended;
    PlayAgrees(cb, bound, child, ZeroExtended(pool.bits[..], pool.limit), []);
  }

  /** So in every generation: the values a pool holds are the numbers the callback is given when its instance is built. */
  lemma ReplaysRead<T(!new)>(cb: Callback<AllocResult<T>>, bound: nat, pool: BitPool, instance: T)
    requires Ends(cb, bound) && Replays(cb, bound, pool, instance)
    ensures Values(pool.bits[..], pool.requests)
      == RecordedValues(Play(cb, bound, ZeroExtended(pool.bits[..], pool.limit), []).answers, pool.limit)
  {
    hide PoolBit, Play, Recorded, RecordedValues, Values;
    PlayedValues(cb, bound, ZeroExtended(pool.bits[..], pool.limit), pool.bits[..], pool.limit);
  }

  /** What the property said. */
  datatype Said = Failed | Passed | Erred

  /**
  What becomes of an offered instance: the filter knows it, or the hook after the shrink call refuses it; or the property runs on it,
  where the first and the last result matter, unless the hook after a run reports an error.
  */
  datatype Fate = AlreadyKnown | Refused | Ran(firstFailed: bool, last: Said) | HookError(firstFailed: bool)

  /** The offered instance and its pool stay, and the old ones are freed. So it is also after an error. */
  predicate Adopts(fate: Fate) {
    fate.HookError? || (fate.Ran? && fate.last != Passed)
  }

  /** The attempt is over with an error. */
  predicate Stops(fate: Fate) {
    fate.Refused? || fate.HookError? || (fate.Ran? && fate.last == Erred)
  }

  /** What the model hears of it: a first failure with weight 3, and the last result with weight 8. */
  function EventsOf(fate: Fate, curTried: set<Action>, curSet: set<Action>): seq<Event> {
    match fate
    case AlreadyKnown => []
    case Refused => []
    case Ran(firstFailed, last) =>
      (if firstFailed then [Event(curSet, curTried, true, 3)] else []) + [Event(curSet, curTried, last == Failed, 8)]
    case HookError(firstFailed) => if firstFailed then [Event(curSet, curTried, true, 3)] else []
  }

  /** What the model hears, for each fate. */
  lemma Heeded(m: Mix, tried: set<Action>, done: set<Action>, fate: Fate)
    ensures var hear := (w: Mix, failed: bool, n: nat) => Updated(w, Event(done, tried, failed, n));
      var after := UpdatedAll(m, EventsOf(fate, tried, done));
      match fate
      case AlreadyKnown => after == m
      case Refused => after == m
      case HookError(firstFailed) => after == if firstFailed then hear(m, true, 3) else m
      case Ran(firstFailed, last) => after == hear(if firstFailed then hear(m, true, 3) else m, last == Failed, 8)
  {
    hide Updated;
    match fate {
      case Ran(firstFailed, last) =>
        var a, b := Event(done, tried, true, 3), Event(done, tried, last == Failed, 8);
        Heard(m, [], a);
        Heard(m, [], b);
        Heard(m, [a], b);
        assert [] + [a] == [a] && [] + [b] == [b] && [a] + [b] == EventsOf(Ran(true, last), tried, done);
      case HookError(firstFailed) =>
        Heard(m, [], Event(done, tried, true, 3));
        assert [] + [Event(done, tried, true, 3)] == [Event(done, tried, true, 3)];
      case _ =>
    }
  }

  predicate HasTactics(tactic: nat, maxFailedShrinks: nat) {
    tactic < (if maxFailedShrinks == 0 then DEF_MAX_FAILED_SHRINKS else maxFailedShrinks)
  }

  /** The weights after a step: as they were if there is no tactic left, else moved by what the model hears, if an instance was offered. */
  function WeightsAfter(weights: Mix, tactic: nat, maxFailedShrinks: nat, offered: bool, fate: Fate, step: Step, requests: seq<nat>): Mix {
    if !HasTactics(tactic, maxFailedShrinks) then weights
    else if !offered then InForce(weights)
    else UpdatedAll(InForce(weights), EventsOf(fate, NotesTried(step, requests), NotesSet(step)))
  }

  /**
  One step and what becomes of it. The pool is the offered one if and only if an instance was offered and its fate adopts it; otherwise
  pool and instance are what they were. The loop goes on unless tactics ran out or something erred.
  */
  method ShrinkOnce<T(!new)>(prng: Prng, model: Model, orig: BitPool, first: T, tactic: nat, fate: Fate, maxFailedShrinks: nat,
                             cb: Callback<AllocResult<T>>, ghost bound: nat, ghost s: Stream, ghost pos: nat)
    returns (pool: BitPool, instance: T, goesOn: bool, ghost step: Step, ghost child: Stream, ghost pos': nat)
    requires Drawing(prng, s, pos) && Fair(s) && Ends(cb, bound) && Shrinkable(prng, orig)
    requires orig.limit <= Pow2(64) && Replays(cb, bound, orig, first)
    requires model.weights == Mix(0, 0, 0, 0, 0) || InRange(model.weights)
    modifies prng, prng.rng, prng.rng.mt, model, orig`index
    ensures Drawing(prng, s, pos') && Shrinkable(prng, pool) && Replays(cb, bound, pool, instance)
    ensures pool.limit <= orig.limit && pool.bitsFilled <= orig.bitsFilled
    ensures HasTactics(tactic, maxFailedShrinks) ==>
      Derives(step, child, InForce(old(model.weights)), s, pos, orig.bits[..], orig.bitsFilled, orig.limit, orig.requests)
    ensures pool != orig <==> HasTactics(tactic, maxFailedShrinks) && Play(cb, bound, child, []).res.AllocOk? && Adopts(fate)
    ensures pool != orig ==> Play(cb, bound, child, []).res == AllocOk(instance)
    ensures pool != orig ==>
      && fresh(pool) && pool.shrinking && pool.consumed <= pool.limit <= pool.bitsFilled
      && pool.generation == orig.generation + 1
    ensures pool == orig ==> instance == first && pool.generation == old(orig.generation)
    // kept if the last result was a failure, taken back if it was a pass or nothing was run
    ensures fate.Ran? && fate.last == Failed && HasTactics(tactic, maxFailedShrinks) && Play(cb, bound, child, []).res.AllocOk? ==> pool != orig
    ensures (fate.Ran? && fate.last == Passed) || fate.AlreadyKnown? || fate.Refused? ==> pool == orig
    // an error ends the attempt; after the property has run, it leaves the candidate in place
    ensures Play(cb, bound, child, []).res.AllocOk? && (fate.HookError? || (fate.Ran? && fate.last == Erred)) ==>
      !goesOn && (HasTactics(tactic, maxFailedShrinks) ==> pool != orig)
    ensures HasTactics(tactic, maxFailedShrinks) && Play(cb, bound, child, []).res.AllocOk? ==>
      (goesOn <==> fate.AlreadyKnown? || (fate.Ran? && fate.last != Erred))
    ensures model.weights == WeightsAfter(old(model.weights), tactic, maxFailedShrinks, Play(cb, bound, child, []).res.AllocOk?, fate,
      step, orig.requests)
    ensures model.weights == Mix(0, 0, 0, 0, 0) || InRange(model.weights)
    ensures var built := Play(cb, bound, child, []).res;
      goesOn <==> HasTactics(tactic, maxFailedShrinks) && !built.AllocError? && (built.AllocOk? ==> !Stops(fate))
  {
    hide PoolBit, Drawing, DrawAt, Fair, Derives, Sum, InRange, Play, Recorded, Replays, Ends, Pow2, Values, RecordedValues, UpdatedAll;
    hide NotesTried, NotesSet, EventsOf, InForce;
    pool, instance, goesOn := orig, first, true;
    var res;
    res, step, child, pos' := AutoshrinkShrink(prng, model, orig, tactic, maxFailedShrinks, cb, bound, s, pos);
    match res {
      case ShrinkOk(shrunk, smaller) =>
        ChildReplays(cb, bound, child, smaller, shrunk);
        NoMoreThanBits(smaller.requests);
        MeetFate(model, fate);
        if Adopts(fate) {
          pool, instance := smaller, shrunk;
        }
        goesOn := !Stops(fate);
      case ShrinkDeadEnd =>
      case _ => goesOn := false;
    }
  }

  /** The model hears of the fate of what a step offered. */
  method MeetFate(model: Model, fate: Fate)
    requires InRange(model.weights)
    modifies model`weights
    ensures InRange(model.weights)
    ensures model.weights == UpdatedAll(old(model.weights), EventsOf(fate, model.curTried, model.curSet))
  {
    ghost var was, events := model.weights, EventsOf(fate, model.curTried, model.curSet);
    ghost var heard: seq<Event> := [];
    if (fate.Ran? || fate.HookError?) && fate.firstFailed {
      Heard(was, [], Event(model.curSet, model.curTried, true, 3));
      heard := [] + [Event(model.curSet, model.curTried, true, 3)];
      model.Update(true, 3);
    }
    if fate.Ran? {
      Heard(was, heard, Event(model.curSet, model.curTried, fate.last == Failed, 8));
      heard := heard + [Event(model.curSet, model.curTried, fate.last == Failed, 8)];
      model.Update(fate.last == Failed, 8);
    }
    assert heard == events;
  }

  lemma Heard(weights: Mix, events: seq<Event>, e: Event)
    ensures UpdatedAll(weights, events + [e]) == Updated(UpdatedAll(weights, events), e)
    ensures UpdatedAll(weights, []) == weights
  {
    assert (events + [e])[..|events|] == events;
  }

  /**
  Any number of shrinking steps, as the shrink loop takes them, each with its fate, until one ends the loop. Through all generations
  the pool is sound and never longer, it replays its instance, and the weights stay in range.
  */
  method ShrinkOften<T(!new)>(prng: Prng, model: Model, orig: BitPool, first: T, tactics: seq<nat>, fates: seq<Fate>,
                              maxFailedShrinks: nat, cb: Callback<AllocResult<T>>, ghost bound: nat, ghost s: Stream, ghost pos: nat)
    returns (pool: BitPool, instance: T, steps: nat, ghost pos': nat)
    requires Drawing(prng, s, pos) && Fair(s) && Ends(cb, bound) && Shrinkable(prng, orig) && |fates| == |tactics|
    requires orig.limit <= Pow2(64) && Replays(cb, bound, orig, first)
    requires model.weights == Mix(0, 0, 0, 0, 0) || InRange(model.weights)
    modifies prng, prng.rng, prng.rng.mt, model, orig`index
    ensures Drawing(prng, s, pos') && Shrinkable(prng, pool) && Replays(cb, bound, pool, instance)
    ensures pool.limit <= orig.limit && pool.bitsFilled <= orig.bitsFilled
    ensures steps <= |tactics| && orig.generation <= pool.generation <= orig.generation + steps
    ensures pool != orig ==> fresh(pool) && pool.shrinking && pool.consumed <= pool.limit <= pool.bitsFilled
    ensures pool == orig ==> instance == first
    ensures (forall k :: 0 <= k < steps ==> !Adopts(fates[k])) ==> pool == orig
    ensures forall k :: 0 <= k < steps - 1 ==> HasTactics(tactics[k], maxFailedShrinks)
    ensures model.weights == Mix(0, 0, 0, 0, 0) || InRange(model.weights)
  {
    hide PoolBit, Drawing, DrawAt, Fair, Derives, Sum, InRange, Play, Recorded, Replays, Ends, Pow2, Values, RecordedValues, Updated;
    hide WeightsAfter, Adopts, Stops, HasTactics;
    pool, instance, steps, pos' := orig, first, 0, pos;
    var goesOn := true;
    while goesOn && steps < |tactics|
      invariant steps <= |tactics|
      invariant Drawing(prng, s, pos') && Shrinkable(prng, pool) && Replays(cb, bound, pool, instance)
      invariant pool.limit <= orig.limit && pool.bitsFilled <= orig.bitsFilled
      invariant orig.generation <= pool.generation <= orig.generation + steps
      invariant pool != orig ==> fresh(pool) && pool.shrinking && pool.consumed <= pool.limit <= pool.bitsFilled
      invariant pool == orig ==> instance == first
      invariant (forall j :: 0 <= j < steps ==> !Adopts(fates[j])) ==> pool == orig
      invariant forall k :: 0 <= k < steps - 1 ==> HasTactics(tactics[k], maxFailedShrinks)
      invariant goesOn && steps > 0 ==> HasTactics(tactics[steps - 1], maxFailedShrinks)
      invariant model.weights == Mix(0, 0, 0, 0, 0) || InRange(model.weights)
    {
      ghost var step, child;
      pool, instance, goesOn, step, child, pos' :=
        ShrinkOnce(prng, model, pool, instance, tactics[steps], fates[steps], maxFailedShrinks, cb, bound, s, pos');
      steps := steps + 1;
    }
  }
}
