/**
Running an alloc callback on a bit source (src/theft_autoshrink.c, alloc_from_bit_pool and
theft_autoshrink_alloc; src/theft_random.c).

A callback is an arbitrary function of the answers it has had so far: it either asks for
more bits or returns. `Play` says what it builds from a bit stream; every way of running it
is proved to be `Play` on the right stream.
*/
module Alloc {
  import opened Bits
  import opened BitPool
  import opened Random
  import opened PoolEdit

  datatype Step<T> = Ask(bits: nat) | Return(res: T)

  type Callback<!T> = seq<seq<bool>> -> Step<T>

  /** What a run of a callback produced, and the bits it was given for each request. */
  datatype Run<T> = Run(res: T, answers: seq<seq<bool>>)

  /** The callback returns after at most `bound` requests, whatever it is given. */
  ghost predicate Ends<T(!new)>(cb: Callback<T>, bound: nat) {
    forall answers: seq<seq<bool>> :: |answers| >= bound ==> cb(answers).Return?
  }

  /** How many bits some answers hold. */
  function Total(answers: seq<seq<bool>>): nat {
    if answers == [] then 0 else Total(answers[..|answers| - 1]) + |answers[|answers| - 1]|
  }

  lemma TotalAppend(answers: seq<seq<bool>>, answer: seq<bool>)
    ensures Total(answers + [answer]) == Total(answers) + |answer|
  {
    assert (answers + [answer])[..|answers|] == answers;
  }

  /** The run of `cb` on the stream `s`, from the point where it has had `answers`. */
  ghost function Play<T(!new)>(cb: Callback<T>, bound: nat, s: Stream, answers: seq<seq<bool>>): Run<T>
    requires Ends(cb, bound)
    decreases bound - |answers|
  {
    match cb(answers)
    case Return(res) => Run(res, answers)
    case Ask(n) => Play(cb, bound, s, answers + [Slice(s, Total(answers), n)])
  }

  lemma PlayStep<T(!new)>(cb: Callback<T>, bound: nat, s: Stream, had: seq<seq<bool>>)
    requires Ends(cb, bound)
    ensures cb(had).Return? ==> Play(cb, bound, s, had) == Run(cb(had).res, had)
    ensures cb(had).Ask? ==>
      Play(cb, bound, s, had) == Play(cb, bound, s, had + [Slice(s, Total(had), cb(had).bits)]) && |had| < bound
  {
  }

  lemma {:induction false} PlayExtends<T(!new)>(cb: Callback<T>, bound: nat, s: Stream, answers: seq<seq<bool>>)
    requires Ends(cb, bound)
    ensures answers <= Play(cb, bound, s, answers).answers
    ensures Total(answers) <= Total(Play(cb, bound, s, answers).answers)
    decreases bound - |answers|
  {
    if cb(answers).Ask? {
      var answer := Slice(s, Total(answers), cb(answers).bits);
      TotalAppend(answers, answer);
      PlayExtends(cb, bound, s, answers + [answer]);
    }
  }

  /** A run depends on the bits it consumes and on nothing else: this is what makes a saved pool replayable. */
  lemma {:induction false} PlayAgrees<T(!new)>(cb: Callback<T>, bound: nat, s: Stream, t: Stream, answers: seq<seq<bool>>)
    requires Ends(cb, bound)
    requires forall i: nat :: i < Total(Play(cb, bound, s, answers).answers) ==> s(i) == t(i)
    ensures Play(cb, bound, t, answers) == Play(cb, bound, s, answers)
    decreases bound - |answers|
  {
    hide Slice, Total;
    if cb(answers).Ask? {
      var n := cb(answers).bits;
      var answer := Slice(s, Total(answers), n);
      TotalAppend(answers, answer);
      PlayExtends(cb, bound, s, answers + [answer]);
      SliceEqual(s, t, Total(answers), n);
      assert Play(cb, bound, t, answers) == Play(cb, bound, t, answers + [answer]);
      PlayAgrees(cb, bound, s, t, answers + [answer]);
    }
  }

  /** A pool that holds the bits a run consumed rebuilds the same instance from them, and asks in the same sizes. */
  lemma SavedPoolReplays<T(!new)>(cb: Callback<T>, bound: nat, s: Stream, bytes: seq<bv8>, limit: nat)
    requires Ends(cb, bound) && Total(Play(cb, bound, s, []).answers) <= limit
    requires forall i: nat :: i < Total(Play(cb, bound, s, []).answers) ==> PoolBit(bytes, i) == s(i)
    ensures Play(cb, bound, ZeroExtended(bytes, limit), []) == Play(cb, bound, s, [])
  {
    hide PoolBit;
    PlayAgrees(cb, bound, s, ZeroExtended(bytes, limit), []);
  }

  function Flatten(answers: seq<seq<bool>>): seq<bool> {
    if answers == [] then [] else Flatten(answers[..|answers| - 1]) + answers[|answers| - 1]
  }

  lemma {:induction false} FlattenLength(answers: seq<seq<bool>>)
    ensures |Flatten(answers)| == Total(answers)
  {
    if answers != [] { FlattenLength(answers[..|answers| - 1]); }
  }

  /** However a callback splits its requests, what it has been given is the next stretch of the stream. */
  lemma {:induction false} ChunkingInvariance<T(!new)>(cb: Callback<T>, bound: nat, s: Stream, answers: seq<seq<bool>>)
    requires Ends(cb, bound) && Flatten(answers) == Slice(s, 0, Total(answers))
    ensures var given := Play(cb, bound, s, answers).answers; Flatten(given) == Slice(s, 0, Total(given))
    decreases bound - |answers|
  {
    if cb(answers).Ask? {
      var answer := Slice(s, Total(answers), cb(answers).bits);
      TotalAppend(answers, answer);
      assert (answers + [answer])[..|answers|] == answers;
      SliceConcat(s, 0, Total(answers), |answer|);
      ChunkingInvariance(cb, bound, s, answers + [answer]);
    }
  }

  /** The request sizes a pool cut off at `limit` records: clipped at the limit, and none once exhausted. */
  function Recorded(answers: seq<seq<bool>>, limit: nat): seq<nat> {
    if answers == [] then [] else
      var before, n := answers[..|answers| - 1], |answers[|answers| - 1]|;
      var consumed := Least(Total(before), limit);
      Recorded(before, limit) + (if n == 0 || consumed == limit then [] else [Least(n, limit - consumed)])
  }

  /** The numbers handed out for the requests in that record. */
  function RecordedValues(answers: seq<seq<bool>>, limit: nat): seq<nat> {
    if answers == [] then [] else
      var before, answer := answers[..|answers| - 1], answers[|answers| - 1];
      RecordedValues(before, limit) + (if answer == [] || Total(before) >= limit then [] else [ToNat(answer)])
  }

  lemma {:induction false} RecordedStep(answers: seq<seq<bool>>, answer: seq<bool>, limit: nat, requests: seq<nat>)
    requires Served(Least(Total(answers), limit), Recorded(answers, limit), limit, |answer|,
                    Least(Total(answers) + |answer|, limit), requests)
    ensures Recorded(answers + [answer], limit) == requests
    ensures Total(answers + [answer]) == Total(answers) + |answer|
  {
    TotalAppend(answers, answer);
    assert (answers + [answer])[..|answers|] == answers;
  }

  lemma NoAnswers(limit: nat)
    ensures Total([]) == 0 && Recorded([], limit) == []
  {
  }

  lemma {:induction false} RecordedSum(answers: seq<seq<bool>>, limit: nat)
    ensures Sum(Recorded(answers, limit)) == Least(Total(answers), limit)
    ensures |RecordedValues(answers, limit)| == |Recorded(answers, limit)|
  {
    if answers != [] {
      var before, n := answers[..|answers| - 1], |answers[|answers| - 1]|;
      RecordedSum(before, limit);
      var was, now := Recorded(before, limit), Recorded(answers, limit);
      if |now| > |was| { assert now[..|now| - 1] == was; } else { assert now == was; }
    }
  }

  lemma LastAnswer(answers: seq<seq<bool>>, s: Stream)
    requires answers != [] && Flatten(answers) == Slice(s, 0, Total(answers))
    ensures var before, answer := answers[..|answers| - 1], answers[|answers| - 1];
      Flatten(before) == Slice(s, 0, Total(before)) && answer == Slice(s, Total(before), |answer|)
  {
    var before, answer := answers[..|answers| - 1], answers[|answers| - 1];
    SliceConcat(s, 0, Total(before), |answer|);
    FlattenLength(before);
    assert Flatten(answers)[..Total(before)] == Flatten(before) && Flatten(answers)[Total(before)..] == answer;
  }

  /**
  For every recorded request, the bits a pool holds at the request's offset are the number the callback
  was given: the record, the offsets and the stream agree.
  */
  lemma {:induction false} ValuesAreAnswers(answers: seq<seq<bool>>, s: Stream, bytes: seq<bv8>, limit: nat)
    requires Flatten(answers) == Slice(s, 0, Total(answers))
    requires forall i: nat :: i < Total(answers) ==> s(i) == (i < limit && PoolBit(bytes, i))
    ensures Values(bytes, Recorded(answers, limit)) == RecordedValues(answers, limit)
  {
    hide PoolBit, ToNat;
    RecordedSum(answers, limit);
    if answers != [] {
      var before, answer := answers[..|answers| - 1], answers[|answers| - 1];
      var start := Total(before);
      LastAnswer(answers, s);
      ValuesAreAnswers(before, s, bytes, limit);
      if answer != [] && start < limit {
        LastRecorded(answers, s, bytes, limit);
      } else {
        assert Recorded(answers, limit) == Recorded(before, limit);
        assert RecordedValues(answers, limit) == RecordedValues(before, limit);
      }
    }
  }

  /** The pool holds the last answer at the end of its record. */
  lemma LastRecorded(answers: seq<seq<bool>>, s: Stream, bytes: seq<bv8>, limit: nat)
    requires answers != []
    requires var start, answer := Total(answers[..|answers| - 1]), answers[|answers| - 1];
      && answer != [] && start < limit && answer == Slice(s, start, |answer|)
      && forall i: nat :: start <= i < start + |answer| ==> s(i) == (i < limit && PoolBit(bytes, i))
    ensures Values(bytes, Recorded(answers, limit))
      == Values(bytes, Recorded(answers[..|answers| - 1], limit)) + [ToNat(answers[|answers| - 1])]
  {
    hide PoolBit, ToNat;
    var before, answer := answers[..|answers| - 1], answers[|answers| - 1];
    var start := Total(before);
    var was, n := Recorded(before, limit), Least(|answer|, limit - start);
    assert Recorded(answers, limit) == was + [n];
    RecordedSum(before, limit);
    var bits := Slice(BitsOf(bytes), start, n);
    assert answer == bits + Zeros(|answer| - n);
    ToNatPad(bits, |answer| - n);
    OneMoreValue(bytes, was, n);
  }

  lemma OneMoreValue(bytes: seq<bv8>, was: seq<nat>, n: nat)
    ensures Values(bytes, was + [n]) == Values(bytes, was) + [ToNat(Slice(BitsOf(bytes), Sum(was), n))]
  {
    hide PoolBit, ToNat;
    var now := was + [n];
    ValuesOfPrefix(bytes, was, now);
    assert now[..|was|] == was;
    assert Values(bytes, now)[|was|] == ToNat(Slice(BitsOf(bytes), Sum(was), n));
    assert Values(bytes, now) == Values(bytes, now)[..|was|] + [Values(bytes, now)[|was|]];
  }

  lemma ValuesOfPrefix(bytes: seq<bv8>, was: seq<nat>, now: seq<nat>)
    requires was <= now
    ensures Values(bytes, now)[..|was|] == Values(bytes, was)
  {
    forall i | 0 <= i < |was|
      ensures Values(bytes, now)[i] == Values(bytes, was)[i]
    {
      assert now[..i] == was[..i];
    }
  }

  // ----- Running a callback -----

  /** One unpooled request into a zeroed buffer. */
  method Request(prng: Prng, n: nat, ghost s: Stream, ghost given: nat) returns (answer: seq<bool>)
    requires prng.bitPool == null && prng.Valid() && prng.Next(s, given)
    modifies prng`buf, prng`bitsAvailable, prng.rng, prng.rng.mt
    ensures prng.Valid() && prng.Next(s, given + n) && prng.rng.seed == old(prng.rng.seed)
    ensures prng.Position() == old(prng.Position()) + n
    ensures answer == Slice(s, given, n)
  {
    hide Rng.State, Rng.Output, Unpack, RngBit;
    var dst := new Word[WordsFor(n)](_ => ZERO);
    ghost var t := Tail(s, given);
    assert prng.Next(t, 0) by {
      forall i: nat ensures prng.Ahead(i) == Later(t, 0, i) { assert prng.Ahead(i) == Later(s, given, i); }
    }
    prng.BitsBulk(n, dst, t);
    forall i: nat ensures prng.Ahead(i) == Later(s, given + n, i) { assert prng.Ahead(i) == Later(t, n, i); }
    answer := FirstBits(dst[..], n);
  }

  /** Runs a callback on the generator itself. */
  method RunUnpooled<T(!new)>(prng: Prng, cb: Callback<T>, ghost bound: nat, ghost s: Stream)
    returns (res: T, ghost answers: seq<seq<bool>>)
    requires Ends(cb, bound)
    requires prng.bitPool == null && prng.Valid() && prng.Next(s, 0)
    modifies prng`buf, prng`bitsAvailable, prng.rng, prng.rng.mt
    ensures prng.Valid() && prng.rng.seed == old(prng.rng.seed)
    ensures Run(res, answers) == Play(cb, bound, s, [])
    ensures prng.Next(s, Total(answers)) && prng.Position() == old(prng.Position()) + Total(answers)
  {
    hide Play, Total, Ends, Slice;
    var had: seq<seq<bool>> := [];
    assert Total(had) == 0 by { NoAnswers(0); }
    var step := cb(had);
    while step.Ask?
      invariant step == cb(had) && Play(cb, bound, s, had) == Play(cb, bound, s, [])
      invariant prng.Valid() && prng.rng.seed == old(prng.rng.seed)
      invariant prng.Next(s, Total(had)) && prng.Position() == old(prng.Position()) + Total(had)
      decreases bound - |had|
    {
      var answer := Request(prng, step.bits, s, Total(had));
      PlayStep(cb, bound, s, had);
      TotalAppend(had, answer);
      had := had + [answer];
      step := cb(had);
    }
    PlayStep(cb, bound, s, had);
    return step.res, had;
  }

  /** One pooled request into a zeroed buffer. */
  method RequestPooled(prng: Prng, pool: BitPool, n: nat, ghost s: Stream, ghost given: nat) returns (answer: seq<bool>)
    requires prng.bitPool == pool && prng.Ready(s) && pool.consumed == Least(given, pool.limit)
    modifies prng`buf, prng`bitsAvailable, prng.rng, prng.rng.mt, pool, pool.bits
    ensures unchanged(prng) && prng.Ready(s) && (pool.bits == old(pool.bits) || fresh(pool.bits))
    ensures prng.rng.seed == old(prng.rng.seed) && pool.limit == old(pool.limit)
    ensures pool.consumed == Least(given + n, pool.limit)
    ensures Served(old(pool.consumed), old(pool.requests), pool.limit, n, pool.consumed, pool.requests)
    ensures pool.Kept(prng.rng, old(pool.shrinking), old(pool.generation),
      old(64 * prng.rng.drawn - pool.bitsFilled), old(pool.bitsFilled), given + n)
    ensures answer == Slice(s, given, n)
  {
    hide Rng.State, Rng.Output, Unpack, RngBit, PoolBit, Sum, IsIndex, AllPositive, Delivered, Served;
    var dst := new Word[WordsFor(n)](_ => ZERO);
    ghost var before, consumed, requests := dst[..], pool.consumed, pool.requests;
    prng.BitsBulk(n, dst, s);
    forall i: nat | i >= pool.limit ensures !s(i) { assert pool.At(prng.rng, i) == s(i); }
    answer := FirstBits(dst[..], n);
    ServedAndDelivered(s, given, consumed, requests, pool.limit, n, pool.consumed, pool.requests, before, dst[..]);
  }

  /** Runs a callback on an injected pool. */
  method RunPooled<T(!new)>(prng: Prng, pool: BitPool, cb: Callback<T>, ghost bound: nat, ghost s: Stream)
    returns (res: T, ghost answers: seq<seq<bool>>)
    requires Ends(cb, bound)
    requires prng.bitPool == pool && prng.Ready(s) && pool.consumed == 0 && pool.requests == []
    modifies prng`buf, prng`bitsAvailable, prng.rng, prng.rng.mt, pool, pool.bits
    ensures unchanged(prng) && prng.Ready(s) && (pool.bits == old(pool.bits) || fresh(pool.bits))
    ensures prng.rng.seed == old(prng.rng.seed) && pool.limit == old(pool.limit)
    ensures Run(res, answers) == Play(cb, bound, s, [])
    ensures pool.consumed == Least(Total(answers), pool.limit)
    ensures pool.requests == Recorded(answers, pool.limit)
    ensures pool.Kept(prng.rng, old(pool.shrinking), old(pool.generation),
      old(64 * prng.rng.drawn - pool.bitsFilled), old(pool.bitsFilled), Total(answers))
  {
    hide Rng.State, Rng.Output, Unpack, RngBit, PoolBit, Sum, IsIndex, AllPositive, Served, Slice, Play, Recorded, Total, Ends;
    var had: seq<seq<bool>> := [];
    assert Total(had) == 0 && Recorded(had, pool.limit) == [] by { NoAnswers(pool.limit); }
    var step := cb(had);
    while step.Ask?
      invariant step == cb(had) && Play(cb, bound, s, had) == Play(cb, bound, s, [])
      invariant unchanged(prng) && prng.Ready(s) && (pool.bits == old(pool.bits) || fresh(pool.bits))
      invariant prng.rng.seed == old(prng.rng.seed) && pool.limit == old(pool.limit)
      invariant pool.consumed == Least(Total(had), pool.limit)
      invariant pool.requests == Recorded(had, pool.limit)
      invariant pool.Kept(prng.rng, old(pool.shrinking), old(pool.generation),
        old(64 * prng.rng.drawn - pool.bitsFilled), old(pool.bitsFilled), Total(had))
      decreases bound - |had|
    {
      var answer := RequestPooled(prng, pool, step.bits, s, Total(had));
      PlayStep(cb, bound, s, had);
      RecordedStep(had, answer, pool.limit, pool.requests);
      had := had + [answer];
      step := cb(had);
    }
    PlayStep(cb, bound, s, had);
    return step.res, had;
  }

  // ----- The two allocation entry points -----

  /** alloc_from_bit_pool: injects a pool, runs the callback on it, and stops using it. */
  method AllocFromBitPool<T(!new)>(prng: Prng, pool: BitPool, shrinking: bool, cb: Callback<T>, ghost bound: nat, ghost s: Stream)
    returns (res: T, ghost answers: seq<seq<bool>>)
    requires Ends(cb, bound) && prng.Valid() && prng.bitPool == null
    requires pool.WellFormed() && pool.bitsFilled % 8 == 0 && pool.bits as object != prng.rng.mt
    requires pool.index == None && pool.consumed == 0 && pool.requests == []
    requires shrinking ==> pool.limit <= pool.bitsFilled
    requires !shrinking ==> pool.bitsFilled == 0 && pool.bitsCeil > 0
    requires forall i: nat ::
      (s(i) == (i < pool.limit
        && (if shrinking then PoolBit(pool.bits[..], i) else RngBit(prng.rng.seed, 64 * prng.rng.drawn + i))))
    modifies prng, prng.rng, prng.rng.mt, pool, pool.bits
    ensures prng.Valid() && prng.bitPool == null && prng.rng.seed == old(prng.rng.seed)
    ensures prng.bitsAvailable == old(prng.bitsAvailable) && prng.buf == old(prng.buf)
    ensures Run(res, answers) == Play(cb, bound, s, [])
    ensures pool.Serves(prng.rng, s) && pool.shrinking == shrinking && pool.index == None
    ensures pool.bits == old(pool.bits) || fresh(pool.bits)
    ensures pool.limit == old(pool.limit) && pool.generation == old(pool.generation)
    ensures pool.consumed == Least(Total(answers), pool.limit)
    ensures pool.requests == Recorded(answers, pool.limit)
    ensures shrinking ==> pool.bitsFilled == old(pool.bitsFilled) && prng.rng.drawn == old(prng.rng.drawn)
    ensures !shrinking ==> prng.rng.drawn == old(prng.rng.drawn) + pool.bitsFilled / 64
    ensures !shrinking ==> pool.bitsFilled < Total(answers) + 64
  {
    hide Rng.State, Rng.Output, Unpack, RngBit, PoolBit;
    pool.shrinking := shrinking;
    prng.bitPool := pool;
    forall i: nat ensures pool.At(prng.rng, i) == s(i) {}
    res, answers := RunPooled(prng, pool, cb, bound, s);
    prng.bitPool := null;
  }

  /**
  theft_autoshrink_alloc: a new pool records what the callback consumes. Pool transparency: on
  a generator with no buffered bits the callback builds what it would build without a pool, and exactly as many
  generator words are drawn.
  */
  method AutoshrinkAlloc<T(!new)>(prng: Prng, poolSize: nat, cb: Callback<T>, ghost bound: nat)
    returns (res: T, pool: BitPool, ghost answers: seq<seq<bool>>)
    requires Ends(cb, bound) && prng.Valid() && prng.bitPool == null
    requires Total(Play(cb, bound, Coming(prng.rng.seed, prng.rng.drawn), []).answers) <= DEF_POOL_LIMIT
    modifies prng, prng.rng, prng.rng.mt
    ensures prng.Valid() && prng.bitPool == null && prng.rng.seed == old(prng.rng.seed)
    ensures Run(res, answers) == Play(cb, bound, Coming(prng.rng.seed, old(prng.rng.drawn)), [])
    ensures prng.rng.drawn == old(prng.rng.drawn) + WordsFor(Total(answers))
    ensures fresh(pool) && fresh(pool.bits) && pool.Valid() && !pool.shrinking && pool.index == None
    ensures pool.limit == DEF_POOL_LIMIT && pool.generation == 0
    ensures pool.consumed == Total(answers) && pool.requests == Recorded(answers, pool.limit)
    ensures prng.bitsAvailable == old(prng.bitsAvailable) && prng.buf == old(prng.buf)
    ensures Values(pool.bits[..], pool.requests) == RecordedValues(answers, pool.limit)
    ensures forall i: nat :: i < pool.consumed ==>
      PoolBit(pool.bits[..], i) == Coming(prng.rng.seed, old(prng.rng.drawn))(i)
  {
    hide Rng.State, Rng.Output, Unpack, RngBit, PoolBit;
    pool := new BitPool(if poolSize == 0 then DEF_POOL_SIZE else poolSize, DEF_POOL_LIMIT);
    ghost var s := Coming(prng.rng.seed, prng.rng.drawn);
    ghost var limited: Stream := (i: nat) => i < DEF_POOL_LIMIT && s(i);
    PlayAgrees(cb, bound, s, limited, []);
    res, answers := AllocFromBitPool(prng, pool, false, cb, bound, limited);
    forall i: nat | i < pool.consumed ensures PoolBit(pool.bits[..], i) == s(i) {
      assert pool.At(prng.rng, i) == limited(i);
    }
    PlayedValues(cb, bound, limited, pool.bits[..], pool.limit);
  }

  /** The values a pool holds for its record are the numbers the callback was given. */
  lemma PlayedValues<T(!new)>(cb: Callback<T>, bound: nat, s: Stream, bytes: seq<bv8>, limit: nat)
    requires Ends(cb, bound)
    requires forall i: nat :: i < Total(Play(cb, bound, s, []).answers) ==> s(i) == (i < limit && PoolBit(bytes, i))
    ensures var answers := Play(cb, bound, s, []).answers;
      Values(bytes, Recorded(answers, limit)) == RecordedValues(answers, limit)
  {
    hide Play, PoolBit;
    assert Flatten([]) == Slice(s, 0, Total([]));
    ChunkingInvariance(cb, bound, s, []);
    ValuesAreAnswers(Play(cb, bound, s, []).answers, s, bytes, limit);
  }

  /**
  For a pool that holds the numbers it was asked for, and every recorded request of at most a word: reading it back through the
  cached index gives the number the callback was given.
  */
  method ReadBack(pool: BitPool, i: nat, ghost given: seq<nat>) returns (bits: Word)
    requires pool.WellFormed() && i < |pool.requests| && pool.requests[i] <= 64
    requires Values(pool.bits[..], pool.requests) == given
    modifies pool`index
    ensures pool.WellFormed() && pool.index.Some? && IsIndex(pool.index.value, pool.requests)
    ensures ToNat(bits) == given[i]
    ensures bits[..pool.requests[i]] == Slice(BitsOf(pool.bits[..]), pool.index.value[i], pool.requests[i])
  {
    hide PoolBit, ToNat, Slice;
    BuildIndex(pool);
    RequestInside(pool.requests, i);
    var n := pool.requests[i];
    bits := ReadBitsAtOffset(pool, pool.index.value[i], n);
    assert bits == bits[..n] + bits[n..];
    ToNatPad(bits[..n], 64 - n);
  }

  /** The generator's bits after its first `drawn` words. */
  function Coming(seed: bv64, drawn: nat): Stream {
    (i: nat) => RngBit(seed, 64 * drawn + i)
  }

  /** The same callback without a pool, on a generator with no buffered bits: the other side of pool transparency. */
  method UnpooledAlloc<T(!new)>(prng: Prng, cb: Callback<T>, ghost bound: nat)
    returns (res: T, ghost answers: seq<seq<bool>>)
    requires Ends(cb, bound) && prng.Valid() && prng.bitPool == null && prng.bitsAvailable == 0
    modifies prng`buf, prng`bitsAvailable, prng.rng, prng.rng.mt
    ensures prng.Valid() && prng.rng.seed == old(prng.rng.seed)
    ensures Run(res, answers) == Play(cb, bound, Coming(prng.rng.seed, old(prng.rng.drawn)), [])
    ensures prng.rng.drawn == old(prng.rng.drawn) + WordsFor(Total(answers))
  {
    hide Rng.State, Rng.Output, Unpack, RngBit;
    ghost var s := Coming(prng.rng.seed, prng.rng.drawn);
    forall i: nat ensures prng.Ahead(i) == Later(s, 0, i) {}
    res, answers := RunUnpooled(prng, cb, bound, s);
  }
}
