/**
Running trials (src/theft_run.c, src/theft_trial.c): generate arguments, check and mark them, run the property,
shrink a failure, report it, and free everything again.
*/
module Run {
  import opened Bits
  import opened BloomSpec
  import opened Bloom
  import opened Engine
  import opened Shrink

  datatype GenResult = GEN_OK | GEN_SKIP | GEN_DUP | GEN_ERROR

  datatype StepResult = STEP_OK | STEP_HALT | STEP_GEN_ERROR | STEP_TRIAL_ERROR

  datatype RunResult = RUN_PASS | RUN_FAIL | RUN_SKIP | RUN_ERROR

  /** No argument has an instance or a pool. */
  predicate Blank(args: seq<Slot>) {
    forall i :: 0 <= i < |args| ==> args[i] == Slot(None, None)
  }

  /** How generating `n` arguments ends, if the first alloc call is made in step `start`. */
  function GenFrom(cb: Callbacks, start: nat, n: nat): (r: GenResult)
    ensures r != GEN_DUP
    decreases n
  {
    if n == 0 then GEN_OK else
      match cb.alloc(start).0
      case ALLOC_OK => GenFrom(cb, start + 1, n - 1)
      case ALLOC_SKIP => GEN_SKIP
      case ALLOC_ERROR => GEN_ERROR
  }

  /** How many alloc calls that takes: it stops at the first that does not succeed. */
  function GenSteps(cb: Callbacks, start: nat, n: nat): (r: nat)
    ensures GenFrom(cb, start, n) == GEN_OK ==> r == n
    decreases n
  {
    if n == 0 then 0 else if cb.alloc(start).0 == ALLOC_OK then 1 + GenSteps(cb, start + 1, n - 1) else 1
  }

  /** The arguments that the alloc calls from step `start` on make. */
  function MadeAt(cb: Callbacks, types: seq<ArgType>, start: nat): (r: seq<Content>)
    ensures |r| == |types|
  {
    seq(|types|, i requires 0 <= i < |types| => MadeContent(types[i], cb.alloc(start + i).1))
  }

  /** The alloc call of step `call` succeeded, and made this. */
  predicate Allocated(cb: Callbacks, t: ArgType, call: nat, content: Content) {
    cb.alloc(call).0 == ALLOC_OK && MadeContent(t, cb.alloc(call).1) == content
  }

  /** The first `n` arguments are complete, each made by its alloc call, in order, from step `start` on. */
  ghost predicate GeneratedUpTo(t: Theft, start: nat, n: nat)
    reads t
  {
    && |t.args| == |t.types| && n <= |t.args|
    && (forall i :: 0 <= i < n ==>
          && SlotGenerated(t.types[i], t.args[i], t.instances, t.pools)
          && Allocated(t.cb, t.types[i], start + i, ContentOf(t.args[i], t.instances, t.pools)))
    && (forall i :: n <= i < |t.args| ==> t.args[i] == Slot(None, None))
  }

  /** One call of the alloc callback; a pool is kept even if the callback skips or fails. */
  method GenArg(t: Theft, i: nat, ghost start: nat) returns (res: AllocResult)
    requires t.Owned() && i < |t.types| && GeneratedUpTo(t, start, i) && t.clock == start + i
    modifies t`clock, t`args, t`instances, t`pools, t`nextId, t`looseInstances, t`loosePools
    ensures t.Owned() && t.looseInstances == old(t.looseInstances) && t.loosePools == old(t.loosePools)
    ensures res == t.cb.alloc(old(t.clock)).0 && t.clock == old(t.clock) + 1
    ensures res == ALLOC_OK ==> GeneratedUpTo(t, start, i + 1)
  {
    hide InstancesIn, PoolsIn, OwnedIn;
    var slot;
    res, slot := AllocArg(t, i, start);
    t.Install(i, slot);
  }

  /** What the alloc callback makes, loose for now. */
  method AllocArg(t: Theft, i: nat, ghost start: nat) returns (res: AllocResult, slot: Slot)
    requires t.Owned() && i < |t.types| && GeneratedUpTo(t, start, i) && t.clock == start + i
    modifies t`clock, t`instances, t`pools, t`nextId, t`looseInstances, t`loosePools
    ensures t.Owned() && GeneratedUpTo(t, start, i) && res == t.cb.alloc(old(t.clock)).0 && t.clock == old(t.clock) + 1
    ensures t.looseInstances == old(t.looseInstances) + Ids(slot.instance) && Ids(slot.instance) !! old(t.looseInstances)
    ensures t.loosePools == old(t.loosePools) + Ids(slot.pool) && Ids(slot.pool) !! old(t.loosePools)
    ensures res == ALLOC_OK ==>
      && SlotGenerated(t.types[i], slot, t.instances, t.pools)
      && Allocated(t.cb, t.types[i], start + i, ContentOf(slot, t.instances, t.pools))
  {
    hide InstancesIn, PoolsIn, OwnedIn;
    var response := t.cb.alloc(t.clock);
    t.clock := t.clock + 1;
    res := response.0;
    var made := response.1;
    slot := Slot(None, None);
    if res == ALLOC_OK {
      var id := t.NewInstance(made.value);
      slot := Slot(Some(id), None);
    }
    if t.types[i].autoshrink {
      var id := t.NewPool(made.bits, slot.instance);
      slot := slot.(pool := Some(id));
    }
  }

  /** gen_all_args. Arguments are reported as new only after they have checked false. */
  method GenAllArgs(t: Theft) returns (res: GenResult)
    requires t.Valid() && Blank(t.args)
    modifies t`clock, t`args, t`instances, t`pools, t`nextId, t`looseInstances, t`loosePools
    ensures t.Valid() && t.looseInstances == old(t.looseInstances) && t.loosePools == old(t.loosePools)
    ensures t.clock == old(t.clock) + GenSteps(t.cb, old(t.clock), |t.types|)
    ensures var gen := GenFrom(t.cb, old(t.clock), |t.types|);
      && (gen != GEN_OK ==> res == gen)
      && (gen == GEN_OK ==>
            && t.AllGenerated() && t.Contents() == MadeAt(t.cb, t.types, old(t.clock)) && t.clock == old(t.clock) + |t.types|
            && res == if Check(t.bloom.State(), HashOf(t.cb, t.Contents())) then GEN_DUP else GEN_OK)
  {
    hide Check, HashOf, EachNew, MarkAll, Bloom.Valid, Bloom.State, StateOk, OwnedIn;
    BlankIsGenerated(t);
    for i := 0 to |t.types|
      invariant t.Valid() && t.looseInstances == old(t.looseInstances) && t.loosePools == old(t.loosePools)
      invariant GeneratedUpTo(t, old(t.clock), i) && t.clock == old(t.clock) + i
      invariant GenFrom(t.cb, old(t.clock), |t.types|) == GenFrom(t.cb, old(t.clock) + i, |t.types| - i)
      invariant GenSteps(t.cb, old(t.clock), |t.types|) == i + GenSteps(t.cb, old(t.clock) + i, |t.types| - i)
    {
      var ares := GenArg(t, i, old(t.clock));
      if ares == ALLOC_SKIP {
        return GEN_SKIP;
      } else if ares == ALLOC_ERROR {
        return GEN_ERROR;
      }
    }
    assert t.Contents() == MadeAt(t.cb, t.types, old(t.clock));
    var known := t.CheckCalled();
    res := if known then GEN_DUP else GEN_OK;
  }

  lemma BlankIsGenerated(t: Theft)
    requires t.Owned() && Blank(t.args)
    ensures GeneratedUpTo(t, t.clock, 0)
  {
  }

  /** theft_trial_free_args: frees what the arguments own, each thing once. */
  method FreeArgs(t: Theft)
    requires t.Owned()
    modifies t`args, t`instances, t`pools, t`looseInstances, t`loosePools
    ensures t.Owned() && Blank(t.args)
    ensures NothingLost(t.types, old(t.looseInstances), old(t.loosePools), t.looseInstances, t.loosePools)
  {
    hide InstancesIn, PoolsIn;
    for i := 0 to |t.args|
      invariant t.Owned() && |t.args| == |old(t.args)|
      invariant forall j :: 0 <= j < i ==> t.args[j] == Slot(None, None)
      invariant NothingLost(t.types, old(t.looseInstances), old(t.loosePools), t.looseInstances, t.loosePools)
    {
      FreeArg(t, i);
    }
  }

  method FreeArg(t: Theft, i: nat)
    requires t.Owned() && i < |t.args|
    modifies t`args, t`instances, t`pools, t`looseInstances, t`loosePools
    ensures t.Owned() && t.args == old(t.args)[i := Slot(None, None)]
    ensures NothingLost(t.types, old(t.looseInstances), old(t.loosePools), t.looseInstances, t.loosePools)
  {
    hide InstancesIn, PoolsIn;
    var slot := t.args[i];
    t.Install(i, Slot(None, None));
    if slot.pool.Some? {
      t.FreePool(slot.pool.value);
    }
    t.Release(i, slot.instance);
  }

  // ----- Reporting a failure -----

  /** In each of these steps the property was called again, failed, and the trial hook asked for another call. */
  ghost predicate FailsAgain(cb: Callbacks, values: seq<Value>, from: nat, to: nat) {
    forall n: nat :: from <= n < to ==> cb.prop(n, values) == FAIL && cb.trialPost(n) == REPEAT
  }

  /**
  The calls made again, from step `from` up to `end`. All but the last FAIL. The last decides: a pass or an error is an error, a failure
  leaves it to the hook, and a skip or a duplicate ends the report as if nothing had happened.
  */
  ghost predicate CalledAgain(cb: Callbacks, values: seq<Value>, from: nat, end: nat, res: RepeatResult) {
    && from < end && FailsAgain(cb, values, from, end - 1)
    && match cb.prop(end - 1, values)
       case PASS => res == REPEAT_ERROR
       case ERROR => res == REPEAT_ERROR
       case FAIL => res == cb.trialPost(end - 1) && res != REPEAT
       case _ => res == REPEAT_CONTINUE
  }

  /**
  Reporting a failure from step `first` up to `end`: the counterexample hook, the trial hook, and calls made again for as long as
  the trial hook asks.
  */
  ghost predicate Reported(cb: Callbacks, values: seq<Value>, first: nat, end: nat, res: RepeatResult) {
    if cb.counterexample(first) != POST_CONTINUE then end == first + 1 && res == REPEAT_ERROR
    else if !AsksAgain(cb.trialPost(first + 1)) then end == first + 2 && res == cb.trialPost(first + 1)
    else CalledAgain(cb, values, first + 2, end, res)
  }

  predicate AsksAgain(answer: RepeatResult) {
    answer == REPEAT || answer == REPEAT_ONCE
  }

  /** report_on_failure */
  method ReportOnFailure(t: Theft) returns (res: RepeatResult)
    requires t.AllGenerated() && Patient(t.cb)
    modifies t`clock
    ensures t.AllGenerated() && t.clock > old(t.clock)
    ensures Reported(t.cb, ValuesOf(t.Contents()), old(t.clock), t.clock, res)
  {
    hide CalledAgain, GeneratedIn;
    var told := t.cb.counterexample(t.clock);
    t.clock := t.clock + 1;
    if told != POST_CONTINUE {
      return REPEAT_ERROR;
    }
    res := t.cb.trialPost(t.clock);
    t.clock := t.clock + 1;
    if AsksAgain(res) {
      res := CallAgain(t, res);
    }
  }

  /** Its loop. */
  method CallAgain(t: Theft, asked: RepeatResult) returns (res: RepeatResult)
    requires t.AllGenerated() && Patient(t.cb) && AsksAgain(asked)
    modifies t`clock
    ensures t.AllGenerated() && t.clock > old(t.clock)
    ensures CalledAgain(t.cb, ValuesOf(t.Contents()), old(t.clock), t.clock, res)
  {
    hide GeneratedIn, ValuesOf, ContentsIn;
    ghost var values, from := ValuesOf(t.Contents()), t.clock;
    assert Answers(t.cb.trialPost, t.clock);
    ghost var last: nat :| last >= t.clock && t.cb.trialPost(last) != REPEAT;
    res := asked;
    while res == REPEAT || res == REPEAT_ONCE
      invariant t.AllGenerated() && ValuesOf(t.Contents()) == values && t.clock >= from
      invariant AsksAgain(res) ==> FailsAgain(t.cb, values, from, t.clock) && last >= t.clock && t.cb.trialPost(last) != REPEAT
      invariant !AsksAgain(res) ==> CalledAgain(t.cb, values, from, t.clock, res)
      decreases last - t.clock, AsksAgain(res)
    {
      var args := GetArgs(t);
      var tres := t.cb.prop(t.clock, args);
      t.clock := t.clock + 1;
      if tres == FAIL {
        res := t.cb.trialPost(t.clock - 1);
        if res == REPEAT_ONCE {
          break;
        }
      } else if tres == PASS {
        res := REPEAT_ERROR;   // a failed property passed when it was run again
      } else if tres == ERROR {
        return REPEAT_ERROR;
      } else {
        return REPEAT_CONTINUE;
      }
    }
  }

  /** Was the failure confirmed by every call made again? */
  ghost predicate Confirmed(cb: Callbacks, values: seq<Value>, first: nat, end: nat) {
    forall n: nat :: first + 2 <= n < end ==> cb.prop(n, values) == FAIL
  }

  /** A report that is not an error is unconfirmed if and only if the trial hook asked again and the last of the calls made then skipped or was a duplicate. */
  lemma ContinuesUnconfirmed(cb: Callbacks, values: seq<Value>, first: nat, end: nat, res: RepeatResult)
    requires Reported(cb, values, first, end, res) && res != REPEAT_ERROR
    ensures !Confirmed(cb, values, first, end)
      <==> (cb.trialPost(first + 1) == REPEAT || cb.trialPost(first + 1) == REPEAT_ONCE)
           && (cb.prop(end - 1, values) == SKIP || cb.prop(end - 1, values) == DUP)
    ensures !Confirmed(cb, values, first, end) ==> res == REPEAT_CONTINUE
  {
    if !AsksAgain(cb.trialPost(first + 1)) {
      assert end == first + 2;
    } else if cb.prop(end - 1, values) == FAIL {
      forall n: nat | first + 2 <= n < end ensures cb.prop(n, values) == FAIL {}
    }
  }

  /** The calls made again are those the trial hook asks for: none if it asks for none, and one more for each time it does. */
  lemma ReportedAsAsked(cb: Callbacks, values: seq<Value>, first: nat, end: nat, res: RepeatResult)
    requires Reported(cb, values, first, end, res) && cb.counterexample(first) == POST_CONTINUE
    ensures var told := cb.trialPost(first + 1);
      && (told == REPEAT_CONTINUE || told == REPEAT_ERROR ==> end == first + 2 && res == told)
      && (told == REPEAT || told == REPEAT_ONCE ==> end > first + 2)
    ensures forall n: nat :: first + 2 <= n < end && cb.prop(n, values) == FAIL ==> (cb.trialPost(n) == REPEAT <==> n < end - 1)
    ensures end > first + 2 ==>
      (cb.prop(end - 1, values) == PASS || cb.prop(end - 1, values) == ERROR ==> res == REPEAT_ERROR)
  {
  }

  // ----- One trial -----

  /**
  What shrinking came to: the simplifications kept, what stopped it early, and the step it ended in; the tactics of its last pass,
  the step that pass began in, and the marks at the end.
  */
  datatype Shrinking = Shrinking(path: seq<Commit>, stop: Option<Stop>, end: nat, logs: seq<seq<Tried>>, pass: nat, marks: seq<Word>)

  const NO_SHRINKING: Shrinking := Shrinking([], None, 0, [], 0, [])

  /** theft_shrink succeeds unless an error stopped it. */
  predicate Succeeds(sh: Shrinking) {
    sh.stop.Some? ==> sh.stop.value.ending.Halted?
  }

  /** Shrinking began in step `from` with the arguments `first`. Unless it was stopped, those it left are a local minimum. */
  ghost predicate ShrankFrom(cb: Callbacks, types: seq<ArgType>, first: seq<Content>, from: nat, sh: Shrinking) {
    && LeadsOn(cb, types, first, sh.path, from, sh.end)
    && (sh.stop.Some? ==>
          && (sh.stop.value.ending.Halted? || sh.stop.value.ending.Errored?)
          && StoppedBy(cb, types, After(first, sh.path), sh.stop.value, sh.end))
    && (sh.stop == None ==>
          && from <= sh.pass && |sh.logs| == |types|
          && Minimal(cb, types, After(first, sh.path), sh.marks, sh.logs, sh.pass, sh.end))
  }

  /** The failing case of theft_trial_run. */
  method ShrinkAndReport(t: Theft) returns (ok: bool, tpres: RepeatResult, ghost sh: Shrinking)
    requires t.Valid() && t.AllGenerated()
    modifies t`clock, t`args, t`instances, t`pools, t`nextId, t`looseInstances, t`loosePools, t`marks, t`fail
    modifies t.bloom, t.bloom.Repr
    ensures t.Valid() && t.AllGenerated() && fresh(t.bloom.Repr - old(t.bloom.Repr))
    ensures Steady(t, old(t.looseInstances), old(t.loosePools), old(t.marks))
    ensures ShrankFrom(t.cb, t.types, old(t.Contents()), old(t.clock), sh) && ok == Succeeds(sh)
    ensures old(t.clock) <= sh.end < t.clock && sh.marks == t.marks
    ensures !ok ==> t.clock == sh.end + 1 && tpres == t.cb.trialPost(sh.end)
    ensures t.fail == old(t.fail) + (if ok then 1 else 0)
    ensures ok ==>
      && t.Contents() == After(old(t.Contents()), sh.path)
      && Reported(t.cb, ValuesOf(t.Contents()), sh.end, t.clock, tpres)
  {
    hide Check, HashOf, EachNew, MarkAll, Bloom.Valid, Bloom.State, StateOk, OwnedIn, GeneratedIn, Patient, LeadsOn, StoppedBy, Minimal;
    ghost var path, stop, logs, pass;
    ok, path, stop, logs, pass := ShrinkArgs(t);
    sh := Shrinking(path, stop, t.clock, logs, pass, t.marks);
    if !ok {
      tpres := t.cb.trialPost(t.clock);
      t.clock := t.clock + 1;
      return;
    }
    t.fail := t.fail + 1;
    tpres := ReportOnFailure(t);
  }

  /**
  What follows a result, from step `from` up to `end`: a failure that shrinks is reported, anything else is told to the trial hook. The
  `answer` is the report's or the hook's.
  */
  ghost predicate Concluded(cb: Callbacks, contents: seq<Content>, result: TrialResult, from: nat, sh: Shrinking, end: nat,
                            answer: RepeatResult) {
    if result != FAIL then end == from + 1 && answer == cb.trialPost(from)
    else if !Succeeds(sh) then from <= sh.end && end == sh.end + 1 && answer == cb.trialPost(sh.end)
    else from <= sh.end < end && Reported(cb, ValuesOf(After(contents, sh.path)), sh.end, end, answer)
  }

  /** Does the trial go well? */
  predicate Passes(result: TrialResult, sh: Shrinking, answer: RepeatResult) {
    && answer != REPEAT_ERROR
    && (result == PASS || result == SKIP || (result == FAIL && Succeeds(sh)))
  }

  /**
  theft_trial_run: marks the arguments and runs the property once, in the step that follows. Exactly the counter of its result
  moves, that of a failure only if shrinking succeeds; then what is reported is what shrinking left.
  */
  method TrialRun(t: Theft) returns (ok: bool, tpres: RepeatResult, ghost sh: Shrinking)
    requires t.Valid() && t.AllGenerated() && !Check(t.bloom.State(), HashOf(t.cb, t.Contents()))
    modifies t, t.bloom, t.bloom.Repr
    ensures t.Valid() && fresh(t.bloom.Repr - old(t.bloom.Repr))
    ensures Steady(t, old(t.looseInstances), old(t.loosePools), old(t.marks)) && t.AllGenerated()
    ensures old(t.marks) + [old(HashOf(t.cb, t.Contents()))] <= t.marks && old(t.clock) + 2 <= t.clock
    ensures var result := t.cb.prop(old(t.clock), ValuesOf(old(t.Contents())));
      && Moved(t, old(t.pass), old(t.fail), old(t.skip), old(t.dup), CounterFor(result, sh))
      && t.pass == old(t.pass) + (if result == PASS then 1 else 0) && t.skip == old(t.skip) + (if result == SKIP then 1 else 0)
      && t.fail <= old(t.fail) + (if result == FAIL then 1 else 0) && t.dup == old(t.dup)
      && (result == FAIL ==> ShrankFrom(t.cb, t.types, old(t.Contents()), old(t.clock) + 1, sh) && sh.marks == t.marks)
      && (result != FAIL ==> t.marks == old(t.marks) + [old(HashOf(t.cb, t.Contents()))])
      && Concluded(t.cb, old(t.Contents()), result, old(t.clock) + 1, sh, t.clock, tpres)
      && ok == Passes(result, sh, tpres)
  {
    hide Check, HashOf, EachNew, MarkAll, Bloom.Valid, Bloom.State, StateOk, OwnedIn, GeneratedIn, Patient, ContentsIn;
    hide ShrankFrom, Reported, ValuesOf, NothingLost, Concluded, Passes;
    t.MarkCalled();
    var args := GetArgs(t);
    var tres := t.cb.prop(t.clock, args);
    t.clock := t.clock + 1;
    ok, tpres, sh := ActOn(t, tres);
  }

  /** What is done about the result. */
  method ActOn(t: Theft, tres: TrialResult) returns (ok: bool, tpres: RepeatResult, ghost sh: Shrinking)
    requires t.Valid() && t.AllGenerated()
    modifies t, t.bloom, t.bloom.Repr
    ensures t.Valid() && fresh(t.bloom.Repr - old(t.bloom.Repr))
    ensures Steady(t, old(t.looseInstances), old(t.loosePools), old(t.marks)) && t.AllGenerated()
    ensures old(t.clock) < t.clock && Moved(t, old(t.pass), old(t.fail), old(t.skip), old(t.dup), CounterFor(tres, sh))
    ensures tres == FAIL ==> ShrankFrom(t.cb, t.types, old(t.Contents()), old(t.clock), sh) && sh.marks == t.marks
    ensures tres != FAIL ==> t.marks == old(t.marks)
    ensures Concluded(t.cb, old(t.Contents()), tres, old(t.clock), sh, t.clock, tpres)
    ensures ok == Passes(tres, sh, tpres)
  {
    hide Check, HashOf, EachNew, MarkAll, Bloom.Valid, Bloom.State, StateOk, OwnedIn, GeneratedIn, Patient, ContentsIn;
    hide ShrankFrom, Reported, ValuesOf, NothingLost, Succeeds;
    LosesNothing(t.types, t.looseInstances, t.loosePools);
    sh := NO_SHRINKING;
    match tres {
      case PASS =>
        t.pass := t.pass + 1;
        tpres := t.cb.trialPost(t.clock);
        t.clock := t.clock + 1;
      case FAIL =>
        ok, tpres, sh := ShrinkAndReport(t);
        if !ok {
          return false, tpres, sh;
        }
      case SKIP =>
        t.skip := t.skip + 1;
        tpres := t.cb.trialPost(t.clock);
        t.clock := t.clock + 1;
      case _ =>
        tpres := t.cb.trialPost(t.clock);
        t.clock := t.clock + 1;
        return false, tpres, sh;
    }
    ok := tpres != REPEAT_ERROR;
  }

  lemma LosesNothing(types: seq<ArgType>, looseInstances: set<nat>, loosePools: set<nat>)
    ensures NothingLost(types, looseInstances, loosePools, looseInstances, loosePools)
  {
  }

  // ----- One step of the run -----

  /** The counter that a step moves. */
  datatype Counter = PassCounter | FailCounter | SkipCounter | DupCounter | NoCounter

  /** In a step that begins in `start`, are the arguments generated, new to the filter, and let through by the hook? */
  ghost predicate GetsRun(cb: Callbacks, types: seq<ArgType>, start: nat, marks: seq<Word>) {
    && GenFrom(cb, start, |types|) == GEN_OK
    && !Check(MarkAll(Empty(), marks), HashOf(cb, MadeAt(cb, types, start)))
    && cb.trialPre(start + |types|) == PRE_CONTINUE
  }

  /** What the property says of those arguments, when it is called for the trial. */
  function TrialResultAt(cb: Callbacks, types: seq<ArgType>, start: nat): TrialResult {
    cb.prop(start + |types| + 1, ValuesOf(MadeAt(cb, types, start)))
  }

  /** Which counter a step moves, as a function of the callbacks, the marks before it, and how shrinking ends if it comes to that. */
  ghost function CounterAt(cb: Callbacks, types: seq<ArgType>, start: nat, marks: seq<Word>, sh: Shrinking): Counter {
    var gen := GenFrom(cb, start, |types|);
    if gen == GEN_SKIP then SkipCounter
    else if gen == GEN_ERROR then NoCounter
    else if Check(MarkAll(Empty(), marks), HashOf(cb, MadeAt(cb, types, start))) then DupCounter
    else if !GetsRun(cb, types, start, marks) then NoCounter
    else CounterFor(TrialResultAt(cb, types, start), sh)
  }

  /** The counter of a result. A failure that could not be shrunk for an error is not counted. */
  function CounterFor(result: TrialResult, sh: Shrinking): Counter {
    match result
    case PASS => PassCounter
    case SKIP => SkipCounter
    case FAIL => if Succeeds(sh) then FailCounter else NoCounter
    case _ => NoCounter
  }

  /** A step of the run: the steps of the clock it takes up, the marks before it, its shrinking if any, and the last hook's or report's answer. */
  datatype Trial = Trial(start: nat, end: nat, marks: seq<Word>, sh: Shrinking, answer: RepeatResult)

  /** The arguments are generated, and the filter knows them. */
  ghost predicate GetsKnown(cb: Callbacks, types: seq<ArgType>, start: nat, marks: seq<Word>) {
    GenFrom(cb, start, |types|) == GEN_OK && Check(MarkAll(Empty(), marks), HashOf(cb, MadeAt(cb, types, start)))
  }

  /** When the trial ended, and with which answer. */
  ghost predicate Ended(cb: Callbacks, types: seq<ArgType>, trial: Trial) {
    var start, n := trial.start, |types|;
    if GenFrom(cb, start, n) != GEN_OK || GetsKnown(cb, types, start, trial.marks) then
      var told := start + GenSteps(cb, start, n);
      trial.end == told + 1 && trial.answer == cb.trialPost(told)
    else if !GetsRun(cb, types, start, trial.marks) then trial.end == start + n + 1
    else Concluded(cb, MadeAt(cb, types, start), TrialResultAt(cb, types, start), start + n + 2, trial.sh, trial.end, trial.answer)
  }

  /**
  The trial went by the rules: it ended when and as the callbacks say, a failure was shrunk from the arguments that were generated, and
  only a run marks anything.
  */
  ghost predicate Lawful(cb: Callbacks, types: seq<ArgType>, trial: Trial, marks: seq<Word>) {
    && trial.start < trial.end && Ended(cb, types, trial)
    && if !GetsRun(cb, types, trial.start, trial.marks) then marks == trial.marks
       else
         var marked := trial.marks + [HashOf(cb, MadeAt(cb, types, trial.start))];
         if TrialResultAt(cb, types, trial.start) != FAIL then marks == marked
         else
           && marked <= marks == trial.sh.marks
           && ShrankFrom(cb, types, MadeAt(cb, types, trial.start), trial.start + |types| + 2, trial.sh)
  }

  /** What run_step returns. */
  ghost function ResultAt(cb: Callbacks, types: seq<ArgType>, trial: Trial): StepResult {
    var gen, pre := GenFrom(cb, trial.start, |types|), cb.trialPre(trial.start + |types|);
    if gen == GEN_ERROR then STEP_GEN_ERROR
    else if gen == GEN_SKIP || GetsKnown(cb, types, trial.start, trial.marks) then
      if trial.answer == REPEAT_ERROR then STEP_TRIAL_ERROR else STEP_OK
    else if pre == PRE_HALT then STEP_HALT
    else if pre == PRE_ERROR then STEP_TRIAL_ERROR
    else if Passes(TrialResultAt(cb, types, trial.start), trial.sh, trial.answer) then STEP_OK
    else STEP_TRIAL_ERROR
  }

  /** The step errs: theft_run_trials gives up. */
  ghost predicate ErrsAt(cb: Callbacks, types: seq<ArgType>, trial: Trial) {
    ResultAt(cb, types, trial) == STEP_GEN_ERROR || ResultAt(cb, types, trial) == STEP_TRIAL_ERROR
  }

  // ----- In terms of the callbacks alone -----

  /** The values that `n` alloc calls from step `start` on make. */
  function Generated(cb: Callbacks, start: nat, n: nat): seq<Value> {
    seq(n, i requires 0 <= i < n => cb.alloc(start + i).1.value)
  }

  /** All alloc calls in these steps succeed. */
  predicate AllocWell(cb: Callbacks, from: nat, to: nat) {
    forall q: nat :: from <= q < to ==> cb.alloc(q).0 == ALLOC_OK
  }

  /** The alloc call in step `p` answers so, and those before it succeed. */
  predicate AllocEnds(cb: Callbacks, from: nat, to: nat, p: nat, res: AllocResult) {
    from <= p < to && cb.alloc(p).0 == res && AllocWell(cb, from, p)
  }

  /** The first alloc call in these steps that does not succeed answers so. */
  ghost predicate AllocStops(cb: Callbacks, from: nat, to: nat, res: AllocResult) {
    exists p: nat :: AllocEnds(cb, from, to, p, res)
  }

  lemma StopsLater(cb: Callbacks, from: nat, to: nat, res: AllocResult)
    requires from < to && cb.alloc(from).0 == ALLOC_OK && res != ALLOC_OK
    ensures AllocStops(cb, from, to, res) == AllocStops(cb, from + 1, to, res)
  {
    if p: nat :| AllocEnds(cb, from, to, p, res) {
      assert from != p && AllocEnds(cb, from + 1, to, p, res);
    }
    var next := from + 1;
    if p: nat :| AllocEnds(cb, next, to, p, res) {
      assert AllocEnds(cb, from, to, p, res);
    }
  }

  lemma {:induction false} GenerationMeans(cb: Callbacks, start: nat, n: nat)
    ensures GenFrom(cb, start, n) == GEN_OK <==> AllocWell(cb, start, start + n)
    ensures GenFrom(cb, start, n) == GEN_SKIP <==> AllocStops(cb, start, start + n, ALLOC_SKIP)
    ensures GenFrom(cb, start, n) == GEN_ERROR <==> AllocStops(cb, start, start + n, ALLOC_ERROR)
    decreases n
  {
    if n > 0 {
      GenerationMeans(cb, start + 1, n - 1);
      if cb.alloc(start).0 == ALLOC_OK {
        StopsLater(cb, start, start + n, ALLOC_SKIP);
        StopsLater(cb, start, start + n, ALLOC_ERROR);
      } else {
        assert AllocEnds(cb, start, start + n, start, cb.alloc(start).0);
        assert AllocStops(cb, start, start + n, cb.alloc(start).0);
      }
    }
  }

  /** The trial came to a call of the property, in the step after the hook's, on what the alloc calls made; and this was the result. */
  ghost predicate RanAndGave(cb: Callbacks, types: seq<ArgType>, start: nat, marks: seq<Word>, result: TrialResult) {
    && AllocWell(cb, start, start + |types|)
    && !Check(MarkAll(Empty(), marks), HashOf(cb, MadeAt(cb, types, start)))
    && cb.trialPre(start + |types|) == PRE_CONTINUE
    && cb.prop(start + |types| + 1, Generated(cb, start, |types|)) == result
  }

  /** Which counter a trial moves: each for its own result, and none for another. */
  lemma CounterMeans(cb: Callbacks, types: seq<ArgType>, start: nat, marks: seq<Word>, sh: Shrinking)
    ensures var c, n := CounterAt(cb, types, start, marks, sh), |types|;
      && (c == PassCounter <==> RanAndGave(cb, types, start, marks, PASS))
      && (c == FailCounter <==> RanAndGave(cb, types, start, marks, FAIL) && Succeeds(sh))
      && (c == SkipCounter <==> RanAndGave(cb, types, start, marks, SKIP) || AllocStops(cb, start, start + n, ALLOC_SKIP))
      && (c == DupCounter <==>
            && AllocWell(cb, start, start + n)
            && Check(MarkAll(Empty(), marks), HashOf(cb, MadeAt(cb, types, start))))
  {
    hide Check, HashOf, MarkAll, AllocStops, AllocWell, GenFrom;
    GenerationMeans(cb, start, |types|);
    assert ValuesOf(MadeAt(cb, types, start)) == Generated(cb, start, |types|) by { GeneratedValues(cb, types, start); }
  }

  lemma GeneratedValues(cb: Callbacks, types: seq<ArgType>, start: nat)
    ensures ValuesOf(MadeAt(cb, types, start)) == Generated(cb, start, |types|)
  {
    var a, b := ValuesOf(MadeAt(cb, types, start)), Generated(cb, start, |types|);
    assert forall i :: 0 <= i < |types| ==> a[i] == b[i];
  }

  /** When a trial errs: an alloc call did, the hook before it did, the property or its shrinking did, or the last answer was an error. */
  lemma ErrorStepMeans(cb: Callbacks, types: seq<ArgType>, trial: Trial)
    ensures var start, marks, n := trial.start, trial.marks, |types|;
      var well, known := AllocWell(cb, start, start + n),
                         Check(MarkAll(Empty(), marks), HashOf(cb, MadeAt(cb, types, start)));
      ErrsAt(cb, types, trial) <==>
        || AllocStops(cb, start, start + n, ALLOC_ERROR)
        || (AllocStops(cb, start, start + n, ALLOC_SKIP) && trial.answer == REPEAT_ERROR)
        || (well && known && trial.answer == REPEAT_ERROR)
        || (well && !known && cb.trialPre(start + n) == PRE_ERROR)
        || RanAndGave(cb, types, start, marks, ERROR) || RanAndGave(cb, types, start, marks, DUP)
        || (RanAndGave(cb, types, start, marks, FAIL) && !Succeeds(trial.sh))
        || ((RanAndGave(cb, types, start, marks, PASS) || RanAndGave(cb, types, start, marks, SKIP)
             || RanAndGave(cb, types, start, marks, FAIL)) && trial.answer == REPEAT_ERROR)
  {
    hide Check, HashOf, MarkAll, AllocStops, AllocWell, GenFrom;
    GenerationMeans(cb, trial.start, |types|);
    assert ValuesOf(MadeAt(cb, types, trial.start)) == Generated(cb, trial.start, |types|) by { GeneratedValues(cb, types, trial.start); }
  }

  /** The counters are what they were, but for this one. */
  ghost predicate Moved(t: Theft, pass: nat, fail: nat, skip: nat, dup: nat, c: Counter)
    reads t
  {
    && t.pass == pass + (if c == PassCounter then 1 else 0)
    && t.fail == fail + (if c == FailCounter then 1 else 0)
    && t.skip == skip + (if c == SkipCounter then 1 else 0)
    && t.dup == dup + (if c == DupCounter then 1 else 0)
  }

  /** A step that does not come to a run. */
  lemma NotRun(cb: Callbacks, types: seq<ArgType>, trial: Trial, gres: GenResult)
    requires var gen := GenFrom(cb, trial.start, |types|);
      gres == if GetsKnown(cb, types, trial.start, trial.marks) then GEN_DUP else gen
    requires gres == GEN_OK ==> cb.trialPre(trial.start + |types|) != PRE_CONTINUE && trial.end == trial.start + |types| + 1
    requires gres != GEN_OK ==>
      var told := trial.start + GenSteps(cb, trial.start, |types|); trial.end == told + 1 && trial.answer == cb.trialPost(told)
    ensures Lawful(cb, types, trial, trial.marks)
    ensures CounterAt(cb, types, trial.start, trial.marks, trial.sh)
      == if gres == GEN_SKIP then SkipCounter else if gres == GEN_DUP then DupCounter else NoCounter
    ensures ResultAt(cb, types, trial)
      == if gres == GEN_OK then if cb.trialPre(trial.start + |types|) == PRE_HALT then STEP_HALT else STEP_TRIAL_ERROR
         else if gres == GEN_ERROR then STEP_GEN_ERROR
         else if trial.answer == REPEAT_ERROR then STEP_TRIAL_ERROR
         else STEP_OK
  {
    hide Check, HashOf, MarkAll, MadeAt, GenFrom, GenSteps, ShrankFrom, TrialResultAt, Concluded;
  }

  /** A step that does. */
  lemma WasTried(cb: Callbacks, types: seq<ArgType>, trial: Trial, marks: seq<Word>)
    requires trial.start < trial.end && GetsRun(cb, types, trial.start, trial.marks)
    requires Concluded(cb, MadeAt(cb, types, trial.start), TrialResultAt(cb, types, trial.start), trial.start + |types| + 2, trial.sh,
                       trial.end, trial.answer)
    requires var marked := trial.marks + [HashOf(cb, MadeAt(cb, types, trial.start))];
      if TrialResultAt(cb, types, trial.start) != FAIL then marks == marked
      else
        && marked <= marks == trial.sh.marks
        && ShrankFrom(cb, types, MadeAt(cb, types, trial.start), trial.start + |types| + 2, trial.sh)
    ensures Lawful(cb, types, trial, marks)
    ensures CounterAt(cb, types, trial.start, trial.marks, trial.sh) == CounterFor(TrialResultAt(cb, types, trial.start), trial.sh)
    ensures ResultAt(cb, types, trial)
      == if Passes(TrialResultAt(cb, types, trial.start), trial.sh, trial.answer) then STEP_OK else STEP_TRIAL_ERROR
  {
    hide Check, HashOf, MarkAll, MadeAt, GenFrom, GenSteps, ShrankFrom, TrialResultAt, Concluded, Passes;
  }

  /** A step that goes well moves a counter. */
  lemma WellMoves(cb: Callbacks, types: seq<ArgType>, trial: Trial)
    requires ResultAt(cb, types, trial) == STEP_OK
    ensures CounterAt(cb, types, trial.start, trial.marks, trial.sh) != NoCounter
  {
    hide Check, HashOf, MarkAll, MadeAt, GenFrom, TrialResultAt;
  }

  /** The arguments' share of a step: generate, run, and count. The arguments are still to be freed. */
  method Step(t: Theft) returns (res: StepResult, ghost trial: Trial)
    requires t.Valid() && Blank(t.args)
    modifies t, t.bloom, t.bloom.Repr
    ensures t.Valid() && fresh(t.bloom.Repr - old(t.bloom.Repr))
    ensures Steady(t, old(t.looseInstances), old(t.loosePools), old(t.marks))
    ensures trial.start == old(t.clock) && trial.end == t.clock && trial.marks == old(t.marks)
    ensures Lawful(t.cb, t.types, trial, t.marks)
    ensures var c := CounterAt(t.cb, t.types, trial.start, trial.marks, trial.sh);
      Moved(t, old(t.pass), old(t.fail), old(t.skip), old(t.dup), c) && (res == STEP_OK ==> c != NoCounter)
    ensures res == ResultAt(t.cb, t.types, trial)
  {
    hide Check, HashOf, EachNew, MarkAll, Bloom.Valid, Bloom.State, StateOk, OwnedIn, GeneratedIn, Patient, Blank, ShrankFrom, Reported;
    hide Lawful, CounterAt, ResultAt, GenFrom, GenSteps, MadeAt, ContentsIn;
    ghost var start, marks := t.clock, t.marks;
    var gres := GenAllArgs(t);
    if gres == GEN_OK {
      res, trial := StepGenerated(t, start);
      return;
    }
    var pres := t.cb.trialPost(t.clock);
    t.clock := t.clock + 1;
    trial := Trial(start, t.clock, marks, NO_SHRINKING, pres);
    NotRun(t.cb, t.types, trial, gres);
    match gres {
      case GEN_SKIP => t.skip := t.skip + 1;
      case GEN_DUP => t.dup := t.dup + 1;
      case _ => return STEP_GEN_ERROR, trial;
    }
    res := if pres == REPEAT_ERROR then STEP_TRIAL_ERROR else STEP_OK;
  }

  /** The same, once the arguments are there and new. */
  method StepGenerated(t: Theft, ghost start: nat) returns (res: StepResult, ghost trial: Trial)
    requires t.Valid() && t.AllGenerated() && t.clock == start + |t.types|
    requires GenFrom(t.cb, start, |t.types|) == GEN_OK && t.Contents() == MadeAt(t.cb, t.types, start)
    requires !Check(t.bloom.State(), HashOf(t.cb, t.Contents()))
    modifies t, t.bloom, t.bloom.Repr
    ensures t.Valid() && fresh(t.bloom.Repr - old(t.bloom.Repr))
    ensures Steady(t, old(t.looseInstances), old(t.loosePools), old(t.marks))
    ensures trial.start == start && trial.end == t.clock && trial.marks == old(t.marks)
    ensures Lawful(t.cb, t.types, trial, t.marks)
    ensures var c := CounterAt(t.cb, t.types, trial.start, trial.marks, trial.sh);
      Moved(t, old(t.pass), old(t.fail), old(t.skip), old(t.dup), c) && (res == STEP_OK ==> c != NoCounter)
    ensures res == ResultAt(t.cb, t.types, trial)
  {
    hide Check, HashOf, EachNew, MarkAll, Bloom.Valid, Bloom.State, StateOk, OwnedIn, GeneratedIn, Patient, ShrankFrom, Reported;
    hide Lawful, CounterAt, ResultAt, GenFrom, GenSteps, MadeAt, ContentsIn, ValuesOf;
    ghost var marks := t.marks;
    var tpres := t.cb.trialPre(t.clock);
    t.clock := t.clock + 1;
    if tpres != PRE_CONTINUE {
      trial := Trial(start, t.clock, marks, NO_SHRINKING, REPEAT_CONTINUE);
      NotRun(t.cb, t.types, trial, GEN_OK);
      return if tpres == PRE_HALT then STEP_HALT else STEP_TRIAL_ERROR, trial;
    }
    var ok, pres;
    ghost var sh;
    ok, pres, sh := TrialRun(t);
    trial := Trial(start, t.clock, marks, sh, pres);
    WasTried(t.cb, t.types, trial, t.marks);
    res := if !ok || pres == REPEAT_ERROR then STEP_TRIAL_ERROR else STEP_OK;
    if res == STEP_OK { WellMoves(t.cb, t.types, trial); }
  }

  /**
  run_step. On every path each instance and each pool made in the step is freed exactly once: what is live afterwards is what was
  live before, if every type has a free callback.
  */
  method RunStep(t: Theft) returns (res: StepResult, ghost trial: Trial)
    requires t.Valid() && Blank(t.args)
    modifies t, t.bloom, t.bloom.Repr
    ensures t.Valid() && Blank(t.args) && fresh(t.bloom.Repr - old(t.bloom.Repr))
    ensures t.pools.Keys == old(t.pools.Keys) && old(t.instances.Keys) <= t.instances.Keys
    ensures (forall i :: 0 <= i < |t.types| ==> t.types[i].hasFree) ==> t.instances.Keys == old(t.instances.Keys)
    ensures |t.marks| <= MOST_MARKS
    ensures trial.start == old(t.clock) && trial.end == t.clock && trial.marks == old(t.marks)
    ensures Lawful(t.cb, t.types, trial, t.marks)
    ensures var c := CounterAt(t.cb, t.types, trial.start, trial.marks, trial.sh);
      Moved(t, old(t.pass), old(t.fail), old(t.skip), old(t.dup), c) && (res == STEP_OK ==> c != NoCounter)
    ensures res == ResultAt(t.cb, t.types, trial)
  {
    hide Check, HashOf, EachNew, MarkAll, Bloom.Valid, Bloom.State, StateOk, OwnedIn, Patient, Blank, Lawful, CounterAt, ResultAt;
    OnlyLoose(t);
    res, trial := Step(t);
    ghost var a, p := t.looseInstances, t.loosePools;
    FreeArgs(t);
    SteadyTwice(t.types, old(t.looseInstances), old(t.loosePools), a, p, t.looseInstances, t.loosePools);
    OnlyLoose(t);
    MarksBounded(t);
  }

  /** With blank arguments, everything live is loose. */
  lemma OnlyLoose(t: Theft)
    requires t.Owned() && Blank(t.args)
    ensures t.instances.Keys == t.looseInstances && t.pools.Keys == t.loosePools
  {
    assert InstancesIn(t.args) == {} && PoolsIn(t.args) == {};
  }

  // ----- The whole run -----

  /** A log of lawful trials, each beginning with the step and the marks the one before it ended with. */
  ghost predicate Logged(cb: Callbacks, types: seq<ArgType>, log: seq<Trial>, from: nat, marks: seq<Word>, to: nat, marks': seq<Word>) {
    if log == [] then to == from && marks' == marks else
      var before, trial := log[..|log| - 1], log[|log| - 1];
      && Logged(cb, types, before, from, marks, trial.start, trial.marks)
      && trial.end == to && Lawful(cb, types, trial, marks')
  }

  /** How many of the trials moved this counter. */
  ghost function Tally(cb: Callbacks, types: seq<ArgType>, log: seq<Trial>, c: Counter): nat {
    if log == [] then 0 else
      var before, trial := log[..|log| - 1], log[|log| - 1];
      Tally(cb, types, before, c) + (if CounterAt(cb, types, trial.start, trial.marks, trial.sh) == c then 1 else 0)
  }

  lemma OneMoreTrial(cb: Callbacks, types: seq<ArgType>, log: seq<Trial>, from: nat, marks: seq<Word>, trial: Trial, marks': seq<Word>)
    requires Logged(cb, types, log, from, marks, trial.start, trial.marks) && Lawful(cb, types, trial, marks')
    ensures Logged(cb, types, log + [trial], from, marks, trial.end, marks')
    ensures forall c ::
      (Tally(cb, types, log + [trial], c)
        == Tally(cb, types, log, c) + (if CounterAt(cb, types, trial.start, trial.marks, trial.sh) == c then 1 else 0))
  {
    hide Lawful, CounterAt;
    assert (log + [trial])[..|log|] == log;
  }

  /** The counters are the tally of the trials. */
  ghost predicate Tallied(t: Theft, log: seq<Trial>)
    reads t
  {
    && t.pass == Tally(t.cb, t.types, log, PassCounter)
    && t.fail == Tally(t.cb, t.types, log, FailCounter)
    && t.skip == Tally(t.cb, t.types, log, SkipCounter)
    && t.dup == Tally(t.cb, t.types, log, DupCounter)
  }

  /** A trial that moved a counter, if the counter is not zero. */
  lemma {:induction false} SomeTrial(cb: Callbacks, types: seq<ArgType>, log: seq<Trial>, from: nat, marks: seq<Word>, to: nat,
                                     marks': seq<Word>, c: Counter) returns (k: nat)
    requires Logged(cb, types, log, from, marks, to, marks') && Tally(cb, types, log, c) > 0
    ensures k < |log| && CounterAt(cb, types, log[k].start, log[k].marks, log[k].sh) == c
    ensures from <= log[k].start && log[k].end <= to
    ensures exists after :: Lawful(cb, types, log[k], after)
  {
    hide Lawful, CounterAt;
    var n := |log| - 1;
    LoggedForward(cb, types, log[..n], from, marks, log[n].start, log[n].marks);
    LawfulForward(cb, types, log[n], marks');
    if CounterAt(cb, types, log[n].start, log[n].marks, log[n].sh) == c {
      k := n;
    } else {
      k := SomeTrial(cb, types, log[..n], from, marks, log[n].start, log[n].marks, c);
    }
  }

  lemma {:induction false} LoggedForward(cb: Callbacks, types: seq<ArgType>, log: seq<Trial>, from: nat, marks: seq<Word>, to: nat,
                                         marks': seq<Word>)
    requires Logged(cb, types, log, from, marks, to, marks')
    ensures from <= to
  {
    hide Lawful;
    if log != [] {
      var n := |log| - 1;
      LawfulForward(cb, types, log[n], marks');
      LoggedForward(cb, types, log[..n], from, marks, log[n].start, log[n].marks);
    }
  }

  /** A counter that is zero was moved by no trial. */
  lemma {:induction false} NoTrial(cb: Callbacks, types: seq<ArgType>, log: seq<Trial>, c: Counter, k: nat)
    requires Tally(cb, types, log, c) == 0 && k < |log|
    ensures CounterAt(cb, types, log[k].start, log[k].marks, log[k].sh) != c
    decreases |log|
  {
    hide CounterAt;
    if k < |log| - 1 {
      NoTrial(cb, types, log[..|log| - 1], c, k);
    }
  }

  /** What a verdict says about the calls of the run. */
  ghost predicate VerdictMeans(cb: Callbacks, types: seq<ArgType>, log: seq<Trial>, res: RunResult) {
    match res
    case RUN_FAIL => exists k :: 0 <= k < |log| && Gave(cb, types, log[k], FAIL)
    case RUN_PASS =>
      && (exists k :: 0 <= k < |log| && Gave(cb, types, log[k], PASS))
      && (forall k :: 0 <= k < |log| ==> !Gave(cb, types, log[k], FAIL))
    case RUN_SKIP => forall k :: 0 <= k < |log| ==> !Gave(cb, types, log[k], PASS) && !Gave(cb, types, log[k], FAIL)
    case RUN_ERROR => log != [] && ErrsAt(cb, types, log[|log| - 1])
  }

  /** The property was called for this trial, and gave this. */
  ghost predicate Gave(cb: Callbacks, types: seq<ArgType>, trial: Trial, result: TrialResult) {
    RanAndGave(cb, types, trial.start, trial.marks, result)
  }

  lemma VerdictIsMeant(cb: Callbacks, types: seq<ArgType>, log: seq<Trial>, from: nat, marks: seq<Word>, to: nat, marks': seq<Word>,
                       res: RunResult)
    requires Logged(cb, types, log, from, marks, to, marks')
    requires if log != [] && ErrsAt(cb, types, log[|log| - 1]) then res == RUN_ERROR
             else res == if Tally(cb, types, log, FailCounter) > 0 then RUN_FAIL
                         else if Tally(cb, types, log, PassCounter) > 0 then RUN_PASS else RUN_SKIP
    requires forall k :: 0 <= k < |log| - 1 ==> ResultAt(cb, types, log[k]) == STEP_OK
    ensures VerdictMeans(cb, types, log, res)
  {
    hide Logged, Tally, CounterAt, ErrsAt, RanAndGave, ResultAt;
    if res == RUN_FAIL {
      var k := SomeTrial(cb, types, log, from, marks, to, marks', FailCounter);
      CounterMeans(cb, types, log[k].start, log[k].marks, log[k].sh);
    } else if res != RUN_ERROR {
      if res == RUN_PASS {
        var k := SomeTrial(cb, types, log, from, marks, to, marks', PassCounter);
        CounterMeans(cb, types, log[k].start, log[k].marks, log[k].sh);
        assert Gave(cb, types, log[k], PASS);
      }
      forall k | 0 <= k < |log|
        ensures !Gave(cb, types, log[k], FAIL) && (res == RUN_SKIP ==> !Gave(cb, types, log[k], PASS))
      {
        NoTrial(cb, types, log, FailCounter, k);
        if res == RUN_SKIP { NoTrial(cb, types, log, PassCounter, k); }
        CounterMeans(cb, types, log[k].start, log[k].marks, log[k].sh);
        UnshrunkErrs(cb, types, log[k]);
        WellIsNoError(cb, types, log[k]);
      }
    }
  }

  lemma WellIsNoError(cb: Callbacks, types: seq<ArgType>, trial: Trial)
    ensures ResultAt(cb, types, trial) == STEP_OK ==> !ErrsAt(cb, types, trial)
  {
  }

  lemma UnshrunkErrs(cb: Callbacks, types: seq<ArgType>, trial: Trial)
    ensures Gave(cb, types, trial, FAIL) && !Succeeds(trial.sh) ==> ErrsAt(cb, types, trial)
  {
    hide ErrsAt, RanAndGave, Succeeds;
    ErrorStepMeans(cb, types, trial);
  }

  lemma LawfulForward(cb: Callbacks, types: seq<ArgType>, trial: Trial, marks: seq<Word>)
    requires Lawful(cb, types, trial, marks)
    ensures trial.start < trial.end
  {
  }

  /**
  Soundness of the verdict: if a failure was counted, then in some trial of the run the property failed on the arguments generated for
  it, and it also failed, in a later or the same step of that trial, on the arguments that shrinking left and the run reported. These
  are a local minimum, unless a hook halted shrinking.
  */
  lemma CountedFailureIsReal(cb: Callbacks, types: seq<ArgType>, log: seq<Trial>, from: nat, marks: seq<Word>, to: nat,
                             marks': seq<Word>) returns (k: nat, n: nat)
    requires Logged(cb, types, log, from, marks, to, marks') && Tally(cb, types, log, FailCounter) > 0
    ensures k < |log| && from <= log[k].start < n < log[k].end <= to
    ensures TrialResultAt(cb, types, log[k].start) == FAIL
    ensures var sh, left := log[k].sh, After(MadeAt(cb, types, log[k].start), log[k].sh.path);
      && cb.prop(n, ValuesOf(left)) == FAIL
      && if sh.stop.Some? then sh.stop.value.ending.Halted? && StoppedBy(cb, types, left, sh.stop.value, sh.end)
         else |sh.logs| == |types| && Minimal(cb, types, left, sh.marks, sh.logs, sh.pass, sh.end)
  {
    hide Lawful, CounterAt, Logged, Tally, StoppedBy, Minimal, LeadsOn;
    k := SomeTrial(cb, types, log, from, marks, to, marks', FailCounter);
    var after :| Lawful(cb, types, log[k], after);
    n := FailedTrial(cb, types, log[k], after);
  }

  lemma FailedTrial(cb: Callbacks, types: seq<ArgType>, trial: Trial, marks: seq<Word>) returns (n: nat)
    requires Lawful(cb, types, trial, marks) && CounterAt(cb, types, trial.start, trial.marks, trial.sh) == FailCounter
    ensures trial.start < n < trial.end && TrialResultAt(cb, types, trial.start) == FAIL
    ensures var sh, left := trial.sh, After(MadeAt(cb, types, trial.start), trial.sh.path);
      && cb.prop(n, ValuesOf(left)) == FAIL
      && if sh.stop.Some? then sh.stop.value.ending.Halted? && StoppedBy(cb, types, left, sh.stop.value, sh.end)
         else |sh.logs| == |types| && Minimal(cb, types, left, sh.marks, sh.logs, sh.pass, sh.end)
  {
    hide Check, HashOf, ValuesOf, LeadsOn, StoppedBy, MarkAll, Minimal, Reported, GenFrom, GenSteps;
    var start, sh := trial.start, trial.sh;
    PathFails(cb, types, MadeAt(cb, types, start), sh.path, start + |types| + 2, sh.end, start + |types| + 1);
    n := FailedIn(start + |types| + 1, sh.path);
  }

  /**
  theft_run_trials, from the first trial on. The trials follow each other without a gap, each as generation, the filter, the hooks and
  the property decide; all but the last go well, and the last too unless it errs or halts the run. The run is an error if and only if
  its last trial errs; otherwise the verdict is read off the counters, which are the tally of the trials. Nothing is left behind.
  */
  method RunTrials(t: Theft, trials: nat) returns (res: RunResult, ghost log: seq<Trial>)
    requires t.Valid() && Blank(t.args) && t.pass == t.fail == t.skip == t.dup == 0
    modifies t, t.bloom, t.bloom.Repr
    ensures t.Valid() && Blank(t.args)
    ensures t.pools.Keys == old(t.pools.Keys)
    ensures (forall i :: 0 <= i < |t.types| ==> t.types[i].hasFree) ==> t.instances.Keys == old(t.instances.Keys)
    ensures |t.marks| <= MOST_MARKS && |log| <= trials
    ensures Logged(t.cb, t.types, log, old(t.clock), old(t.marks), t.clock, t.marks) && Tallied(t, log)
    ensures forall k :: 0 <= k < |log| - 1 ==> ResultAt(t.cb, t.types, log[k]) == STEP_OK
    ensures |log| < trials ==> log != [] && ResultAt(t.cb, t.types, log[|log| - 1]) != STEP_OK
    ensures res == RUN_ERROR <==> log != [] && ErrsAt(t.cb, t.types, log[|log| - 1])
    ensures res != RUN_ERROR ==> res == if t.fail > 0 then RUN_FAIL else if t.pass > 0 then RUN_PASS else RUN_SKIP
    ensures VerdictMeans(t.cb, t.types, log, res)
  {
    hide Check, HashOf, EachNew, MarkAll, Bloom.Valid, Bloom.State, StateOk, OwnedIn, Patient, Blank, Logged, Lawful, CounterAt, Tally, ResultAt;
    MarksBounded(t);
    var limit: nat, trial: nat := trials, 0;
    log := [];
    assert Logged(t.cb, t.types, log, t.clock, t.marks, t.clock, t.marks) && Tallied(t, log) by {
      NoTrials(t.cb, t.types, t.clock, t.marks);
    }
    while trial < limit
      invariant |log| == trial <= trials
      invariant forall k :: 0 <= k < |log| - 1 ==> ResultAt(t.cb, t.types, log[k]) == STEP_OK
      invariant if limit == trials && trial <= limit then trial > 0 ==> ResultAt(t.cb, t.types, log[trial - 1]) == STEP_OK
                else limit + 1 == trial && ResultAt(t.cb, t.types, log[limit]) == STEP_HALT
      invariant t.Valid() && Blank(t.args) && fresh(t.bloom.Repr - old(t.bloom.Repr))
      invariant t.pools.Keys == old(t.pools.Keys)
      invariant (forall i :: 0 <= i < |t.types| ==> t.types[i].hasFree) ==> t.instances.Keys == old(t.instances.Keys)
      invariant |t.marks| <= MOST_MARKS
      invariant Logged(t.cb, t.types, log, old(t.clock), old(t.marks), t.clock, t.marks) && Tallied(t, log)
      decreases trials - trial
    {
      var step;
      ghost var now;
      step, now := RunStep(t);
      OneMoreTrial(t.cb, t.types, log, old(t.clock), old(t.marks), now, t.marks);
      log := log + [now];
      match step {
        case STEP_OK =>
        case STEP_HALT => limit := trial;
        case _ =>
          VerdictIsMeant(t.cb, t.types, log, old(t.clock), old(t.marks), t.clock, t.marks, RUN_ERROR);
          return RUN_ERROR, log;
      }
      trial := trial + 1;
    }
    res := if t.fail > 0 then RUN_FAIL else if t.pass > 0 then RUN_PASS else RUN_SKIP;
    VerdictIsMeant(t.cb, t.types, log, old(t.clock), old(t.marks), t.clock, t.marks, res);
  }

  lemma NoTrials(cb: Callbacks, types: seq<ArgType>, at: nat, marks: seq<Word>)
    ensures Logged(cb, types, [], at, marks, at, marks)
    ensures forall c :: Tally(cb, types, [], c) == 0
  {
  }
}
