/**
The shrink loop of src/theft_shrink.c: try a simpler argument, keep it if the property still fails,
go back otherwise, until no argument can be simplified any more.
*/
module Shrink {
  import opened Bits
  import opened BloomSpec
  import opened Bloom
  import opened Engine

  const MAX_TACTICS: nat := 0xFFFF_FFFF

  datatype Outcome = SIMPLIFIED | DEAD_END | FAILED | HALT

  /** How trying a tactic ended. */
  datatype Ending = Halted | Errored | NoMore | Dead | Known(candidate: Content) | NotFailed(candidate: Content) | Kept(candidate: Content)

  /** One tactic that was tried: the steps from `start` up to `end`, and what became of it. */
  datatype Tried = Tried(start: nat, end: nat, ending: Ending)

  function MadeContent(t: ArgType, made: Made): Content {
    Content(made.value, if t.autoshrink then Some(made.bits) else None)
  }

  // ----- One tactic, step by step -----

  /** In every step from `start` on, up to `end`, the hook asked for another call; asking for just one only works the first time. */
  ghost predicate Repeats(hook: nat -> RepeatResult, start: nat, end: nat) {
    forall n: nat :: start <= n < end ==> hook(n) == REPEAT || (n == start && hook(n) == REPEAT_ONCE)
  }

  /** The calls of the property that begin in step `first` go on up to step `last`, and no further. */
  ghost predicate Runs(hook: nat -> RepeatResult, first: nat, last: nat) {
    && first <= last && Repeats(hook, first, last)
    && hook(last) != REPEAT && (hook(last) == REPEAT_ONCE ==> last > first)
  }

  /** The hook decides which call is the last. */
  lemma LastRunIsUnique(hook: nat -> RepeatResult, first: nat, a: nat, b: nat)
    requires Runs(hook, first, a) && Runs(hook, first, b)
    ensures a == b
  {
  }

  /** The result of the last call counts, unless the hook reported an error. */
  predicate Counts(answer: RepeatResult) {
    answer == REPEAT_CONTINUE || answer == REPEAT_ONCE
  }

  /**
  How judging candidate `c` for argument `i` ended. It was in the filter; or the property ran on it from step `first` on,
  and the result of the LAST call decided, if the hook let it count.
  */
  ghost predicate Judged(cb: Callbacks, contents: seq<Content>, i: nat, c: Content, marks: seq<Word>, first: nat, end: nat,
                         ending: Ending)
    requires i < |contents|
  {
    var values := ValuesOf(contents[i := c]);
    match ending
    case Known(x) => x == c && end == first && Check(MarkAll(Empty(), marks), HashOf(cb, contents[i := c]))
    case Errored =>
      && first < end && Runs(cb.shrinkTrialPost, first, end - 1)
      && (!Counts(cb.shrinkTrialPost(end - 1)) || cb.prop(end - 1, values) == DUP || cb.prop(end - 1, values) == ERROR)
    case NotFailed(x) =>
      && x == c && first < end && Runs(cb.shrinkTrialPost, first, end - 1) && Counts(cb.shrinkTrialPost(end - 1))
      && (cb.prop(end - 1, values) == PASS || cb.prop(end - 1, values) == SKIP)
    case Kept(x) =>
      && x == c && first < end && Runs(cb.shrinkTrialPost, first, end - 1) && Counts(cb.shrinkTrialPost(end - 1))
      && cb.prop(end - 1, values) == FAIL
    case _ => false
  }

  /**
  Trying `tactic` on argument `i` of `contents`, in the steps from `start` up to `end`: the hook before, the shrink callback, the hook
  after, and the calls of the property on what was offered.
  */
  ghost predicate Took(cb: Callbacks, t: ArgType, contents: seq<Content>, i: nat, marks: seq<Word>, tactic: nat, tried: Tried)
    requires i < |contents|
  {
    var start, end := tried.start, tried.end;
    var (sres, made) := cb.shrink(start + 1, i, contents[i], tactic);
    var heard := cb.shrinkPre(start) == PRE_CONTINUE && cb.shrinkPost(start + 2) == POST_CONTINUE;
    match tried.ending
    case Halted => cb.shrinkPre(start) == PRE_HALT && end == start + 1
    case NoMore => heard && sres == SHRINK_NO_MORE_TACTICS && end == start + 3
    case Dead => heard && sres == SHRINK_DEAD_END && end == start + 3
    case _ =>
      || (tried.ending == Errored && cb.shrinkPre(start) == PRE_ERROR && end == start + 1)
      || (tried.ending == Errored && cb.shrinkPre(start) == PRE_CONTINUE && end == start + 3
            && (cb.shrinkPost(start + 2) == POST_ERROR || sres == SHRINK_ERROR))
      || (heard && sres == SHRINK_OK && Judged(cb, contents, i, MadeContent(t, made), marks, start + 3, end, tried.ending))
  }

  /** A tactic that came to nothing: a dead end, already known to the filter, or a candidate that did not fail. */
  predicate InVain(ending: Ending) {
    ending.Dead? || ending.Known? || ending.NotFailed?
  }

  /** The tactics 0, 1, 2, ... tried on argument `i`, all of them come to nothing. */
  ghost predicate AllInVain(cb: Callbacks, t: ArgType, contents: seq<Content>, i: nat, marks: seq<Word>, log: seq<Tried>)
    requires i < |contents|
  {
    forall k :: 0 <= k < |log| ==> InVain(log[k].ending) && Took(cb, t, contents, i, marks, k, log[k])
  }

  /** What was logged took up the steps from `from` up to `to`, without a gap. */
  ghost predicate Gapless(log: seq<Tried>, from: nat, to: nat) {
    if log == [] then from == to else
      var n := |log| - 1;
      log[n].start < log[n].end == to && Gapless(log[..n], from, log[n].start)
  }

  lemma {:induction false} GaplessGrows(log: seq<Tried>, from: nat, to: nat)
    requires Gapless(log, from, to)
    ensures from + |log| <= to
  {
    if log != [] {
      GaplessGrows(log[..|log| - 1], from, log[|log| - 1].start);
    }
  }

  /** After those logged, argument `i` has no tactic left: the callback said so, or the tactic number ran out. */
  ghost predicate Exhausted(cb: Callbacks, t: ArgType, contents: seq<Content>, i: nat, log: seq<Tried>, from: nat, to: nat)
    requires i < |contents|
  {
    || (|log| == MAX_TACTICS && Gapless(log, from, to))
    || exists mid: nat :: Gapless(log, from, mid) && Took(cb, t, contents, i, [], |log|, Tried(mid, to, NoMore))
  }

  /** Only a verdict of the filter depends on the marks, and more marks do not change it. */
  lemma TookStays(cb: Callbacks, t: ArgType, contents: seq<Content>, i: nat, marks: seq<Word>, more: seq<Word>, tactic: nat, tried: Tried)
    requires i < |contents| && Took(cb, t, contents, i, marks, tactic, tried)
    requires marks <= more || !tried.ending.Known?
    ensures Took(cb, t, contents, i, more, tactic, tried)
  {
    hide Check, HashOf, MarkAll, Runs, ValuesOf;
    if tried.ending.Known? {
      MoreMarksKeepKnown(marks, more, HashOf(cb, contents[i := tried.ending.candidate]));
    }
  }

  // ----- A known combination stays known -----

  lemma KnownStaysKnown(st: State, h: Word, k: Word)
    requires StateOk(st) && Check(st, h)
    ensures Check(BloomSpec.Mark(st, k), h)
  {
    hide Probes, BlockId;
    if BlockId(h) == BlockId(k) {
      var c := st[BlockId(h)];
      var i :| 0 <= i < |c| && Hits(c[i], h);
      var r := MarkChain(c, k);
      var head := Gen(c[0].size2, c[0].keys + {k});
      if i == 0 {
        HitsMore(c[0], head, h);
        assert r[|r| - |c|] == head && Hits(r[|r| - |c|], h);
      } else {
        assert r[i + (|r| - |c|)] == c[i];
      }
    }
  }

  lemma HitsMore(g: Gen, more: Gen, h: Word)
    requires SizeOk(g) && g.size2 == more.size2 && g.keys <= more.keys && Hits(g, h)
    ensures Hits(more, h)
  {
    hide Probes;
    forall v | v in SetBits(g) ensures v in SetBits(more) {
      var k :| k in g.keys && v in Probes(k, g.size2);
      assert k in more.keys;
    }
  }

  lemma {:induction false} MoreMarksKeepKnown(marks: seq<Word>, more: seq<Word>, h: Word)
    requires marks <= more && Check(MarkAll(Empty(), marks), h)
    ensures Check(MarkAll(Empty(), more), h)
    decreases |more|
  {
    hide Check, BloomSpec.Mark;
    if |more| > |marks| {
      var n := |more| - 1;
      MoreMarksKeepKnown(marks, more[..n], h);
      KnownStaysKnown(MarkAll(Empty(), more[..n]), h, more[n]);
    } else {
      assert marks == more;
    }
  }

  /** What was tried in vain stays so when more is marked. */
  lemma VainStaysVain(cb: Callbacks, t: ArgType, contents: seq<Content>, i: nat, marks: seq<Word>, more: seq<Word>, log: seq<Tried>)
    requires i < |contents| && marks <= more && AllInVain(cb, t, contents, i, marks, log)
    ensures AllInVain(cb, t, contents, i, more, log)
  {
    hide Took;
    forall k | 0 <= k < |log|
      ensures Took(cb, t, contents, i, more, k, log[k])
    {
      TookStays(cb, t, contents, i, marks, more, k, log[k]);
    }
  }

  // ----- From the arguments that failed to those that are left -----

  /** A simplification that was kept: which argument, by which tactic, in which steps, and the arguments it left. */
  datatype Commit = Commit(arg: nat, tactic: nat, start: nat, end: nat, after: seq<Content>)

  function After(first: seq<Content>, path: seq<Commit>): seq<Content> {
    if path == [] then first else path[|path| - 1].after
  }

  /** The last step in which the property failed on the arguments a path leads to. */
  function FailedIn(first: nat, path: seq<Commit>): int {
    if path == [] then first else path[|path| - 1].end - 1
  }

  /** One argument was replaced by what its shrink call offered, and the last call of the property on the result failed. */
  ghost predicate Simplifies(cb: Callbacks, types: seq<ArgType>, before: seq<Content>, c: Commit) {
    && c.arg < |types| == |before| == |c.after| && c.after == before[c.arg := c.after[c.arg]]
    && Took(cb, types[c.arg], before, c.arg, [], c.tactic, Tried(c.start, c.end, Kept(c.after[c.arg])))
  }

  /** The commits follow each other, in the steps from `from` up to `to`. */
  ghost predicate LeadsOn(cb: Callbacks, types: seq<ArgType>, first: seq<Content>, path: seq<Commit>, from: nat, to: nat) {
    if path == [] then from <= to else
      var before, c := path[..|path| - 1], path[|path| - 1];
      LeadsOn(cb, types, first, before, from, c.start) && c.start < c.end <= to && Simplifies(cb, types, After(first, before), c)
  }

  lemma OneMoreCommit(cb: Callbacks, types: seq<ArgType>, first: seq<Content>, path: seq<Commit>, from: nat, to: nat, c: Commit)
    requires LeadsOn(cb, types, first, path, from, to) && to <= c.start < c.end && Simplifies(cb, types, After(first, path), c)
    ensures LeadsOn(cb, types, first, path + [c], from, c.end) && After(first, path + [c]) == c.after
  {
    hide Simplifies;
    assert (path + [c])[..|path|] == path;
    LeadsOnLater(cb, types, first, path, from, to, c.start);
  }

  lemma LeadsOnLater(cb: Callbacks, types: seq<ArgType>, first: seq<Content>, path: seq<Commit>, from: nat, to: nat, later: nat)
    requires LeadsOn(cb, types, first, path, from, to) && to <= later
    ensures LeadsOn(cb, types, first, path, from, later)
  {
    hide Simplifies;
  }

  /** Soundness: if the property failed on the first arguments, it failed on those left, in a step of its own. */
  lemma PathFails(cb: Callbacks, types: seq<ArgType>, first: seq<Content>, path: seq<Commit>, from: nat, to: nat, failed: nat)
    requires LeadsOn(cb, types, first, path, from, to) && failed < from && cb.prop(failed, ValuesOf(first)) == FAIL
    ensures 0 <= FailedIn(failed, path) < to && cb.prop(FailedIn(failed, path), ValuesOf(After(first, path))) == FAIL
    ensures path != [] ==> FailedIn(failed, path) >= from
  {
    hide Runs, ValuesOf;
    if path != [] {
      PathStarts(cb, types, first, path[..|path| - 1], from, path[|path| - 1].start);
    }
  }

  lemma {:induction false} PathStarts(cb: Callbacks, types: seq<ArgType>, first: seq<Content>, path: seq<Commit>, from: nat, to: nat)
    requires LeadsOn(cb, types, first, path, from, to)
    ensures from <= to
  {
    if path != [] {
      PathStarts(cb, types, first, path[..|path| - 1], from, path[|path| - 1].start);
    }
  }

  // ----- Steps on the run's state -----

  /** Live things that no argument owns are as before, except that instances of types without a free callback may pile up. */
  ghost predicate NothingLost(types: seq<ArgType>, looseInstances: set<nat>, loosePools: set<nat>,
                              looseInstances': set<nat>, loosePools': set<nat>) {
    && loosePools' == loosePools && looseInstances <= looseInstances'
    && ((forall i :: 0 <= i < |types| ==> types[i].hasFree) ==> looseInstances' == looseInstances)
  }

  /** Adding or removing loose things leaves the arguments as they are. */
  lemma SlotsUnmoved(types: seq<ArgType>, args: seq<Slot>, instances: map<nat, Value>, pools: map<nat, PoolRec>,
                     instances': map<nat, Value>, pools': map<nat, PoolRec>)
    requires GeneratedIn(types, args, instances, pools)
    requires forall id :: id in InstancesIn(args) ==> id in instances' && (id in instances ==> instances'[id] == instances[id])
    requires forall id :: id in PoolsIn(args) ==> id in pools' && (id in pools ==> pools'[id] == pools[id])
    ensures GeneratedIn(types, args, instances', pools')
    ensures ContentsIn(args, instances', pools') == ContentsIn(args, instances, pools)
  {
    forall i | 0 <= i < |args|
      ensures SlotGenerated(types[i], args[i], instances', pools')
      ensures ContentOf(args[i], instances', pools') == ContentOf(args[i], instances, pools)
    {
      assert SlotGenerated(types[i], args[i], instances, pools);
      assert args[i].instance.value in InstancesIn(args);
      if args[i].pool.Some? { assert args[i].pool.value in PoolsIn(args); }
    }
    assert ContentsIn(args, instances', pools') == ContentsIn(args, instances, pools);
  }

  lemma AllLive(types: seq<ArgType>, args: seq<Slot>, instances: map<nat, Value>, pools: map<nat, PoolRec>,
                looseInstances: set<nat>, loosePools: set<nat>, nextId: nat)
    requires OwnedIn(types, args, instances, pools, looseInstances, loosePools, nextId)
    ensures InstancesIn(args) <= instances.Keys && PoolsIn(args) <= pools.Keys
  {
  }

  /** Frees a loose candidate or a replaced argument: the instance if the type can, and the pool. */
  method Discard(t: Theft, i: nat, slot: Slot)
    requires t.Owned() && t.AllGenerated() && i < |t.types|
    requires slot.instance.Some? ==> slot.instance.value in t.looseInstances
    requires slot.pool.Some? ==> slot.pool.value in t.loosePools
    modifies t`instances, t`pools, t`looseInstances, t`loosePools
    ensures t.Owned() && t.AllGenerated() && t.Contents() == old(t.Contents())
    ensures t.loosePools == old(t.loosePools) - Ids(slot.pool)
    ensures t.looseInstances == old(t.looseInstances) - (if t.types[i].hasFree then Ids(slot.instance) else {})
  {
    hide ContentOf;
    t.Release(i, slot.instance);
    if slot.pool.Some? {
      t.FreePool(slot.pool.value);
    }
    SlotsUnmoved(t.types, t.args, old(t.instances), old(t.pools), t.instances, t.pools);
  }

  /** The shrink callback, or theft_autoshrink_shrink: a candidate, loose for now. */
  method CallShrink(t: Theft, i: nat, tactic: nat) returns (sres: ShrinkResult, candidate: Slot)
    requires t.Owned() && t.AllGenerated() && i < |t.types|
    modifies t`clock, t`instances, t`pools, t`nextId, t`looseInstances, t`loosePools
    ensures t.Owned() && t.AllGenerated() && t.Contents() == old(t.Contents()) && t.clock == old(t.clock) + 1
    ensures sres == t.cb.shrink(old(t.clock), i, old(t.Contents())[i], tactic).0
    ensures sres != SHRINK_OK ==> candidate == Slot(None, None)
    ensures sres == SHRINK_OK ==>
      && SlotGenerated(t.types[i], candidate, t.instances, t.pools)
      && ContentOf(candidate, t.instances, t.pools) == MadeContent(t.types[i], t.cb.shrink(old(t.clock), i, old(t.Contents())[i], tactic).1)
    ensures Ids(candidate.instance) !! old(t.looseInstances) && t.looseInstances == old(t.looseInstances) + Ids(candidate.instance)
    ensures Ids(candidate.pool) !! old(t.loosePools) && t.loosePools == old(t.loosePools) + Ids(candidate.pool)
  {
    hide OwnedIn, InstancesIn, PoolsIn, GeneratedIn;
    AllLive(t.types, t.args, t.instances, t.pools, t.looseInstances, t.loosePools, t.nextId);
    Slots(t, i);
    var response := t.cb.shrink(t.clock, i, ContentOf(t.args[i], t.instances, t.pools), tactic);
    sres := response.0;
    var made := response.1;
    t.clock := t.clock + 1;
    candidate := Slot(None, None);
    if sres == SHRINK_OK {
      var id := t.NewInstance(made.value);
      candidate := Slot(Some(id), None);
      if t.types[i].autoshrink {
        var pool := t.NewPool(made.bits, Some(id));
        candidate := Slot(Some(id), Some(pool));
      }
    }
    SlotsUnmoved(t.types, t.args, old(t.instances), old(t.pools), t.instances, t.pools);
  }

  /** A shrink call, and the hook that hears of it. If the hook reports an error, the candidate is freed again. */
  method CallAndReport(t: Theft, i: nat, tactic: nat) returns (accepted: bool, sres: ShrinkResult, candidate: Slot)
    requires t.Owned() && t.AllGenerated() && i < |t.types|
    modifies t`clock, t`instances, t`pools, t`nextId, t`looseInstances, t`loosePools
    ensures t.Owned() && t.AllGenerated() && t.Contents() == old(t.Contents()) && t.clock == old(t.clock) + 2
    ensures !accepted ==> NothingLost(t.types, old(t.looseInstances), old(t.loosePools), t.looseInstances, t.loosePools)
    ensures accepted <==> t.cb.shrinkPost(old(t.clock) + 1) == POST_CONTINUE
    ensures accepted ==>
      && sres == t.cb.shrink(old(t.clock), i, t.Contents()[i], tactic).0
      && Ids(candidate.instance) !! old(t.looseInstances) && t.looseInstances == old(t.looseInstances) + Ids(candidate.instance)
      && Ids(candidate.pool) !! old(t.loosePools) && t.loosePools == old(t.loosePools) + Ids(candidate.pool)
    ensures accepted && sres != SHRINK_OK ==> candidate == Slot(None, None)
    ensures accepted && sres == SHRINK_OK ==>
      && Pending(t, i, candidate)
      && ContentOf(candidate, t.instances, t.pools) == MadeContent(t.types[i], t.cb.shrink(old(t.clock), i, t.Contents()[i], tactic).1)
  {
    hide OwnedIn, ContentOf, GeneratedIn, ContentsIn;
    sres, candidate := CallShrink(t, i, tactic);
    var post := t.cb.shrinkPost(t.clock);
    t.clock := t.clock + 1;
    accepted := post == POST_CONTINUE;
    if !accepted {
      Discard(t, i, candidate);
    }
  }

  /** Makes a loose instance and pool the argument; what it was becomes loose. */
  method Replace(t: Theft, i: nat, slot: Slot)
    requires t.Owned() && t.AllGenerated() && i < |t.types|
    requires SlotGenerated(t.types[i], slot, t.instances, t.pools)
    requires slot.instance.value in t.looseInstances && (slot.pool.Some? ==> slot.pool.value in t.loosePools)
    modifies t`args, t`looseInstances, t`loosePools
    ensures t.Owned() && t.AllGenerated() && t.args == old(t.args)[i := slot]
    ensures t.Contents() == old(t.Contents())[i := ContentOf(slot, t.instances, t.pools)]
    ensures t.looseInstances == old(t.looseInstances) - Ids(slot.instance) + Ids(old(t.args)[i].instance)
    ensures t.loosePools == old(t.loosePools) - Ids(slot.pool) + Ids(old(t.args)[i].pool)
  {
    hide OwnedIn;
    t.Install(i, slot);
    assert t.Contents() == old(t.Contents())[i := ContentOf(slot, t.instances, t.pools)];
  }

  /** theft_trial_get_args */
  method GetArgs(t: Theft) returns (values: seq<Value>)
    requires t.AllGenerated()
    ensures values == ValuesOf(t.Contents())
  {
    values := [];
    for i := 0 to |t.args|
      invariant values == ValuesOf(t.Contents())[..i]
    {
      assert SlotGenerated(t.types[i], t.args[i], t.instances, t.pools);
      values := values + [t.instances[t.args[i].instance.value]];
    }
  }

  /** The calls of the property on a candidate, repeated as the hook asks. No result means that the hook reported an error. */
  method RunCandidate(t: Theft) returns (res: Option<TrialResult>)
    requires t.AllGenerated() && Patient(t.cb)
    modifies t`clock
    ensures old(t.clock) < t.clock && Runs(t.cb.shrinkTrialPost, old(t.clock), t.clock - 1)
    ensures res.Some? <==> Counts(t.cb.shrinkTrialPost(t.clock - 1))
    ensures res.Some? ==> res.value == t.cb.prop(t.clock - 1, ValuesOf(t.Contents()))
  {
    ghost var values := ValuesOf(t.Contents());
    var repeated := false;
    assert Answers(t.cb.shrinkTrialPost, t.clock);
    ghost var last: nat :| last >= t.clock && t.cb.shrinkTrialPost(last) != REPEAT;
    while true
      invariant t.AllGenerated() && ValuesOf(t.Contents()) == values && old(t.clock) <= t.clock
      invariant Repeats(t.cb.shrinkTrialPost, old(t.clock), t.clock) && (repeated <==> t.clock > old(t.clock))
      invariant last >= t.clock && t.cb.shrinkTrialPost(last) != REPEAT
      decreases !repeated, last - t.clock
    {
      var args := GetArgs(t);
      var result := t.cb.prop(t.clock, args);
      var stpres := t.cb.shrinkTrialPost(t.clock);
      t.clock := t.clock + 1;
      if stpres == REPEAT || (stpres == REPEAT_ONCE && !repeated) {
        if !repeated {
          assert Answers(t.cb.shrinkTrialPost, t.clock);
          last :| last >= t.clock && t.cb.shrinkTrialPost(last) != REPEAT;
        }
        repeated := true;
      } else if stpres == REPEAT_ONCE || stpres == REPEAT_CONTINUE {
        return Some(result);
      } else {
        return None;
      }
    }
  }

  /** A candidate that has just been offered: loose, and complete. */
  ghost predicate Pending(t: Theft, i: nat, candidate: Slot)
    reads t
  {
    && i < |t.types| && SlotGenerated(t.types[i], candidate, t.instances, t.pools)
    && candidate.instance.value in t.looseInstances && (candidate.pool.Some? ==> candidate.pool.value in t.loosePools)
  }

  /** Takes a candidate back: the argument is what it was, and the candidate is gone. */
  method TakeBack(t: Theft, i: nat, current: Slot, ghost before: seq<Content>)
    requires t.Owned() && t.AllGenerated() && Pending(t, i, current)
    requires t.Contents()[i := ContentOf(current, t.instances, t.pools)] == before
    modifies t`args, t`instances, t`pools, t`looseInstances, t`loosePools
    ensures t.Owned() && t.AllGenerated() && t.Contents() == before
    ensures t.loosePools == old(t.loosePools) - Ids(current.pool)
    ensures t.looseInstances == old(t.looseInstances) - Ids(current.instance)
      + (if t.types[i].hasFree then {} else Ids(old(t.args)[i].instance))
  {
    hide OwnedIn, ContentOf, GeneratedIn;
    Slots(t, i);
    var candidate := t.args[i];
    Replace(t, i, current);
    Discard(t, i, candidate);
  }

  lemma Slots(t: Theft, i: nat)
    requires t.Owned() && t.AllGenerated() && i < |t.types|
    ensures |t.args| == |t.types| && SlotGenerated(t.types[i], t.args[i], t.instances, t.pools)
    ensures t.args[i].instance.value !in t.looseInstances
    ensures t.args[i].pool.Some? ==> t.args[i].pool.value !in t.loosePools
  {
  }

  /** Runs the property on an installed candidate. Either it stays and what was there goes, or it goes and that comes back. */
  method RunInstalled(t: Theft, i: nat, current: Slot, ghost before: seq<Content>) returns (done: bool, res: Outcome)
    requires t.Valid() && t.AllGenerated() && Pending(t, i, current)
    requires t.Contents()[i := ContentOf(current, t.instances, t.pools)] == before
    modifies t`clock, t`args, t`instances, t`pools, t`looseInstances, t`loosePools
    ensures t.Valid() && t.AllGenerated() && old(t.clock) < t.clock
    ensures NothingLost(t.types, old(t.looseInstances) - Ids(current.instance), old(t.loosePools) - Ids(current.pool),
      t.looseInstances, t.loosePools)
    ensures Runs(t.cb.shrinkTrialPost, old(t.clock), t.clock - 1)
    // the last call decides
    ensures var result, counts := t.cb.prop(t.clock - 1, ValuesOf(old(t.Contents()))), Counts(t.cb.shrinkTrialPost(t.clock - 1));
      && (!done <==> counts && (result == PASS || result == SKIP))
      && (done && res == SIMPLIFIED <==> counts && result == FAIL)
    ensures t.Contents() == if done then old(t.Contents()) else before
    ensures done ==> res == SIMPLIFIED || res == FAILED
  {
    hide Check, HashOf, EachNew, MarkAll, Patient, OwnedIn, ContentOf, Bloom.Valid, Bloom.State, GeneratedIn, StateOk;
    var result := RunCandidate(t);
    if result == None {
      Discard(t, i, current);
      return true, FAILED;
    }
    if result.value == PASS || result.value == SKIP {
      TakeBack(t, i, current, before);
      return false, FAILED;
    }
    Discard(t, i, current);
    return true, if result.value == FAIL then SIMPLIFIED else FAILED;
  }

  /**
  Try, then commit or revert: the candidate becomes the argument, is looked up in the filter, marked and run. It stays
  if and only if it was new and the last call of the property on it failed (or the attempt is over with an error).
  */
  method JudgeCandidate(t: Theft, i: nat, candidate: Slot, ghost contents: seq<Content>, ghost c: Content)
    returns (done: bool, res: Outcome, ghost ending: Ending)
    requires t.Valid() && t.AllGenerated() && Pending(t, i, candidate)
    requires t.Contents() == contents && ContentOf(candidate, t.instances, t.pools) == c
    modifies t`clock, t`args, t`instances, t`pools, t`looseInstances, t`loosePools, t`marks, t.bloom, t.bloom.Repr
    ensures t.Valid() && t.AllGenerated() && fresh(t.bloom.Repr - old(t.bloom.Repr))
    ensures NothingLost(t.types, old(t.looseInstances) - Ids(candidate.instance), old(t.loosePools) - Ids(candidate.pool),
      t.looseInstances, t.loosePools)
    ensures Judged(t.cb, contents, i, c, old(t.marks), old(t.clock), t.clock, ending)
    ensures Ends(done, res, ending) && !ending.Dead?
    ensures NewlyMarked(t.cb, contents, i, old(t.marks), t.marks, ending)
    ensures InVain(ending) ==> t.Contents() == contents
    ensures ending.Kept? ==> t.Contents() == contents[i := c]
  {
    hide Check, HashOf, EachNew, MarkAll, Patient, OwnedIn, ContentOf, Bloom.Valid, Bloom.State, GeneratedIn, StateOk, InstancesIn, PoolsIn;
    hide ContentsIn, ValuesOf, Runs, Judged, NewlyMarked;
    ghost var marks, first := t.marks, t.clock;
    Slots(t, i);
    var current := t.args[i];
    Replace(t, i, candidate);
    assert t.Contents()[i := contents[i]] == contents;
    var known := t.CheckCalled();
    if known {
      TakeBack(t, i, current, contents);
      WasKnown(t.cb, contents, i, c, marks, first);
      return false, FAILED, Known(c);
    }
    t.MarkCalled();
    done, res := RunInstalled(t, i, current, contents);
    ending := if !done then NotFailed(c) else if res == SIMPLIFIED then Kept(c) else Errored;
    WasRun(t.cb, contents, i, c, marks, first, t.clock, ending);
  }

  lemma WasKnown(cb: Callbacks, contents: seq<Content>, i: nat, c: Content, marks: seq<Word>, first: nat)
    requires i < |contents| && Check(MarkAll(Empty(), marks), HashOf(cb, contents[i := c]))
    ensures Judged(cb, contents, i, c, marks, first, first, Known(c))
    ensures NewlyMarked(cb, contents, i, marks, marks, Known(c))
  {
  }

  lemma WasRun(cb: Callbacks, contents: seq<Content>, i: nat, c: Content, marks: seq<Word>, first: nat, end: nat, ending: Ending)
    requires i < |contents| && !Check(MarkAll(Empty(), marks), HashOf(cb, contents[i := c]))
    requires first < end && Runs(cb.shrinkTrialPost, first, end - 1)
    requires ending == NotFailed(c) || ending == Kept(c) || ending == Errored
    requires var result, counts := cb.prop(end - 1, ValuesOf(contents[i := c])), Counts(cb.shrinkTrialPost(end - 1));
      && (ending == NotFailed(c) <==> counts && (result == PASS || result == SKIP))
      && (ending == Kept(c) <==> counts && result == FAIL)
    ensures Judged(cb, contents, i, c, marks, first, end, ending)
    ensures NewlyMarked(cb, contents, i, marks, marks + [HashOf(cb, contents[i := c])], ending)
  {
  }

  /** A candidate that was run was new to the filter, and is marked; nothing else is. */
  ghost predicate NewlyMarked(cb: Callbacks, contents: seq<Content>, i: nat, marks: seq<Word>, marks': seq<Word>, ending: Ending)
    requires i < |contents|
  {
    match ending
    case NotFailed(c) => Marked(marks, marks', HashOf(cb, contents[i := c]))
    case Kept(c) => Marked(marks, marks', HashOf(cb, contents[i := c]))
    case Errored => marks <= marks'
    case _ => marks' == marks
  }

  ghost predicate Marked(marks: seq<Word>, marks': seq<Word>, h: Word) {
    marks' == marks + [h] && !Check(MarkAll(Empty(), marks), h)
  }

  /** What the source's code paths report for each ending. */
  predicate Ends(done: bool, res: Outcome, ending: Ending) {
    match ending
    case Kept(_) => done && res == SIMPLIFIED
    case NoMore => done && res == DEAD_END
    case Halted => done && res == HALT
    case Errored => done && res == FAILED
    case _ => !done
  }

  /** What an attempt can do to the run: nothing is lost, marks are only added. */
  ghost predicate Steady(t: Theft, looseInstances: set<nat>, loosePools: set<nat>, marks: seq<Word>)
    reads t
  {
    NothingLost(t.types, looseInstances, loosePools, t.looseInstances, t.loosePools) && marks <= t.marks
  }

  lemma JudgedIsTook(cb: Callbacks, t: ArgType, contents: seq<Content>, i: nat, c: Content, marks: seq<Word>, tactic: nat, tried: Tried)
    requires i < |contents| && Judged(cb, contents, i, c, marks, tried.start + 3, tried.end, tried.ending)
    requires cb.shrinkPre(tried.start) == PRE_CONTINUE && cb.shrinkPost(tried.start + 2) == POST_CONTINUE
    requires cb.shrink(tried.start + 1, i, contents[i], tactic).0 == SHRINK_OK
    requires c == MadeContent(t, cb.shrink(tried.start + 1, i, contents[i], tactic).1)
    ensures Took(cb, t, contents, i, marks, tactic, tried)
  {
    hide Judged;
    assert Judged(cb, contents, i, c, marks, tried.start + 3, tried.end, tried.ending);
    assert !(tried.ending.Halted? || tried.ending.NoMore? || tried.ending.Dead?) by {
      JudgedEndings(cb, contents, i, c, marks, tried.start + 3, tried.end, tried.ending);
    }
  }

  lemma JudgedEndings(cb: Callbacks, contents: seq<Content>, i: nat, c: Content, marks: seq<Word>, first: nat, end: nat, ending: Ending)
    requires i < |contents| && Judged(cb, contents, i, c, marks, first, end, ending)
    ensures !(ending.Halted? || ending.NoMore? || ending.Dead?) && first <= end
    ensures ending.Known? || ending.NotFailed? || ending.Kept? ==> ending.candidate == c
  {
  }

  /** The endings without a candidate to judge. */
  lemma NoCandidate(cb: Callbacks, t: ArgType, contents: seq<Content>, i: nat, marks: seq<Word>, tactic: nat, tried: Tried)
    requires i < |contents|
    requires var start, end, sres := tried.start, tried.end, cb.shrink(tried.start + 1, i, contents[i], tactic).0;
      || (end == start + 1 && tried.ending == Halted && cb.shrinkPre(start) == PRE_HALT)
      || (end == start + 1 && tried.ending == Errored && cb.shrinkPre(start) == PRE_ERROR)
      || (end == start + 3 && cb.shrinkPre(start) == PRE_CONTINUE
            && if cb.shrinkPost(start + 2) != POST_CONTINUE || sres == SHRINK_ERROR then tried.ending == Errored
               else (sres == SHRINK_DEAD_END && tried.ending == Dead) || (sres == SHRINK_NO_MORE_TACTICS && tried.ending == NoMore))
    ensures Took(cb, t, contents, i, marks, tactic, tried)
    ensures NewlyMarked(cb, contents, i, marks, marks, tried.ending)
  {
  }

  lemma MarksGrow(cb: Callbacks, contents: seq<Content>, i: nat, marks: seq<Word>, marks': seq<Word>, ending: Ending)
    requires i < |contents| && NewlyMarked(cb, contents, i, marks, marks', ending)
    ensures marks <= marks' && (ending.Kept? ==> |marks| < |marks'|)
  {
  }

  /** The body of the loop over tactics. The ending says all about it: what happened in which step, and what the loop does next. */
  method TryTactic(t: Theft, i: nat, tactic: nat) returns (done: bool, res: Outcome, ghost ending: Ending)
    requires t.Valid() && t.AllGenerated() && i < |t.types|
    modifies t`clock, t`args, t`instances, t`pools, t`nextId, t`looseInstances, t`loosePools, t`marks, t.bloom, t.bloom.Repr
    ensures t.Valid() && t.AllGenerated() && fresh(t.bloom.Repr - old(t.bloom.Repr))
    ensures Steady(t, old(t.looseInstances), old(t.loosePools), old(t.marks))
    ensures old(t.clock) < t.clock && Ends(done, res, ending)
    ensures Took(t.cb, t.types[i], old(t.Contents()), i, old(t.marks), tactic, Tried(old(t.clock), t.clock, ending))
    ensures ending.Kept? ==> t.Contents() == old(t.Contents())[i := ending.candidate]
    ensures !ending.Kept? && !ending.Errored? ==> t.Contents() == old(t.Contents())
    ensures NewlyMarked(t.cb, old(t.Contents()), i, old(t.marks), t.marks, ending)
  {
    hide Check, HashOf, EachNew, MarkAll, Patient, OwnedIn, ContentOf, Bloom.Valid, Bloom.State, GeneratedIn, StateOk;
    hide Judged, ValuesOf, ContentsIn, InstancesIn, PoolsIn, Took, NewlyMarked;
    ghost var start, contents, marks := t.clock, t.Contents(), t.marks;
    var pre := t.cb.shrinkPre(t.clock);
    t.clock := t.clock + 1;
    if pre != PRE_CONTINUE {
      ending := if pre == PRE_HALT then Halted else Errored;
      NoCandidate(t.cb, t.types[i], contents, i, marks, tactic, Tried(start, t.clock, ending));
      return true, if pre == PRE_HALT then HALT else FAILED, ending;
    }
    done, res, ending := TryTold(t, i, tactic, contents, start);
  }

  /** The same, once the hook before has agreed. */
  method TryTold(t: Theft, i: nat, tactic: nat, ghost contents: seq<Content>, ghost start: nat)
    returns (done: bool, res: Outcome, ghost ending: Ending)
    requires t.Valid() && t.AllGenerated() && i < |t.types|
    requires t.Contents() == contents && t.clock == start + 1 && t.cb.shrinkPre(start) == PRE_CONTINUE
    modifies t`clock, t`args, t`instances, t`pools, t`nextId, t`looseInstances, t`loosePools, t`marks, t.bloom, t.bloom.Repr
    ensures t.Valid() && t.AllGenerated() && fresh(t.bloom.Repr - old(t.bloom.Repr))
    ensures Steady(t, old(t.looseInstances), old(t.loosePools), old(t.marks))
    ensures start < t.clock && Ends(done, res, ending)
    ensures Took(t.cb, t.types[i], contents, i, old(t.marks), tactic, Tried(start, t.clock, ending))
    ensures ending.Kept? ==> t.Contents() == contents[i := ending.candidate]
    ensures !ending.Kept? && !ending.Errored? ==> t.Contents() == contents
    ensures NewlyMarked(t.cb, contents, i, old(t.marks), t.marks, ending)
  {
    hide Check, HashOf, EachNew, MarkAll, Patient, OwnedIn, ContentOf, Bloom.Valid, Bloom.State, GeneratedIn, StateOk;
    hide Judged, ValuesOf, ContentsIn, InstancesIn, PoolsIn, Took, NewlyMarked;
    ghost var marks := t.marks;
    var accepted, sres, candidate := CallAndReport(t, i, tactic);
    if !accepted || sres != SHRINK_OK {
      ending := if !accepted || sres == SHRINK_ERROR then Errored else if sres == SHRINK_DEAD_END then Dead else NoMore;
      NoCandidate(t.cb, t.types[i], contents, i, marks, tactic, Tried(start, t.clock, ending));
    }
    if !accepted {
      return true, FAILED, ending;
    }
    match sres {
      case SHRINK_DEAD_END => return false, FAILED, ending;
      case SHRINK_NO_MORE_TACTICS => return true, DEAD_END, ending;
      case SHRINK_ERROR => return true, FAILED, ending;
      case SHRINK_OK =>
    }
    assert t.looseInstances - Ids(candidate.instance) == old(t.looseInstances);
    assert t.loosePools - Ids(candidate.pool) == old(t.loosePools);
    done, res, ending := JudgeOffered(t, i, tactic, candidate, contents, start);
  }

  /** The same, from an offered candidate on. */
  method JudgeOffered(t: Theft, i: nat, ghost tactic: nat, candidate: Slot, ghost contents: seq<Content>, ghost start: nat)
    returns (done: bool, res: Outcome, ghost ending: Ending)
    requires t.Valid() && t.AllGenerated() && Pending(t, i, candidate) && t.Contents() == contents && t.clock == start + 3
    requires t.cb.shrinkPre(start) == PRE_CONTINUE && t.cb.shrinkPost(start + 2) == POST_CONTINUE
    requires t.cb.shrink(start + 1, i, contents[i], tactic).0 == SHRINK_OK
    requires ContentOf(candidate, t.instances, t.pools) == MadeContent(t.types[i], t.cb.shrink(start + 1, i, contents[i], tactic).1)
    modifies t`clock, t`args, t`instances, t`pools, t`looseInstances, t`loosePools, t`marks, t.bloom, t.bloom.Repr
    ensures t.Valid() && t.AllGenerated() && fresh(t.bloom.Repr - old(t.bloom.Repr))
    ensures NothingLost(t.types, old(t.looseInstances) - Ids(candidate.instance), old(t.loosePools) - Ids(candidate.pool),
      t.looseInstances, t.loosePools)
    ensures start < t.clock && Ends(done, res, ending) && !ending.Dead? && !ending.NoMore? && !ending.Halted?
    ensures Took(t.cb, t.types[i], contents, i, old(t.marks), tactic, Tried(start, t.clock, ending))
    ensures NewlyMarked(t.cb, contents, i, old(t.marks), t.marks, ending) && old(t.marks) <= t.marks
    ensures InVain(ending) ==> t.Contents() == contents
    ensures ending.Kept? ==> t.Contents() == contents[i := ending.candidate]
  {
    hide Check, HashOf, EachNew, MarkAll, Patient, OwnedIn, ContentOf, Bloom.Valid, Bloom.State, GeneratedIn, StateOk;
    hide Judged, ValuesOf, ContentsIn, InstancesIn, PoolsIn, NothingLost, NewlyMarked, Took, Ids, SlotGenerated;
    ghost var c, marks := MadeContent(t.types[i], t.cb.shrink(start + 1, i, contents[i], tactic).1), t.marks;
    done, res, ending := JudgeCandidate(t, i, candidate, contents, c);
    JudgedEndings(t.cb, contents, i, c, marks, start + 3, t.clock, ending);
    JudgedIsTook(t.cb, t.types[i], contents, i, c, marks, tactic, Tried(start, t.clock, ending));
    MarksGrow(t.cb, contents, i, marks, t.marks, ending);
  }

  /**
  attempt_to_shrink_arg. Tactics 0, 1, 2, ... are tried on the same arguments, one right after the other, until one does not come to
  nothing; how that one ends is what the attempt reports. It is a dead end also if the tactic number runs out.
  */
  method AttemptToShrinkArg(t: Theft, i: nat) returns (res: Outcome, ghost log: seq<Tried>, ghost mid: nat, ghost ending: Ending)
    requires t.Valid() && t.AllGenerated() && i < |t.types|
    modifies t`clock, t`args, t`instances, t`pools, t`nextId, t`looseInstances, t`loosePools, t`marks, t.bloom, t.bloom.Repr
    ensures t.Valid() && t.AllGenerated() && fresh(t.bloom.Repr - old(t.bloom.Repr))
    ensures Steady(t, old(t.looseInstances), old(t.loosePools), old(t.marks))
    ensures old(t.clock) <= mid <= t.clock && Gapless(log, old(t.clock), mid)
    ensures AllInVain(t.cb, t.types[i], old(t.Contents()), i, t.marks, log)
    ensures |log| == MAX_TACTICS ==> res == DEAD_END && mid == t.clock && t.Contents() == old(t.Contents())
    ensures |log| != MAX_TACTICS ==>
      && Ends(true, res, ending) && mid < t.clock
      && Took(t.cb, t.types[i], old(t.Contents()), i, [], |log|, Tried(mid, t.clock, ending))
    ensures res == SIMPLIFIED ==>
      ending.Kept? && t.Contents() == old(t.Contents())[i := ending.candidate] && |t.marks| > |old(t.marks)|
    ensures res == DEAD_END || res == HALT ==> t.Contents() == old(t.Contents())
  {
    hide Check, HashOf, EachNew, MarkAll, Patient, OwnedIn, ContentOf, Bloom.Valid, Bloom.State, GeneratedIn, StateOk, Took;
    ghost var contents := t.Contents();
    log, mid, ending := [], t.clock, Dead;
    var tactic := 0;
    while tactic < MAX_TACTICS
      invariant tactic == |log| <= MAX_TACTICS && mid == t.clock
      invariant t.Valid() && t.AllGenerated() && fresh(t.bloom.Repr - old(t.bloom.Repr))
      invariant Steady(t, old(t.looseInstances), old(t.loosePools), old(t.marks))
      invariant t.Contents() == contents
      invariant AllInVain(t.cb, t.types[i], contents, i, t.marks, log) && Gapless(log, old(t.clock), mid)
    {
      ghost var before := t.marks;
      var done;
      done, res, ending := TryTactic(t, i, tactic);
      ghost var tried := Tried(mid, t.clock, ending);
      GaplessGrows(log, old(t.clock), mid);
      VainStaysVain(t.cb, t.types[i], contents, i, before, t.marks, log);
      MarksGrow(t.cb, contents, i, before, t.marks, ending);
      if done {
        TookStays(t.cb, t.types[i], contents, i, before, [], tactic, tried);
        return;
      }
      TookStays(t.cb, t.types[i], contents, i, before, t.marks, tactic, tried);
      assert (log + [tried])[..|log|] == log;
      log, mid := log + [tried], t.clock;
      tactic := tactic + 1;
    }
    GaplessGrows(log, old(t.clock), mid);
    return DEAD_END, log, mid, ending;
  }

  // ----- The whole loop -----

  predicate CanShrink(t: ArgType) {
    t.shrinks || t.autoshrink
  }

  /** Everything was tried on argument `i` in vain, in steps between `from` and `to`. */
  ghost predicate Hopeless(cb: Callbacks, t: ArgType, contents: seq<Content>, i: nat, marks: seq<Word>, log: seq<Tried>, from: nat, to: nat)
    requires i < |contents|
  {
    && AllInVain(cb, t, contents, i, marks, log)
    && exists a: nat, b: nat :: from <= a && b <= to && Exhausted(cb, t, contents, i, log, a, b)
  }

  lemma NothingLeft(cb: Callbacks, t: ArgType, contents: seq<Content>, i: nat, marks: seq<Word>, log: seq<Tried>,
                    start: nat, mid: nat, to: nat, ending: Ending, from: nat)
    requires i < |contents| && AllInVain(cb, t, contents, i, marks, log) && Gapless(log, start, mid) && from <= start
    requires |log| == MAX_TACTICS ==> mid == to
    requires |log| != MAX_TACTICS ==> ending.NoMore? && Took(cb, t, contents, i, [], |log|, Tried(mid, to, ending))
    ensures Hopeless(cb, t, contents, i, marks, log, from, to)
  {
    hide AllInVain, Gapless, Took;
    assert Exhausted(cb, t, contents, i, log, start, to);
  }

  /** For each of the first arguments, as many as there are logs: if it can be shrunk at all, everything was tried on it in vain. */
  ghost predicate Minimal(cb: Callbacks, types: seq<ArgType>, contents: seq<Content>, marks: seq<Word>, logs: seq<seq<Tried>>,
                          from: nat, to: nat) {
    && |logs| <= |types| == |contents|
    && forall i :: 0 <= i < |logs| && CanShrink(types[i]) ==> Hopeless(cb, types[i], contents, i, marks, logs[i], from, to)
  }

  lemma HopelessStays(cb: Callbacks, t: ArgType, contents: seq<Content>, i: nat, marks: seq<Word>, more: seq<Word>,
                      log: seq<Tried>, from: nat, to: nat, from': nat, to': nat)
    requires i < |contents| && Hopeless(cb, t, contents, i, marks, log, from, to) && marks <= more && from' <= from && to <= to'
    ensures Hopeless(cb, t, contents, i, more, log, from', to')
  {
    hide AllInVain, Exhausted;
    VainStaysVain(cb, t, contents, i, marks, more, log);
  }

  lemma MinimalStays(cb: Callbacks, types: seq<ArgType>, contents: seq<Content>, marks: seq<Word>, more: seq<Word>,
                     logs: seq<seq<Tried>>, from: nat, to: nat, later: nat)
    requires Minimal(cb, types, contents, marks, logs, from, to) && marks <= more && to <= later
    ensures Minimal(cb, types, contents, more, logs, from, later)
  {
    hide Hopeless;
    forall i | 0 <= i < |logs| && CanShrink(types[i])
      ensures Hopeless(cb, types[i], contents, i, more, logs[i], from, later)
    {
      HopelessStays(cb, types[i], contents, i, marks, more, logs[i], from, to, from, later);
    }
  }

  const MOST_MARKS: nat := 512 * 512

  /** A run that is disciplined has a bounded number of marks. */
  lemma MarksBounded(t: Theft)
    requires t.Disciplined()
    ensures |t.marks| <= MOST_MARKS
  {
    AtMost2To18Marks(t.marks);
  }

  lemma SteadyTwice(types: seq<ArgType>, a: set<nat>, p: set<nat>, a': set<nat>, p': set<nat>, a'': set<nat>, p'': set<nat>)
    requires NothingLost(types, a, p, a', p') && NothingLost(types, a', p', a'', p'')
    ensures NothingLost(types, a, p, a'', p'')
  {
  }

  /** Where shrinking stopped before it was done: which tactic, tried from which step on, and how that ended. */
  datatype Stop = Stop(arg: nat, tactic: nat, start: nat, ending: Ending)

  /** It was that tactic, on these arguments, and it is what ended in step `to`. */
  ghost predicate StoppedBy(cb: Callbacks, types: seq<ArgType>, contents: seq<Content>, stop: Stop, to: nat) {
    && stop.arg < |types| == |contents|
    && Took(cb, types[stop.arg], contents, stop.arg, [], stop.tactic, Tried(stop.start, to, stop.ending))
  }

  /**
  The greedy part: simplifies one argument for as long as that makes progress. `path` is how these arguments came about, from those
  shrinking began with; each success adds to it.
  */
  method ShrinkGreedily(t: Theft, i: nat, ghost first: seq<Content>, ghost had: seq<Commit>, ghost from: nat)
    returns (res: Outcome, progress: bool, ghost path: seq<Commit>, ghost log: seq<Tried>, ghost stop: Stop)
    requires t.Valid() && t.AllGenerated() && i < |t.types|
    requires LeadsOn(t.cb, t.types, first, had, from, t.clock) && t.Contents() == After(first, had)
    modifies t`clock, t`args, t`instances, t`pools, t`nextId, t`looseInstances, t`loosePools, t`marks, t.bloom, t.bloom.Repr
    ensures t.Valid() && t.AllGenerated() && fresh(t.bloom.Repr - old(t.bloom.Repr))
    ensures Steady(t, old(t.looseInstances), old(t.loosePools), old(t.marks))
    ensures LeadsOn(t.cb, t.types, first, path, from, t.clock) && had <= path && (progress <==> path != had)
    ensures progress ==> |t.marks| > |old(t.marks)|
    ensures old(t.clock) <= t.clock
    ensures res == DEAD_END || res == HALT || res == FAILED
    ensures res != FAILED ==> t.Contents() == After(first, path)
    ensures res == DEAD_END ==> Hopeless(t.cb, t.types[i], t.Contents(), i, t.marks, log, old(t.clock), t.clock)
    ensures res == HALT ==> stop.ending.Halted? && StoppedBy(t.cb, t.types, After(first, path), stop, t.clock)
    ensures res == FAILED ==> stop.ending.Errored? && StoppedBy(t.cb, t.types, After(first, path), stop, t.clock)
  {
    hide Check, HashOf, EachNew, MarkAll, Patient, OwnedIn, ContentOf, Bloom.Valid, Bloom.State, GeneratedIn, StateOk;
    hide AllInVain, Took, Gapless, LeadsOn;
    progress, path, log, stop := false, had, [], Stop(i, 0, 0, Dead);
    while true
      invariant t.Valid() && t.AllGenerated() && fresh(t.bloom.Repr - old(t.bloom.Repr))
      invariant Steady(t, old(t.looseInstances), old(t.loosePools), old(t.marks))
      invariant LeadsOn(t.cb, t.types, first, path, from, t.clock) && had <= path && (progress <==> path != had)
      invariant t.Contents() == After(first, path)
      invariant progress ==> |t.marks| > |old(t.marks)|
      invariant old(t.clock) <= t.clock
      decreases MOST_MARKS - |t.marks|
    {
      ghost var a, p, start, contents := t.looseInstances, t.loosePools, t.clock, t.Contents();
      ghost var mid, ending;
      res, log, mid, ending := AttemptToShrinkArg(t, i);
      SteadyTwice(t.types, old(t.looseInstances), old(t.loosePools), a, p, t.looseInstances, t.loosePools);
      MarksBounded(t);
      stop := Stop(i, |log|, mid, ending);
      if res == DEAD_END { NothingLeft(t.cb, t.types[i], contents, i, t.marks, log, start, mid, t.clock, ending, old(t.clock)); }
      if res != SIMPLIFIED {
        LeadsOnLater(t.cb, t.types, first, path, from, start, t.clock);
        return;
      }
      ghost var c := Commit(i, |log|, mid, t.clock, t.Contents());
      OneMoreCommit(t.cb, t.types, first, path, from, start, c);
      path := path + [c];
      progress := true;
    }
  }

  /**
  theft_shrink. It ends for every shrink callback, because each step of progress is a new mark and a filter has room for only so
  many. The arguments left are those it began with, changed by one kept simplification after the other (`PathFails`: so the property
  failed on them). They are a local minimum unless a hook halted shrinking: every candidate offered for them in the final pass was
  a dead end, was already in the filter, or did not fail. If it returns false, it is an error that stopped it.
  */
  method ShrinkArgs(t: Theft)
    returns (ok: bool, ghost path: seq<Commit>, ghost stop: Option<Stop>, ghost logs: seq<seq<Tried>>, ghost pass: nat)
    requires t.Valid() && t.AllGenerated()
    modifies t`clock, t`args, t`instances, t`pools, t`nextId, t`looseInstances, t`loosePools, t`marks, t.bloom, t.bloom.Repr
    ensures t.Valid() && t.AllGenerated() && fresh(t.bloom.Repr - old(t.bloom.Repr))
    ensures Steady(t, old(t.looseInstances), old(t.loosePools), old(t.marks))
    ensures LeadsOn(t.cb, t.types, old(t.Contents()), path, old(t.clock), t.clock)
    ensures ok ==> t.Contents() == After(old(t.Contents()), path)
    ensures old(t.clock) <= pass <= t.clock
    ensures ok && stop == None ==> |logs| == |t.types| && Minimal(t.cb, t.types, t.Contents(), t.marks, logs, pass, t.clock)
    // an argument can be shrunk if its type has a shrink callback or autoshrinks
    ensures ok && stop == None ==>
      forall i :: 0 <= i < |t.types| && (t.types[i].shrinks || t.types[i].autoshrink) ==>
        Hopeless(t.cb, t.types[i], t.Contents(), i, t.marks, logs[i], pass, t.clock)
    ensures !ok ==> stop.Some? && stop.value.ending.Errored?
    ensures ok && stop.Some? ==> stop.value.ending.Halted?
    ensures stop.Some? ==> StoppedBy(t.cb, t.types, After(old(t.Contents()), path), stop.value, t.clock)
  {
    hide Check, HashOf, EachNew, MarkAll, Patient, OwnedIn, ContentOf, Bloom.Valid, Bloom.State, GeneratedIn, StateOk;
    hide Hopeless, LeadsOn, Took, StoppedBy;
    ghost var first := t.Contents();
    path, stop, logs, pass := [], None, [], t.clock;
    assert LeadsOn(t.cb, t.types, first, path, old(t.clock), t.clock) by { NoCommits(t.cb, t.types, first, t.clock); }
    var progress := true;
    while progress
      invariant t.Valid() && t.AllGenerated() && fresh(t.bloom.Repr - old(t.bloom.Repr))
      invariant Steady(t, old(t.looseInstances), old(t.loosePools), old(t.marks))
      invariant LeadsOn(t.cb, t.types, first, path, old(t.clock), t.clock) && t.Contents() == After(first, path)
      invariant !progress ==> |logs| == |t.types| && Minimal(t.cb, t.types, t.Contents(), t.marks, logs, pass, t.clock)
      invariant old(t.clock) <= pass <= t.clock
      decreases MOST_MARKS - |t.marks|, progress
    {
      progress, logs, pass := false, [], t.clock;
      ghost var contents, marked := t.Contents(), |t.marks|;
      for i := 0 to |t.types|
        invariant t.Valid() && t.AllGenerated() && fresh(t.bloom.Repr - old(t.bloom.Repr))
        invariant Steady(t, old(t.looseInstances), old(t.loosePools), old(t.marks))
        invariant LeadsOn(t.cb, t.types, first, path, old(t.clock), t.clock) && t.Contents() == After(first, path)
        invariant |t.marks| >= marked && (progress ==> |t.marks| > marked)
        invariant !progress ==>
          && t.Contents() == contents && |logs| == i
          && Minimal(t.cb, t.types, contents, t.marks, logs, pass, t.clock)
        invariant old(t.clock) <= pass <= t.clock
      {
        ghost var log: seq<Tried> := [];
        if CanShrink(t.types[i]) {
          ghost var a, p, before, start := t.looseInstances, t.loosePools, t.marks, t.clock;
          var res, more;
          ghost var on, at;
          res, more, on, log, at := ShrinkGreedily(t, i, first, path, old(t.clock));
          path := on;
          SteadyTwice(t.types, old(t.looseInstances), old(t.loosePools), a, p, t.looseInstances, t.loosePools);
          if res == HALT {
            return true, path, Some(at), logs, pass;
          } else if res == FAILED {
            return false, path, Some(at), logs, pass;
          }
          if !progress {
            MinimalStays(t.cb, t.types, contents, before, t.marks, logs, pass, start, t.clock);
            if !more { HopelessStays(t.cb, t.types[i], contents, i, t.marks, t.marks, log, start, t.clock, pass, t.clock); }
          }
          progress := progress || more;
        }
        logs := logs + [log];
      }
      MarksBounded(t);
    }
    return true, path, None, logs, pass;
  }

  lemma NoCommits(cb: Callbacks, types: seq<ArgType>, first: seq<Content>, at: nat)
    ensures LeadsOn(cb, types, first, [], at, at)
  {
  }

  /**
  For a deterministic property: the arguments that shrinking leaves fail on every call, and no candidate that was offered for them
  and run fails on any call.
  */
  lemma DeterministicLocalMinimum(cb: Callbacks, types: seq<ArgType>, first: seq<Content>, failed: nat, path: seq<Commit>,
                                  start: nat, marks: seq<Word>, logs: seq<seq<Tried>>, pass: nat, to: nat, i: nat, k: nat, n: nat)
    requires Deterministic(cb) && failed < start && cb.prop(failed, ValuesOf(first)) == FAIL
    requires LeadsOn(cb, types, first, path, start, to) && Minimal(cb, types, After(first, path), marks, logs, pass, to)
    requires i < |logs| && CanShrink(types[i]) && k < |logs[i]|
    ensures cb.prop(n, ValuesOf(After(first, path))) == FAIL
    ensures var contents := After(first, path);
      match logs[i][k].ending
      case Dead => cb.shrink(logs[i][k].start + 1, i, contents[i], k).0 == SHRINK_DEAD_END
      case Known(c) => Check(MarkAll(Empty(), marks), HashOf(cb, contents[i := c]))
      case NotFailed(c) => cb.prop(n, ValuesOf(contents[i := c])) != FAIL
      case _ => false
  {
    hide Check, HashOf, MarkAll, LeadsOn, Exhausted, Runs;
    var contents := After(first, path);
    PathFails(cb, types, first, path, start, to, failed);
    assert cb.prop(FailedIn(failed, path), ValuesOf(contents)) == cb.prop(n, ValuesOf(contents));
    var tried := logs[i][k];
    assert Took(cb, types[i], contents, i, marks, k, tried);
    if tried.ending.NotFailed? {
      var values := ValuesOf(contents[i := tried.ending.candidate]);
      assert cb.prop(tried.end - 1, values) == cb.prop(n, values);
    }
  }

  // ----- In terms of the callbacks alone -----

  /** What it means that everything was tried on an argument in vain, answer by answer. */
  lemma HopelessMeans(cb: Callbacks, t: ArgType, contents: seq<Content>, i: nat, marks: seq<Word>, log: seq<Tried>, from: nat, to: nat)
    requires i < |contents| && Hopeless(cb, t, contents, i, marks, log, from, to)
    ensures forall k :: 0 <= k < |log| ==> FailedTactic(cb, t, contents, i, marks, k, log[k].start, log[k].end)
    ensures |log| == 0xFFFF_FFFF
      || exists n: nat :: from < n < to && cb.shrink(n, i, contents[i], |log|).0 == SHRINK_NO_MORE_TACTICS
  {
    hide Check, HashOf, MarkAll, Gapless;
    forall k | 0 <= k < |log|
      ensures FailedTactic(cb, t, contents, i, marks, k, log[k].start, log[k].end)
    {
      assert Took(cb, t, contents, i, marks, k, log[k]);
    }
    var a: nat, b: nat :| from <= a && b <= to && Exhausted(cb, t, contents, i, log, a, b);
    if |log| != MAX_TACTICS || !Gapless(log, a, b) {
      var mid: nat :| Gapless(log, a, mid) && Took(cb, t, contents, i, [], |log|, Tried(mid, b, NoMore));
      GaplessGrows(log, a, mid);
      assert cb.shrink(mid + 1, i, contents[i], |log|).0 == SHRINK_NO_MORE_TACTICS;
    }
  }

  /**
  Tactic `k`, in the steps from `start` up to `end`: the callback had nothing, or it offered an instance (and its pool bits, for an
  autoshrinking type) that the filter knew or on which the last call of the property passed or skipped.
  */
  ghost predicate FailedTactic(cb: Callbacks, t: ArgType, contents: seq<Content>, i: nat, marks: seq<Word>, k: nat, start: nat, end: nat)
    requires i < |contents|
  {
    var (sres, made) := cb.shrink(start + 1, i, contents[i], k);
    var tried := contents[i := Content(made.value, if t.autoshrink then Some(made.bits) else None)];
    || sres == SHRINK_DEAD_END
    || (sres == SHRINK_OK && Check(MarkAll(Empty(), marks), HashOf(cb, tried)))
    || (sres == SHRINK_OK && start + 3 < end
          && (cb.prop(end - 1, ValuesOf(tried)) == PASS || cb.prop(end - 1, ValuesOf(tried)) == SKIP))
  }

  /** A kept simplification is what the callback offered for that argument, and the property failed on the result in the last step. */
  lemma CommitMeans(cb: Callbacks, types: seq<ArgType>, before: seq<Content>, c: Commit)
    requires Simplifies(cb, types, before, c)
    ensures var (sres, made) := cb.shrink(c.start + 1, c.arg, before[c.arg], c.tactic);
      && sres == SHRINK_OK
      && c.after == before[c.arg := Content(made.value, if types[c.arg].autoshrink then Some(made.bits) else None)]
      && cb.prop(c.end - 1, ValuesOf(c.after)) == FAIL
  {
    hide Runs;
  }

  /** A halt is a hook's answer, given before a tactic is tried. */
  lemma HaltMeans(cb: Callbacks, types: seq<ArgType>, contents: seq<Content>, stop: Stop, to: nat)
    requires StoppedBy(cb, types, contents, stop, to) && stop.ending.Halted?
    ensures cb.shrinkPre(stop.start) == PRE_HALT && to == stop.start + 1
  {
  }

  /** An error is an answer of a hook, of the shrink callback or of the property. */
  lemma ErrorMeans(cb: Callbacks, types: seq<ArgType>, contents: seq<Content>, stop: Stop, to: nat)
    requires StoppedBy(cb, types, contents, stop, to) && stop.ending.Errored?
    ensures stop.start < to
    ensures var (sres, made) := cb.shrink(stop.start + 1, stop.arg, contents[stop.arg], stop.tactic);
      var offered := Content(made.value, if types[stop.arg].autoshrink then Some(made.bits) else None);
      var result := cb.prop(to - 1, ValuesOf(contents[stop.arg := offered]));
      || cb.shrinkPre(stop.start) == PRE_ERROR
      || cb.shrinkPost(stop.start + 2) == POST_ERROR
      || sres == SHRINK_ERROR
      || (sres == SHRINK_OK && (cb.shrinkTrialPost(to - 1) == REPEAT_ERROR || result == DUP || result == ERROR))
  {
    hide Check, HashOf, MarkAll;
  }

  /** A hook that asks for `k` more calls gets them, and the one after them is the last if the hook then lets it be. */
  lemma RepeatsAsAsked(hook: nat -> RepeatResult, first: nat, k: nat)
    requires forall n: nat :: first <= n < first + k ==> hook(n) == REPEAT
    requires hook(first + k) == REPEAT_CONTINUE || hook(first + k) == REPEAT_ERROR || (hook(first + k) == REPEAT_ONCE && k > 0)
    ensures Runs(hook, first, first + k)
    ensures Counts(hook(first + k)) <==> hook(first + k) != REPEAT_ERROR
  {
  }

  /** Asked for once, there is one more call, unless the hook then asks for still more. */
  lemma RepeatsOnce(hook: nat -> RepeatResult, first: nat)
    requires hook(first) == REPEAT_ONCE && hook(first + 1) != REPEAT
    ensures Runs(hook, first, first + 1)
  {
  }
}
