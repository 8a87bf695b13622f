/**
The state of a run (src/theft_types_internal.h) and the operations on it that generating, calling and shrinking share:
ownership of instances and bit pools, and the "already called" bookkeeping of src/theft_call.c.

User callbacks and hooks are arbitrary: each is a function of the number of the step that calls it, so that any sequence of
responses is covered. Shrink callbacks and the property are also functions of what they are given. Hash callbacks are functions of
what they hash alone.
*/
module Engine {
  import opened Bits
  import opened BloomSpec
  import opened Bloom
  import Hash

  /** What an instance, or the consumed bits of a pool, holds. */
  type Value = seq<bv8>

  /** What an argument amounts to: the instance, and for autoshrinking types the bits it was built from. */
  datatype Content = Content(value: Value, pool: Option<Value>)

  datatype TrialResult = PASS | FAIL | SKIP | DUP | ERROR

  datatype AllocResult = ALLOC_OK | ALLOC_SKIP | ALLOC_ERROR

  datatype ShrinkResult = SHRINK_OK | SHRINK_DEAD_END | SHRINK_NO_MORE_TACTICS | SHRINK_ERROR

  datatype PreResult = PRE_ERROR | PRE_CONTINUE | PRE_HALT

  datatype PostResult = POST_ERROR | POST_CONTINUE

  datatype RepeatResult = REPEAT_ERROR | REPEAT_CONTINUE | REPEAT | REPEAT_ONCE

  /** What an alloc or shrink callback makes: an instance, and the pool bits behind it. */
  datatype Made = Made(value: Value, bits: Value)

  datatype ArgType = ArgType(shrinks: bool, autoshrink: bool, hasFree: bool)

  datatype Callbacks = Callbacks(
    alloc: nat -> (AllocResult, Made),
    shrink: (nat, nat, Content, nat) -> (ShrinkResult, Made),   // step, argument, its content, tactic
    prop: (nat, seq<Value>) -> TrialResult,
    hash: (nat, Content) -> Word,
    shrinkPre: nat -> PreResult,
    shrinkPost: nat -> PostResult,
    shrinkTrialPost: nat -> RepeatResult,
    trialPre: nat -> PreResult,
    trialPost: nat -> RepeatResult,
    counterexample: nat -> PostResult)

  /** No hook answers REPEAT for ever. */
  ghost predicate Patient(cb: Callbacks) {
    && (forall n: nat :: Answers(cb.shrinkTrialPost, n))
    && (forall n: nat :: Answers(cb.trialPost, n))
  }

  /** From call `n` on, a hook at some point answers something other than REPEAT. */
  ghost predicate Answers(hook: nat -> RepeatResult, n: nat) {
    exists m: nat :: m >= n && hook(m) != REPEAT
  }

  /** The result depends on the arguments only. */
  ghost predicate Deterministic(cb: Callbacks) {
    forall m: nat, n: nat, values: seq<Value> :: cb.prop(m, values) == cb.prop(n, values)
  }

  function ValuesOf(contents: seq<Content>): (r: seq<Value>)
    ensures |r| == |contents|
  {
    seq(|contents|, i requires 0 <= i < |contents| => contents[i].value)
  }

  /** A 64-bit hash as eight bytes, little-endian. */
  function HashBytes(h: Word): (r: seq<bv8>)
    ensures |r| == 8
  {
    seq(8, k requires 0 <= k < 8 => Pack(h[8 * k..8 * k + 8]))
  }

  /** The buffer of argument hashes that identifies a combination of arguments. */
  function KeyOf(cb: Callbacks, contents: seq<Content>): seq<bv8> {
    if contents == [] then [] else
      var n := |contents| - 1;
      KeyOf(cb, contents[..n]) + HashBytes(cb.hash(n, contents[n]))
  }

  /** Byte `k` of a hash holds its bits 8 k to 8 k + 7. */
  lemma HashBytesHold(h: Word, k: nat, j: nat)
    requires k < 8 && j < 8
    ensures BitOf(HashBytes(h)[k], j) == h[8 * k + j]
  {
    hide BitOf, Pack;
    PackBit(h[8 * k..8 * k + 8], j);
  }

  /** Different hashes are different bytes. */
  lemma HashBytesInjective(a: Word, b: Word)
    requires HashBytes(a) == HashBytes(b)
    ensures a == b
  {
    hide BitOf, HashBytes;
    forall i | 0 <= i < 64
      ensures a[i] == b[i]
    {
      HashBytesHold(a, i / 8, i % 8);
      HashBytesHold(b, i / 8, i % 8);
    }
  }

  lemma {:induction false} KeyLength(cb: Callbacks, contents: seq<Content>)
    ensures |KeyOf(cb, contents)| == 8 * |contents|
  {
    if contents != [] { KeyLength(cb, contents[..|contents| - 1]); }
  }

  /** The hash of argument `i` is in bytes 8 i to 8 i + 7. */
  lemma {:induction false} KeyHolds(cb: Callbacks, contents: seq<Content>, i: nat, k: nat)
    requires i < |contents| && k < 8
    ensures |KeyOf(cb, contents)| == 8 * |contents|
    ensures KeyOf(cb, contents)[8 * i + k] == HashBytes(cb.hash(i, contents[i]))[k]
    decreases |contents|
  {
    hide HashBytes;
    KeyLength(cb, contents);
    var n := |contents| - 1;
    KeyLength(cb, contents[..n]);
    if i < n {
      KeyHolds(cb, contents[..n], i, k);
    }
  }

  /** The same buffer means the same hash for every argument. */
  lemma KeyTellsHashes(cb: Callbacks, a: seq<Content>, b: seq<Content>)
    requires |a| == |b| && KeyOf(cb, a) == KeyOf(cb, b)
    ensures forall i: nat :: i < |a| ==> cb.hash(i, a[i]) == cb.hash(i, b[i])
  {
    hide HashBytes, KeyOf;
    forall i: nat | i < |a|
      ensures cb.hash(i, a[i]) == cb.hash(i, b[i])
    {
      var x, y := HashBytes(cb.hash(i, a[i])), HashBytes(cb.hash(i, b[i]));
      forall k | 0 <= k < 8 ensures x[k] == y[k] {
        KeyHolds(cb, a, i, k);
        KeyHolds(cb, b, i, k);
      }
      assert x == y;
      HashBytesInjective(cb.hash(i, a[i]), cb.hash(i, b[i]));
    }
  }

  /** Arguments of which just one has another hash, in just one of its bytes, are never taken for each other. */
  lemma OneHashByteTells(cb: Callbacks, a: seq<Content>, b: seq<Content>, k: nat)
    requires |a| == |b| && k < |KeyOf(cb, a)| == |KeyOf(cb, b)| && KeyOf(cb, a)[k] != KeyOf(cb, b)[k]
    requires forall i: nat :: i < |KeyOf(cb, a)| && i != k ==> KeyOf(cb, a)[i] == KeyOf(cb, b)[i]
    ensures HashOf(cb, a) != HashOf(cb, b)
  {
    hide Hash.OnePass, KeyOf;
    Hash.OneByteNeverCollides(KeyOf(cb, a), KeyOf(cb, b), k);
  }

  /** The hash under which the Bloom filter knows a combination of arguments. */
  function HashOf(cb: Callbacks, contents: seq<Content>): Word {
    Hash.OnePass(KeyOf(cb, contents))
  }

  /** A pool, and the instance that was generated from it. */
  datatype PoolRec = PoolRec(bits: Value, madeFor: Option<nat>)

  datatype Slot = Slot(instance: Option<nat>, pool: Option<nat>)

  ghost function InstancesIn(args: seq<Slot>): set<nat> {
    set i | 0 <= i < |args| && args[i].instance.Some? :: args[i].instance.value
  }

  ghost function PoolsIn(args: seq<Slot>): set<nat> {
    set i | 0 <= i < |args| && args[i].pool.Some? :: args[i].pool.value
  }

  ghost predicate OwnedIn(types: seq<ArgType>, args: seq<Slot>, instances: map<nat, Value>, pools: map<nat, PoolRec>,
                          looseInstances: set<nat>, loosePools: set<nat>, nextId: nat) {
    && |args| == |types|
    && (forall i :: 0 <= i < |args| && args[i].instance.Some? ==> args[i].instance.value !in looseInstances)
    && (forall i :: 0 <= i < |args| && args[i].pool.Some? ==> args[i].pool.value !in loosePools)
    && (forall i, j :: 0 <= i < j < |args| && args[i].instance.Some? ==> args[i].instance != args[j].instance)
    && (forall i, j :: 0 <= i < j < |args| && args[i].pool.Some? ==> args[i].pool != args[j].pool)
    && instances.Keys == looseInstances + InstancesIn(args)
    && pools.Keys == loosePools + PoolsIn(args)
    && (forall id :: id in instances ==> id < nextId)
    && (forall id :: id in pools ==> id < nextId)
  }

  /** Argument `i` has been generated, and its instance came from its pool. */
  ghost predicate SlotGenerated(t: ArgType, slot: Slot, instances: map<nat, Value>, pools: map<nat, PoolRec>) {
    && slot.instance.Some? && slot.instance.value in instances
    && slot.pool.Some? == t.autoshrink
    && (slot.pool.Some? ==> slot.pool.value in pools && pools[slot.pool.value].madeFor == slot.instance)
  }

  ghost predicate GeneratedIn(types: seq<ArgType>, args: seq<Slot>, instances: map<nat, Value>, pools: map<nat, PoolRec>) {
    |args| == |types| && forall i :: 0 <= i < |args| ==> SlotGenerated(types[i], args[i], instances, pools)
  }

  function ContentOf(slot: Slot, instances: map<nat, Value>, pools: map<nat, PoolRec>): Content
    requires slot.instance.Some? && slot.instance.value in instances
    requires slot.pool.Some? ==> slot.pool.value in pools
  {
    Content(instances[slot.instance.value], if slot.pool.Some? then Some(pools[slot.pool.value].bits) else None)
  }

  ghost predicate SlotLive(slot: Slot, instances: map<nat, Value>, pools: map<nat, PoolRec>) {
    && slot.instance.Some? && slot.instance.value in instances
    && (slot.pool.Some? ==> slot.pool.value in pools)
  }

  ghost function ContentsIn(args: seq<Slot>, instances: map<nat, Value>, pools: map<nat, PoolRec>): (r: seq<Content>)
    requires forall i :: 0 <= i < |args| ==> SlotLive(args[i], instances, pools)
    ensures |r| == |args|
    ensures forall i :: 0 <= i < |args| ==> SlotLive(args[i], instances, pools) && r[i] == ContentOf(args[i], instances, pools)
  {
    seq(|args|, i requires 0 <= i < |args| && SlotLive(args[i], instances, pools) => ContentOf(args[i], instances, pools))
  }

  lemma SlotsLive(types: seq<ArgType>, args: seq<Slot>, instances: map<nat, Value>, pools: map<nat, PoolRec>,
                  looseInstances: set<nat>, loosePools: set<nat>, nextId: nat, i: nat)
    requires OwnedIn(types, args, instances, pools, looseInstances, loosePools, nextId) && i < |args|
    ensures args[i].instance.Some? ==> args[i].instance.value in instances
    ensures args[i].pool.Some? ==> args[i].pool.value in pools
  {
    if args[i].instance.Some? { assert args[i].instance.value in InstancesIn(args); }
    if args[i].pool.Some? { assert args[i].pool.value in PoolsIn(args); }
  }

  class Theft {
    const types: seq<ArgType>
    const cb: Callbacks
    const bloom: Bloom
    var clock: nat                    // number of the next step
    var args: seq<Slot>
    var instances: map<nat, Value>    // instances not yet freed
    var pools: map<nat, PoolRec>      // bit pools not yet freed
    var nextId: nat
    var pass: nat
    var fail: nat
    var skip: nat
    var dup: nat
    ghost var looseInstances: set<nat>   // live, and not the instance of any argument
    ghost var loosePools: set<nat>
    ghost var marks: seq<Word>           // hashes marked in the filter, in order

    /** theft_run_init, for types that can all be hashed: an empty filter, and no arguments yet. */
    constructor (types: seq<ArgType>, cb: Callbacks)
      requires Patient(cb)
      ensures Valid() && this.types == types && this.cb == cb && fresh(bloom) && fresh(bloom.blocks) && fresh(bloom.Repr)
      ensures marks == [] && pass == fail == skip == dup == 0 && looseInstances == {} && loosePools == {}
      ensures args == seq(|types|, _ => Slot(None, None))
    {
      this.types, this.cb := types, cb;
      bloom := new Bloom();
      clock, nextId, instances, pools := 0, 0, map[], map[];
      args := seq(|types|, _ => Slot(None, None));
      pass, fail, skip, dup := 0, 0, 0, 0;
      looseInstances, loosePools, marks := {}, {}, [];
    }

    /** Everything live is accounted for: it belongs to exactly one argument, or is loose. */
    ghost predicate Owned()
      reads `args, `instances, `pools, `looseInstances, `loosePools, `nextId
    {
      OwnedIn(types, args, instances, pools, looseInstances, loosePools, nextId)
    }

    /** The filter holds exactly what was marked, and every mark was of something that had checked false. */
    ghost predicate Disciplined()
      reads `marks, bloom, bloom.blocks, bloom.Repr
    {
      && bloom.Valid() && this !in bloom.Repr && this as object != bloom && this as object != bloom.blocks
      && EachNew(marks) && bloom.State() == MarkAll(Empty(), marks)
    }

    ghost predicate Valid()
      reads this, bloom, bloom.blocks, bloom.Repr
    {
      Owned() && Disciplined() && Patient(cb)
    }

    ghost predicate AllGenerated()
      reads `args, `instances, `pools
    {
      |args| == |types| && GeneratedIn(types, args, instances, pools)
    }

    /** The arguments as the property and the hashes see them. */
    ghost function Contents(): (r: seq<Content>)
      requires AllGenerated()
      reads `args, `instances, `pools
      ensures |r| == |args|
    {
      ContentsIn(args, instances, pools)
    }

    // ----- Already called? -----

    /** get_arg_hash_buffer */
    method GetArgHashBuffer() returns (buffer: seq<bv8>)
      requires AllGenerated()
      ensures buffer == KeyOf(cb, Contents())
    {
      ghost var contents := Contents();
      buffer := [];
      for i := 0 to |args|
        invariant buffer == KeyOf(cb, contents[..i])
      {
        assert SlotGenerated(types[i], args[i], instances, pools);
        var h := cb.hash(i, ContentOf(args[i], instances, pools));
        assert contents[..i + 1][..i] == contents[..i];
        buffer := buffer + HashBytes(h);
      }
      assert contents[..|args|] == contents;
    }

    /** theft_call_check_called */
    method CheckCalled() returns (found: bool)
      requires Valid() && AllGenerated()
      ensures found <==> Check(bloom.State(), HashOf(cb, Contents()))
    {
      var buffer := GetArgHashBuffer();
      found := bloom.Check(buffer);
    }

    /** theft_call_mark_called, right after the same arguments have checked false. */
    method MarkCalled()
      requires Valid() && AllGenerated() && !Check(bloom.State(), HashOf(cb, Contents()))
      modifies `marks, bloom, bloom.Repr
      ensures Valid() && AllGenerated() && Contents() == old(Contents()) && fresh(bloom.Repr - old(bloom.Repr))
      ensures marks == old(marks) + [HashOf(cb, Contents())]
    {
      hide KeyOf, BloomSpec.Mark, Check, OwnedIn, EachNew, MarkAll, Patient, Bloom.Valid, Bloom.State, Hash.OnePass, StateOk, ChainOk;
      var buffer := GetArgHashBuffer();
      ghost var h := HashOf(cb, Contents());
      bloom.Mark(buffer);
      MarkOneMore(marks, h);
      marks := marks + [h];
    }

    // ----- Instances and pools -----

    /** A new loose instance. */
    method NewInstance(value: Value) returns (id: nat)
      requires Owned()
      modifies `instances, `nextId, `looseInstances
      ensures Owned() && id == old(nextId) && id !in old(instances) && nextId == old(nextId) + 1
      ensures instances == old(instances)[id := value] && looseInstances == old(looseInstances) + {id}
      ensures id !in old(looseInstances)
    {
      id := nextId;
      instances := instances[id := value];
      looseInstances := looseInstances + {id};
      nextId := nextId + 1;
    }

    method NewPool(bits: Value, madeFor: Option<nat>) returns (id: nat)
      requires Owned()
      modifies `pools, `nextId, `loosePools
      ensures Owned() && id == old(nextId) && id !in old(pools) && nextId == old(nextId) + 1
      ensures pools == old(pools)[id := PoolRec(bits, madeFor)] && loosePools == old(loosePools) + {id}
      ensures id !in old(loosePools)
    {
      id := nextId;
      pools := pools[id := PoolRec(bits, madeFor)];
      loosePools := loosePools + {id};
      nextId := nextId + 1;
    }

    /** The free callback: the instance must be live, and must not belong to an argument any more. */
    method FreeInstance(id: nat)
      requires Owned() && id in looseInstances
      modifies `instances, `looseInstances
      ensures Owned() && instances == old(instances) - {id} && looseInstances == old(looseInstances) - {id}
    {
      instances := instances - {id};
      looseInstances := looseInstances - {id};
    }

    method FreePool(id: nat)
      requires Owned() && id in loosePools
      modifies `pools, `loosePools
      ensures Owned() && pools == old(pools) - {id} && loosePools == old(loosePools) - {id}
    {
      pools := pools - {id};
      loosePools := loosePools - {id};
    }

    /** `if (ti->free) { ti->free(instance, ti->env); }` for an instance that may be NULL. */
    method Release(i: nat, id: Option<nat>)
      requires Owned() && i < |types| && (id.Some? ==> id.value in looseInstances)
      modifies `instances, `looseInstances
      ensures Owned()
      ensures types[i].hasFree && id.Some? ==>
        instances == old(instances) - {id.value} && looseInstances == old(looseInstances) - {id.value}
      ensures !(types[i].hasFree && id.Some?) ==> instances == old(instances) && looseInstances == old(looseInstances)
    {
      if types[i].hasFree && id.Some? {
        FreeInstance(id.value);
      }
    }

    /** Stores a loose instance and pool as argument `i`; what was there becomes loose. */
    method Install(i: nat, slot: Slot)
      requires Owned() && i < |args|
      requires slot.instance.Some? ==> slot.instance.value in looseInstances
      requires slot.pool.Some? ==> slot.pool.value in loosePools
      modifies `args, `looseInstances, `loosePools
      ensures Owned() && args == old(args)[i := slot]
      ensures looseInstances == old(looseInstances) - Ids(slot.instance) + Ids(old(args)[i].instance)
      ensures loosePools == old(loosePools) - Ids(slot.pool) + Ids(old(args)[i].pool)
    {
      hide OwnedIn, Ids;
      OwnedInstalled(types, args, instances, pools, looseInstances, loosePools, nextId, i, slot);
      looseInstances := looseInstances - Ids(slot.instance) + Ids(args[i].instance);
      loosePools := loosePools - Ids(slot.pool) + Ids(args[i].pool);
      args := args[i := slot];
    }
  }

  lemma MarkOneMore(marks: seq<Word>, h: Word)
    requires EachNew(marks) && !Check(MarkAll(Empty(), marks), h)
    ensures EachNew(marks + [h]) && MarkAll(Empty(), marks + [h]) == BloomSpec.Mark(MarkAll(Empty(), marks), h)
  {
    hide BloomSpec.Mark, Check;
    var more := marks + [h];
    assert more[..|marks|] == marks;
    forall i | 0 <= i < |more| ensures NewAt(more, i) {
      if i < |marks| { assert NewAt(marks, i) && more[..i] == marks[..i]; }
    }
  }

  function Ids(id: Option<nat>): set<nat> {
    if id.Some? then {id.value} else {}
  }

  lemma OwnedInstalled(types: seq<ArgType>, args: seq<Slot>, instances: map<nat, Value>, pools: map<nat, PoolRec>,
                       looseInstances: set<nat>, loosePools: set<nat>, nextId: nat, i: nat, slot: Slot)
    requires OwnedIn(types, args, instances, pools, looseInstances, loosePools, nextId) && i < |args|
    requires slot.instance.Some? ==> slot.instance.value in looseInstances
    requires slot.pool.Some? ==> slot.pool.value in loosePools
    ensures OwnedIn(types, args[i := slot], instances, pools, looseInstances - Ids(slot.instance) + Ids(args[i].instance),
                    loosePools - Ids(slot.pool) + Ids(args[i].pool), nextId)
  {
    hide InstancesIn, PoolsIn;
    SlotsLive(types, args, instances, pools, looseInstances, loosePools, nextId, i);
    InstalledInstances(args, i, slot);
    InstalledPools(args, i, slot);
  }

  lemma InstalledInstances(args: seq<Slot>, i: nat, slot: Slot)
    requires i < |args|
    requires forall j, k :: 0 <= j < k < |args| && args[j].instance.Some? ==> args[j].instance != args[k].instance
    ensures InstancesIn(args[i := slot]) == InstancesIn(args) - Ids(args[i].instance) + Ids(slot.instance)
  {
    var now := args[i := slot];
    forall id | id in InstancesIn(args) - Ids(args[i].instance) + Ids(slot.instance)
      ensures id in InstancesIn(now)
    {
      if id in Ids(slot.instance) { assert now[i].instance == Some(id); }
      else {
        var j :| 0 <= j < |args| && args[j].instance.Some? && args[j].instance.value == id;
        assert now[j] == args[j];
      }
    }
    forall id | id in InstancesIn(now)
      ensures id in InstancesIn(args) - Ids(args[i].instance) + Ids(slot.instance)
    {
      var j :| 0 <= j < |now| && now[j].instance.Some? && now[j].instance.value == id;
      if j != i { assert args[j] == now[j]; }
    }
  }

  lemma InstalledPools(args: seq<Slot>, i: nat, slot: Slot)
    requires i < |args|
    requires forall j, k :: 0 <= j < k < |args| && args[j].pool.Some? ==> args[j].pool != args[k].pool
    ensures PoolsIn(args[i := slot]) == PoolsIn(args) - Ids(args[i].pool) + Ids(slot.pool)
  {
    var now := args[i := slot];
    forall id | id in PoolsIn(args) - Ids(args[i].pool) + Ids(slot.pool)
      ensures id in PoolsIn(now)
    {
      if id in Ids(slot.pool) { assert now[i].pool == Some(id); }
      else {
        var j :| 0 <= j < |args| && args[j].pool.Some? && args[j].pool.value == id;
        assert now[j] == args[j];
      }
    }
    forall id | id in PoolsIn(now)
      ensures id in PoolsIn(args) - Ids(args[i].pool) + Ids(slot.pool)
    {
      var j :| 0 <= j < |now| && now[j].pool.Some? && now[j].pool.value == id;
      if j != i { assert args[j] == now[j]; }
    }
  }
}
