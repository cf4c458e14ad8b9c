/**
 * `Registry`: owns the table of component pools (indexed by component id), the
 * table of entity signatures (indexed by entity id), the systems (keyed by
 * system type) and the two sets of entities waiting for the next `Update`.
 */
module Registries {
  import opened Wrappers
  import opened Vectors
  import opened Signatures
  import opened Entities
  import opened Components
  import opened Pools
  import opened Systems

  /**
   * What `AddComponent` leaves in a pool whose storage was `data`: a pool too
   * short for `index` is first resized to `numEntities` (which must then cover
   * `index`), and `v` is written at `index`.
   */
  function PoolAfterStore<V>(data: seq<V>, blank: V, numEntities: nat, index: nat, v: V): (r: seq<V>)
    requires index < |data| || index < numEntities
    ensures |r| == if index < |data| then |data| else numEntities
    ensures |data| <= |r|
    ensures r[index] == v
    ensures forall j :: 0 <= j < |data| && j != index ==> r[j] == data[j]
    ensures forall j :: |data| <= j < |r| && j != index ==> r[j] == blank
  {
    (if index < |data| then data else Resized(data, numEntities, blank))[index := v]
  }

  /**
   * What `AddComponent` leaves in the signature table: the table resized to the
   * number of pools `poolCount` (growing or shrinking it), then bit `c` set in
   * entry `index`, which must lie below `poolCount`.
   */
  function SignaturesAfterAdd(sigs: seq<Signature>, poolCount: nat, index: nat, c: nat): (r: seq<Signature>)
    requires index < poolCount && c < MAX_COMPONENTS
    ensures |r| == poolCount
    ensures Test(r[index], c)
    ensures index < |sigs| ==> Bits(r[index]) == Bits(sigs[index]) + {c}
    ensures index >= |sigs| ==> Bits(r[index]) == {c}
    ensures forall j :: 0 <= j < |sigs| && j < poolCount && j != index ==> r[j] == sigs[j]
    ensures forall j :: |sigs| <= j < poolCount && j != index ==> r[j] == Empty()
  {
    var grown := Resized(sigs, poolCount, Empty());
    SetBits(grown[index], c, true);
    grown[index := Set(grown[index], c)]
  }

  /** What `RemoveComponent` leaves in the signature table: bit `c` of entry `index` cleared. */
  function SignaturesAfterRemove(sigs: seq<Signature>, index: nat, c: nat): (r: seq<Signature>)
    requires index < |sigs| && c < MAX_COMPONENTS
    ensures |r| == |sigs|
    ensures !Test(r[index], c)
    ensures Bits(r[index]) == Bits(sigs[index]) - {c}
    ensures forall j :: 0 <= j < |sigs| && j != index ==> r[j] == sigs[j]
  {
    SetBits(sigs[index], c, false);
    sigs[index := Set(sigs[index], c, false)]
  }

  /**
   * Adding a component the entity did not have and removing it again leaves
   * the table as the resize to the pool count `n` left it: the original table
   * when `n` is its length, and otherwise a table cut or padded to `n` entries.
   */
  lemma {:induction false} RemoveUndoesAdd(sigs: seq<Signature>, n: nat, index: nat, c: nat)
    requires index < n && c < MAX_COMPONENTS
    requires index < |sigs| ==> !Test(sigs[index], c)
    ensures SignaturesAfterRemove(SignaturesAfterAdd(sigs, n, index, c), index, c) == Resized(sigs, n, Empty())
    ensures n == |sigs| ==> SignaturesAfterRemove(SignaturesAfterAdd(sigs, n, index, c), index, c) == sigs
  {
    var added := SignaturesAfterAdd(sigs, n, index, c);
    var r := SignaturesAfterRemove(added, index, c);
    var grown := Resized(sigs, n, Empty());
    forall j | 0 <= j < n ensures r[j] == grown[j] {
      if j == index {
        forall b | 0 <= b < MAX_COMPONENTS ensures r[j][b] == grown[j][b] {
          if b != c {
            assert r[j][b] == added[j][b];
            assert added[j] == Set(grown[j], c);
          }
        }
      }
    }
    assert r == grown;
    if n == |sigs| {
      assert grown == sigs;
    }
  }

  /** Adding the same component twice leaves the table as adding it once. */
  lemma {:induction false} AddTwiceIsAddOnce(sigs: seq<Signature>, poolCount: nat, index: nat, c: nat)
    requires index < poolCount && c < MAX_COMPONENTS
    ensures SignaturesAfterAdd(SignaturesAfterAdd(sigs, poolCount, index, c), poolCount, index, c)
         == SignaturesAfterAdd(sigs, poolCount, index, c)
  {
    var once := SignaturesAfterAdd(sigs, poolCount, index, c);
    var twice := SignaturesAfterAdd(once, poolCount, index, c);
    assert Resized(once, poolCount, Empty()) == once;
    assert Set(once[index], c) == once[index];
    assert twice == once[index := Set(once[index], c)];
  }

  /** `AddEntityToSystems(e)` for an entity whose signature is `sig`: `e` is appended to every system it matches. */
  function AddedToMatching(systems: map<SystemType, SystemState>, sig: Signature, e: Entity): (r: map<SystemType, SystemState>)
    ensures r.Keys == systems.Keys
    ensures forall k :: k in r ==> r[k].componentSignature == systems[k].componentSignature
    ensures forall k, x :: k in r ==>
      (x in r[k].entities <==> x in systems[k].entities || (x == e && Matches(systems[k].componentSignature, sig)))
  {
    map k | k in systems :: if Matches(systems[k].componentSignature, sig) then systems[k].AddEntity(e) else systems[k]
  }

  /**
   * `after` is `before` with the entities of `added` synchronised into it: the
   * same systems with the same signatures, each entity list extended, and an
   * entity listed exactly when it was listed before or it was added and its
   * signature (in `sigs`) matches the system.
   */
  ghost predicate Synced(before: map<SystemType, SystemState>, after: map<SystemType, SystemState>,
                         added: set<Entity>, sigs: seq<Signature>)
  {
    after.Keys == before.Keys &&
    forall k :: k in after ==>
      after[k].componentSignature == before[k].componentSignature &&
      before[k].entities <= after[k].entities &&
      forall x :: x in after[k].entities <==>
        x in before[k].entities ||
        (x in added && x.GetId() < |sigs| && Matches(before[k].componentSignature, sigs[x.GetId()]))
  }

  /** Synchronising one more entity extends a synchronised state. */
  lemma {:induction false} SyncStep(before: map<SystemType, SystemState>, mid: map<SystemType, SystemState>,
                                    added: set<Entity>, sigs: seq<Signature>, e: Entity)
    requires Synced(before, mid, added, sigs)
    requires e.GetId() < |sigs|
    ensures Synced(before, AddedToMatching(mid, sigs[e.GetId()], e), added + {e}, sigs)
  {
    var after := AddedToMatching(mid, sigs[e.GetId()], e);
    forall k | k in after
      ensures after[k].componentSignature == before[k].componentSignature
      ensures before[k].entities <= after[k].entities
      ensures forall x :: x in after[k].entities <==>
        x in before[k].entities ||
        (x in added + {e} && x.GetId() < |sigs| && Matches(before[k].componentSignature, sigs[x.GetId()]))
    {
      assert mid[k].entities <= after[k].entities;
    }
  }

  class Registry<V> {
    var numEntities: nat
    /** Slot i holds the pool of the component with id i, if one was made. */
    var componentPools: seq<Option<Pool<V>>>
    /** Slot i holds the signature of the entity with id i. */
    var entityComponentSignatures: seq<Signature>
    var systems: map<SystemType, SystemState>
    var entitiesToBeAdded: set<Entity>
    var entitiesToBeKilled: set<Entity>
    /** The value-initialised component that new pool slots hold. */
    const blank: V

    ghost function Pools(): set<Pool<V>>
      reads this`componentPools
    {
      set i | 0 <= i < |componentPools| && componentPools[i].Some? :: componentPools[i].value
    }

    /**
     * The class invariant: the pools are well formed and the signature table
     * has at least as many entries as the table of pools. `AddComponent` makes
     * the two lengths equal and `CreateEntity` only lengthens the signatures.
     */
    ghost predicate Valid()
      reads this`componentPools, this`entityComponentSignatures
    {
      PoolsValid() && |componentPools| <= |entityComponentSignatures|
    }

    /** Every pool fills with `blank`, and no two slots share a pool. */
    ghost predicate PoolsValid()
      reads this`componentPools
    {
      (forall i :: 0 <= i < |componentPools| && componentPools[i].Some? ==> componentPools[i].value.blank == blank) &&
      (forall i, j :: 0 <= i < j < |componentPools| && componentPools[i].Some? && componentPools[j].Some? ==>
         componentPools[i].value != componentPools[j].value)
    }

    constructor (blank: V)
      ensures Valid() && this.blank == blank
      ensures numEntities == 0 && componentPools == [] && entityComponentSignatures == []
      ensures systems == map[] && entitiesToBeAdded == {} && entitiesToBeKilled == {}
    {
      this.blank := blank;
      numEntities := 0;
      componentPools := [];
      entityComponentSignatures := [];
      systems := map[];
      entitiesToBeAdded, entitiesToBeKilled := {}, {};
    }

    /** The storage `AddComponent` finds for component id `c`: its pool's, or that of a new default pool. */
    ghost function SlotData(c: nat): seq<V>
      reads this`componentPools, Pools()
    {
      if c < |componentPools| && componentPools[c].Some? then componentPools[c].value.data
      else seq(DEFAULT_POOL_SIZE, _ => blank)
    }

    /**
     * `CreateEntity()` (declared only): the entity takes the counter's value as
     * its id, the counter moves on, the signature table gets a slot for it and
     * the entity waits for the next `Update`.
     */
    method CreateEntity() returns (e: Entity)
      requires Valid()
      requires numEntities < 0x1_0000_0000_0000_0000
      modifies this`numEntities, this`entitiesToBeAdded, this`entityComponentSignatures
      ensures Valid()
      ensures e.id == old(numEntities) && numEntities == old(numEntities) + 1
      ensures entitiesToBeAdded == old(entitiesToBeAdded) + {e}
      ensures e.GetId() < |entityComponentSignatures|
      ensures entityComponentSignatures ==
              if e.GetId() < old(|entityComponentSignatures|) then old(entityComponentSignatures)
              else Resized(old(entityComponentSignatures), e.GetId() + 1, Empty())
    {
      var entityId := numEntities;
      numEntities := numEntities + 1;
      e := Entity(entityId);
      entitiesToBeAdded := entitiesToBeAdded + {e};
      if e.GetId() >= |entityComponentSignatures| {
        entityComponentSignatures := Resized(entityComponentSignatures, e.GetId() + 1, Empty());
      }
    }

    /** `AddComponent<T>(entity, args...)`, with `v` the component built from `args`. */
    method AddComponent(ids: ComponentIds, t: ComponentType, e: Entity, v: V)
      requires Valid() && ids.Valid()
      requires ids.IdFor(t) < MAX_COMPONENTS
      requires e.GetId() < |SlotData(ids.IdFor(t))| || e.GetId() < numEntities
      requires e.GetId() < |componentPools| || e.GetId() <= ids.IdFor(t)
      modifies this`componentPools, this`entityComponentSignatures, Pools(), ids
      ensures Valid() && ids.Valid()
      ensures IssueStep(old(ids.ids), old(ids.nextId), ids.ids, ids.nextId, t)
      ensures t in ids.ids && ids.ids[t] == old(ids.IdFor(t))
      ensures var c := ids.ids[t];
        && |componentPools| == (if c < old(|componentPools|) then old(|componentPools|) else c + 1)
        && componentPools[c].Some?
        && componentPools[c].value.data == PoolAfterStore(old(SlotData(c)), blank, numEntities, e.GetId(), v)
        && (old(c < |componentPools| && componentPools[c].Some?) ==> componentPools[c] == old(componentPools[c]))
        && (old(c >= |componentPools| || componentPools[c].None?) ==> fresh(componentPools[c].value))
        && (forall i :: 0 <= i < |componentPools| && i != c ==>
              componentPools[i] == if i < old(|componentPools|) then old(componentPools[i]) else None)
        && (forall p :: p in old(Pools()) && p != componentPools[c].value ==> p.data == old(p.data))
        && entityComponentSignatures == SignaturesAfterAdd(old(entityComponentSignatures), |componentPools|, e.GetId(), c)
        && |entityComponentSignatures| == |componentPools|
        && Test(entityComponentSignatures[e.GetId()], c)
    {
      ghost var oldSlot := SlotData(ids.IdFor(t));
      var componentId := ids.GetId(t);
      var entityId := e.GetId();

      var componentPool := PoolFor(componentId);
      Store(componentPool, entityId, v);
      MarkPresent(entityId, componentId);
    }

    /** The write into the pool in `AddComponent`: grow a pool too short for `index` to `numEntities`, then store `v`. */
    method Store(pool: Pool<V>, index: nat, v: V)
      requires index < pool.Size() || index < numEntities
      modifies pool
      ensures pool.data == PoolAfterStore(old(pool.data), pool.blank, numEntities, index, v)
    {
      if index >= pool.Size() {
        pool.Resize(numEntities);
      }
      pool.Set(index, v);
    }

    /** The signature update in `AddComponent`: resize the table to the number of pools, then set bit `c` of entry `index`. */
    method MarkPresent(index: nat, c: nat)
      requires index < |componentPools| && c < MAX_COMPONENTS
      modifies this`entityComponentSignatures
      ensures entityComponentSignatures == SignaturesAfterAdd(old(entityComponentSignatures), |componentPools|, index, c)
    {
      entityComponentSignatures := Resized(entityComponentSignatures, |componentPools|, Empty());
      entityComponentSignatures := entityComponentSignatures[index := Set(entityComponentSignatures[index], c)];
    }

    /**
     * The pool lookup at the head of `AddComponent`: grow the table of pools
     * with empty slots up to `c`, and put a new default pool in slot `c` if it
     * is empty.
     */
    method PoolFor(c: nat) returns (pool: Pool<V>)
      requires PoolsValid()
      modifies this`componentPools
      ensures PoolsValid()
      ensures |componentPools| == if c < old(|componentPools|) then old(|componentPools|) else c + 1
      ensures componentPools[c] == Some(pool) && pool.blank == blank
      ensures pool.data == old(SlotData(c))
      ensures old(c < |componentPools| && componentPools[c].Some?) ==> componentPools[c] == old(componentPools[c])
      ensures old(c >= |componentPools| || componentPools[c].None?) ==> fresh(pool)
      ensures forall i :: 0 <= i < |componentPools| && i != c ==>
                componentPools[i] == if i < old(|componentPools|) then old(componentPools[i]) else None
    {
      if c >= |componentPools| {
        componentPools := Resized(componentPools, c + 1, None);
      }
      if componentPools[c].None? {
        var created := new Pool(DEFAULT_POOL_SIZE, blank);
        assert created.data == seq(DEFAULT_POOL_SIZE, _ => blank);
        componentPools := componentPools[c := Some(created)];
      }
      pool := componentPools[c].value;
    }

    /** `RemoveComponent<T>(entity)`: only the signature bit is cleared; pool data stays. */
    method RemoveComponent(ids: ComponentIds, t: ComponentType, e: Entity)
      requires Valid() && ids.Valid()
      requires ids.IdFor(t) < MAX_COMPONENTS
      requires e.GetId() < |entityComponentSignatures|
      modifies this`entityComponentSignatures, ids
      ensures Valid() && ids.Valid()
      ensures IssueStep(old(ids.ids), old(ids.nextId), ids.ids, ids.nextId, t)
      ensures t in ids.ids && ids.ids[t] == old(ids.IdFor(t))
      ensures entityComponentSignatures == SignaturesAfterRemove(old(entityComponentSignatures), e.GetId(), ids.ids[t])
      ensures !Test(entityComponentSignatures[e.GetId()], ids.ids[t])
    {
      var componentId := ids.GetId(t);
      var entityId := e.GetId();
      entityComponentSignatures := entityComponentSignatures[entityId := Set(entityComponentSignatures[entityId], componentId, false)];
    }

    /** `HasComponent<T>(entity)`: the entity's bit for `T`. */
    method HasComponent(ids: ComponentIds, t: ComponentType, e: Entity) returns (b: bool)
      requires ids.Valid()
      requires ids.IdFor(t) < MAX_COMPONENTS
      requires e.GetId() < |entityComponentSignatures|
      modifies ids
      ensures ids.Valid()
      ensures IssueStep(old(ids.ids), old(ids.nextId), ids.ids, ids.nextId, t)
      ensures t in ids.ids && ids.ids[t] == old(ids.IdFor(t))
      ensures b <==> ids.ids[t] in Bits(entityComponentSignatures[e.GetId()])
    {
      var componentId := ids.GetId(t);
      var entityId := e.GetId();
      b := Test(entityComponentSignatures[entityId], componentId);
    }

    /** `AddSystem<S>(args...)`, with `sys` the system built from `args`: stored under `s`, replacing any earlier one. */
    method AddSystem(s: SystemType, sys: System)
      modifies this`systems
      ensures HasSystem(s) && GetSystem(s) == sys.State()
      ensures forall k :: k != s ==> (k in systems <==> k in old(systems))
      ensures forall k :: k != s && k in systems ==> systems[k] == old(systems[k])
    {
      systems := systems[s := sys.State()];
    }

    /** `RemoveSystem<S>()`. */
    method RemoveSystem(s: SystemType)
      modifies this`systems
      ensures !HasSystem(s)
      ensures forall k :: k != s ==> (k in systems <==> k in old(systems))
      ensures forall k :: k != s && k in systems ==> systems[k] == old(systems[k])
    {
      systems := systems - {s};
    }

    /** `HasSystem<S>()`: a system of type `s` is stored. */
    predicate HasSystem(s: SystemType)
      reads this`systems
      ensures HasSystem(s) <==> s in systems.Keys
    {
      s in systems
    }

    /** `GetSystem<S>()`; only defined for a system that is present. */
    function GetSystem(s: SystemType): (r: SystemState)
      reads this`systems
      requires HasSystem(s)
      ensures r in systems.Values && r == systems[s]
    {
      systems[s]
    }

    /** `AddEntityToSystems(entity)` (declared only): append `e` to every system whose signature it matches. */
    method AddEntityToSystems(e: Entity)
      requires e.GetId() < |entityComponentSignatures|
      modifies this`systems
      ensures systems == AddedToMatching(old(systems), entityComponentSignatures[e.GetId()], e)
    {
      var sig := entityComponentSignatures[e.GetId()];
      var pending := systems.Keys;
      ghost var start := systems;
      while pending != {}
        invariant pending <= start.Keys && systems.Keys == start.Keys
        invariant forall k :: k in systems ==>
          systems[k] == if k in pending then start[k] else AddedToMatching(start, sig, e)[k]
        decreases pending
      {
        var k :| k in pending;
        if Matches(systems[k].componentSignature, sig) {
          systems := systems[k := systems[k].AddEntity(e)];
        }
        pending := pending - {k};
      }
    }

    /**
     * `Update()` (declared only): every entity waiting to be added is matched
     * into the systems, then the waiting set is emptied.
     */
    method Update()
      requires forall x :: x in entitiesToBeAdded ==> x.GetId() < |entityComponentSignatures|
      modifies this`systems, this`entitiesToBeAdded
      ensures entitiesToBeAdded == {}
      ensures Synced(old(systems), systems, old(entitiesToBeAdded), entityComponentSignatures)
      ensures old(entitiesToBeAdded) == {} ==> systems == old(systems)
    {
      var pending := entitiesToBeAdded;
      ghost var done: set<Entity> := {};
      while pending != {}
        invariant entitiesToBeAdded == old(entitiesToBeAdded)
        invariant pending <= entitiesToBeAdded && done == entitiesToBeAdded - pending
        invariant Synced(old(systems), systems, done, entityComponentSignatures)
        invariant pending == entitiesToBeAdded ==> systems == old(systems)
        decreases pending
      {
        var x :| x in pending;
        SyncStep(old(systems), systems, done, entityComponentSignatures, x);
        AddEntityToSystems(x);
        pending := pending - {x};
        done := done + {x};
      }
      entitiesToBeAdded := {};
    }
  }
}
