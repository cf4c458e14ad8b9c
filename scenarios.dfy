/**
 * Clients of the registry that replay typical usage: each runs on
 * fresh objects and its postcondition is what the caller can conclude from
 * the contracts of the registry, the systems and the id counter alone.
 */
module Scenarios {
  import opened Signatures
  import opened Entities
  import opened Components
  import opened Systems
  import opened Registries

  const Position: ComponentType := 1
  const Velocity: ComponentType := 2
  const Sprite: ComponentType := 3

  const Movement: SystemType := 1
  const Render: SystemType := 2

  /** Two first calls in a row get 0 and 1; asking again for the first gives the same id. */
  method IdsInFirstCallOrder(a: ComponentType, b: ComponentType) returns (idA: nat, idB: nat, idAAgain: nat)
    requires a != b
    ensures idA == 0 && idB == 1 && idA < idB
    ensures idAAgain == idA
  {
    var ids := new ComponentIds();
    idA := ids.GetId(a);
    idB := ids.GetId(b);
    idAAgain := ids.GetId(a);
  }

  /** A registry holding one entity with Position and Velocity, waiting to be synchronised. */
  method OneMovingEntity() returns (ids: ComponentIds, registry: Registry<int>, e: Entity)
    ensures fresh(ids) && fresh(registry) && fresh(registry.Pools())
    ensures ids.Valid() && registry.Valid() && ids.ids == map[Position := 0, Velocity := 1] && ids.nextId == 2
    ensures registry.systems == map[] && registry.entitiesToBeAdded == {e}
    ensures registry.numEntities == 1 && |registry.componentPools| == 2
    ensures e.GetId() == 0 && |registry.entityComponentSignatures| == 2
    ensures Bits(registry.entityComponentSignatures[0]) == {0, 1}
    ensures registry.entityComponentSignatures[1] == Empty()
  {
    ids := new ComponentIds();
    registry := new Registry<int>(0);
    e := registry.CreateEntity();
    registry.AddComponent(ids, Position, e, 10);
    assert ids.ids == map[Position := 0] && |registry.componentPools| == 1;
    assert |registry.entityComponentSignatures| == 1 && Bits(registry.entityComponentSignatures[0]) == {0};
    registry.AddComponent(ids, Velocity, e, 20);
  }

  /** The registry above plus e2 = (Position). */
  method TwoEntities() returns (ids: ComponentIds, registry: Registry<int>, e1: Entity, e2: Entity)
    ensures fresh(ids) && fresh(registry)
    ensures ids.Valid() && ids.ids == map[Position := 0, Velocity := 1]
    ensures registry.systems == map[] && registry.entitiesToBeAdded == {e1, e2}
    ensures e1.GetId() == 0 && e2.GetId() == 1 && e1 != e2
    ensures |registry.entityComponentSignatures| == 2
    ensures Bits(registry.entityComponentSignatures[0]) == {0, 1}
    ensures Bits(registry.entityComponentSignatures[1]) == {0}
  {
    ids, registry, e1 := OneMovingEntity();
    ghost var sigs1 := registry.entityComponentSignatures;
    e2 := registry.CreateEntity();
    assert registry.entityComponentSignatures == sigs1;
    registry.AddComponent(ids, Position, e2, 30);
  }

  /** A system whose constructor requires the two components `a` and `b`, both already known to `ids`. */
  method SystemRequiring(ids: ComponentIds, a: ComponentType, b: ComponentType) returns (sys: System)
    requires ids.Valid() && a in ids.ids && b in ids.ids
    requires ids.ids[a] < MAX_COMPONENTS && ids.ids[b] < MAX_COMPONENTS
    modifies ids
    ensures ids.Valid() && ids.ids == old(ids.ids) && ids.nextId == old(ids.nextId)
    ensures fresh(sys) && sys.entities == []
    ensures Bits(sys.componentSignature) == {ids.ids[a], ids.ids[b]}
  {
    sys := new System();
    sys.RequireComponent(ids, a);
    sys.RequireComponent(ids, b);
  }

  /**
   * An entity with Position and Velocity is matched into a system requiring
   * both; an entity with Position only is not.
   */
  method MovementScenario() returns (firstMoves: bool, secondMoves: bool)
    ensures firstMoves && !secondMoves
  {
    var ids, registry, e1, e2 := TwoEntities();
    var movement := SystemRequiring(ids, Position, Velocity);
    registry.AddSystem(Movement, movement);
    registry.Update();

    var sigs := registry.entityComponentSignatures;
    MatchesIffSubset(movement.componentSignature, sigs[0]);
    MatchesIffSubset(movement.componentSignature, sigs[1]);
    var state := registry.GetSystem(Movement);
    firstMoves := e1 in state.entities;
    secondMoves := e2 in state.entities;
  }

  /** The one-entity registry above with Sprite added to its entity. */
  method OneEntityThreeComponents() returns (ids: ComponentIds, registry: Registry<int>, e: Entity)
    ensures fresh(ids) && fresh(registry)
    ensures ids.Valid() && ids.ids == map[Position := 0, Velocity := 1, Sprite := 2]
    ensures registry.systems == map[] && registry.entitiesToBeAdded == {e}
    ensures e.GetId() == 0 && |registry.entityComponentSignatures| == 3
    ensures Bits(registry.entityComponentSignatures[0]) == {0, 1, 2}
  {
    ids, registry, e := OneMovingEntity();
    registry.AddComponent(ids, Sprite, e, 3);
  }

  /** One entity that satisfies two overlapping signatures is listed by both systems. */
  method OverlappingSystems() returns (inMovement: bool, inRender: bool)
    ensures inMovement && inRender
  {
    var ids, registry, e := OneEntityThreeComponents();
    var movement := SystemRequiring(ids, Position, Velocity);
    var render := SystemRequiring(ids, Position, Sprite);
    registry.AddSystem(Movement, movement);
    registry.AddSystem(Render, render);
    registry.Update();

    var sig := registry.entityComponentSignatures[0];
    MatchesIffSubset(movement.componentSignature, sig);
    MatchesIffSubset(render.componentSignature, sig);
    inMovement := e in registry.GetSystem(Movement).entities;
    inRender := e in registry.GetSystem(Render).entities;
  }

  /**
   * Three entities, then a component on the first: the signature table is cut
   * down to the one pool, so the second entity no longer has a slot and
   * `HasComponent`, `AddComponent` and `Update` are out of contract for it.
   */
  method TableShrinks() returns (slotsBefore: nat, slotsAfter: nat, secondId: nat, secondHasSlot: bool)
    ensures slotsBefore == 3 && slotsAfter == 1
    ensures secondId == 1 && !secondHasSlot
  {
    var ids := new ComponentIds();
    var registry := new Registry<int>(0);
    var e0 := registry.CreateEntity();
    var e1 := registry.CreateEntity();
    var e2 := registry.CreateEntity();
    slotsBefore := |registry.entityComponentSignatures|;
    registry.AddComponent(ids, Position, e0, 10);
    slotsAfter := |registry.entityComponentSignatures|;
    secondId := e1.GetId();
    secondHasSlot := secondId < slotsAfter;
  }

  /** Adding a component stores the value and sets the bit; removing it clears the bit and keeps the value. */
  method ComponentLifecycle(v: int) returns (hadIt: bool, stored: int, hasAfterRemove: bool, storedAfterRemove: int)
    ensures hadIt && stored == v
    ensures !hasAfterRemove && storedAfterRemove == v
  {
    var ids := new ComponentIds();
    var registry := new Registry<int>(0);
    var e := registry.CreateEntity();
    registry.AddComponent(ids, Position, e, v);
    hadIt := registry.HasComponent(ids, Position, e);
    var pool := registry.componentPools[0].value;
    stored := pool.Get(e.GetId());
    registry.RemoveComponent(ids, Position, e);
    hasAfterRemove := registry.HasComponent(ids, Position, e);
    storedAfterRemove := pool.Get(e.GetId());
  }
}
