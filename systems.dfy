/**
 * `System`: a required signature, built by `RequireComponent`, and the list
 * of entities currently matched to the system.
 */
module Systems {
  import opened Signatures
  import opened Entities
  import opened Components

  /** Stands for a C++ system type `TSystem`. */
  type SystemType = nat

  /** `s` with every handle equal to `e` taken out, the others in their order. */
  function Without(s: seq<Entity>, e: Entity): (r: seq<Entity>)
    ensures |r| <= |s|
  {
    if s == [] then []
    else Without(s[..|s| - 1], e) + (if s[|s| - 1] == e then [] else [s[|s| - 1]])
  }

  /** After removal `e` is gone and every other handle is still there. */
  lemma {:induction false} WithoutMembers(s: seq<Entity>, e: Entity)
    ensures forall x :: x in Without(s, e) <==> x in s && x != e
  {
    if s != [] {
      WithoutMembers(s[..|s| - 1], e);
      assert s == s[..|s| - 1] + [s[|s| - 1]];
    }
  }

  /** The value of a system: what the registry keeps and `GetSystem` gives back. */
  datatype SystemState = SystemState(componentSignature: Signature, entities: seq<Entity>) {

    /** `AddEntity`: append; an entity already present is appended again. */
    function AddEntity(e: Entity): (r: SystemState)
      ensures r.componentSignature == componentSignature
      ensures |r.entities| == |entities| + 1 && r.entities[|entities|] == e
      ensures r.entities[..|entities|] == entities
    {
      this.(entities := entities + [e])
    }

    /** `RemoveEntity`: drop every handle equal to `e`. */
    function RemoveEntity(e: Entity): (r: SystemState)
      ensures r.componentSignature == componentSignature
      ensures forall x :: x in r.entities <==> x in entities && x != e
    {
      WithoutMembers(entities, e);
      this.(entities := Without(entities, e))
    }
  }

  class System {
    var componentSignature: Signature
    var entities: seq<Entity>

    /** A new system requires nothing and tracks no entity. */
    constructor ()
      ensures componentSignature == Empty() && entities == []
    {
      componentSignature := Empty();
      entities := [];
    }

    function State(): SystemState
      reads this
    {
      SystemState(componentSignature, entities)
    }

    /** `GetComponentSignature()`: the signature part of the system's value. */
    function GetComponentSignature(): (r: Signature)
      reads this
      ensures r == State().componentSignature
    {
      componentSignature
    }

    /** `GetEntities()`: a copy of the entity list, the entity part of the system's value. */
    function GetEntities(): (r: seq<Entity>)
      reads this
      ensures r == State().entities
    {
      entities
    }

    /** `RequireComponent<T>()`: turn on the bit of `T`'s id. */
    method RequireComponent(ids: ComponentIds, t: ComponentType)
      requires ids.Valid()
      requires ids.IdFor(t) < MAX_COMPONENTS
      modifies this, ids
      ensures ids.Valid()
      ensures IssueStep(old(ids.ids), old(ids.nextId), ids.ids, ids.nextId, t)
      ensures t in ids.ids && ids.ids[t] == old(ids.IdFor(t))
      ensures componentSignature == Set(old(componentSignature), ids.ids[t])
      ensures Bits(componentSignature) == old(Bits(componentSignature)) + {ids.ids[t]}
      ensures entities == old(entities)
    {
      var componentId := ids.GetId(t);
      SetBits(componentSignature, componentId, true);
      componentSignature := Set(componentSignature, componentId);
    }

    /** `AddEntity(entity)`. */
    method AddEntity(e: Entity)
      modifies this
      ensures State() == old(State()).AddEntity(e)
    {
      entities := entities + [e];
    }

    /** `RemoveEntity(entity)`. */
    method RemoveEntity(e: Entity)
      modifies this
      ensures State() == old(State()).RemoveEntity(e)
    {
      entities := Without(entities, e);
    }
  }
}
