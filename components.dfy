/**
 * The component type-id registry: `IComponent::nextId`, one counter shared by
 * every component type, and `Component<T>::GetId`, whose function-local static
 * takes the counter's value (and bumps it) on the first call for `T` only.
 */
module Components {

  /** Stands for a C++ component type `T`. */
  type ComponentType = nat

  /**
   * `order` lists the types that have an id, in the order of their first
   * `GetId` call; `ids` holds each such type's id; `next` is the counter.
   * The k-th type to be seen has id k, and the counter is the number of types seen.
   */
  ghost predicate IssuedInOrder(order: seq<ComponentType>, ids: map<ComponentType, nat>, next: nat)
  {
    |order| == next &&
    (forall t :: t in ids ==> t in order) &&
    (forall k :: 0 <= k < |order| ==> order[k] in ids && ids[order[k]] == k)
  }

  /** One `GetId(t)` call: a known type keeps its id, a new one takes the counter, which moves on by one. */
  predicate IssueStep(before: map<ComponentType, nat>, next: nat,
                      after: map<ComponentType, nat>, next': nat, t: ComponentType)
  {
    if t in before then after == before && next' == next
    else after == before[t := next] && next' == next + 1
  }

  /** Distinct types never share an id. */
  lemma {:induction false} IdsDistinct(order: seq<ComponentType>, ids: map<ComponentType, nat>, next: nat,
                                       a: ComponentType, b: ComponentType)
    requires IssuedInOrder(order, ids, next)
    requires a in ids && b in ids && a != b
    ensures ids[a] != ids[b]
  {
    var i :| 0 <= i < |order| && order[i] == a;
    var j :| 0 <= j < |order| && order[j] == b;
    assert ids[a] == i && ids[b] == j;
  }

  /** Every issued id is below the counter, so the next new type gets a fresh id. */
  lemma {:induction false} IdsBelowCounter(order: seq<ComponentType>, ids: map<ComponentType, nat>, next: nat,
                                           t: ComponentType)
    requires IssuedInOrder(order, ids, next)
    requires t in ids
    ensures ids[t] < next
  {
    var i :| 0 <= i < |order| && order[i] == t;
    assert ids[t] == i;
  }

  /** A first call keeps the registry issued in first-call order. */
  lemma {:induction false} IssueNew(order: seq<ComponentType>, ids: map<ComponentType, nat>, next: nat,
                                    t: ComponentType)
    requires IssuedInOrder(order, ids, next)
    requires t !in ids
    ensures IssuedInOrder(order + [t], ids[t := next], next + 1)
  {
    var order', ids' := order + [t], ids[t := next];
    forall u | u in ids' ensures u in order' {
      if u != t { assert u in ids; assert u in order; }
    }
    forall k | 0 <= k < |order'| ensures order'[k] in ids' && ids'[order'[k]] == k {
      if k < |order| {
        assert order'[k] == order[k];
        assert order[k] != t;
      }
    }
  }

  /** Of two types, the one first requested earlier has the smaller id. */
  lemma {:induction false} EarlierFirstCallSmallerId(order: seq<ComponentType>, ids: map<ComponentType, nat>,
                                                     next: nat, i: nat, j: nat)
    requires IssuedInOrder(order, ids, next)
    requires i < j < |order|
    ensures ids[order[i]] < ids[order[j]]
  {
  }

  /** The shared counter together with each type's cached id. */
  class ComponentIds {
    /** `IComponent::nextId`. */
    var nextId: nat
    /** The `componentId` static of each `Component<T>::GetId` that has run. */
    var ids: map<ComponentType, nat>
    /** Types in first-call order. */
    ghost var order: seq<ComponentType>

    ghost predicate Valid()
      reads this
    {
      IssuedInOrder(order, ids, nextId)
    }

    /** Static storage starts zeroed: no type has an id yet. */
    constructor ()
      ensures Valid() && nextId == 0 && ids == map[] && order == []
    {
      nextId, ids, order := 0, map[], [];
    }

    /** The id `GetId(t)` returns: the cached one, or the counter for a new type. */
    function IdFor(t: ComponentType): nat
      reads this
    {
      if t in ids then ids[t] else nextId
    }

    /** `Component<T>::GetId`. */
    method GetId(t: ComponentType) returns (id: nat)
      requires Valid()
      modifies this
      ensures Valid()
      ensures id == old(IdFor(t)) && t in ids && ids[t] == id
      ensures IssueStep(old(ids), old(nextId), ids, nextId, t)
      ensures order == if t in old(ids) then old(order) else old(order) + [t]
    {
      if t in ids {
        id := ids[t];
      } else {
        IssueNew(order, ids, nextId, t);
        id := nextId;
        ids := ids[t := id];
        nextId := nextId + 1;
        order := order + [t];
      }
    }
  }
}
