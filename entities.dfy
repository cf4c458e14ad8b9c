/** `Entity`: a handle holding a 64-bit id, compared by id. */
module Entities {

  /** `uint64_t`. */
  type u64 = x: int | 0 <= x < 0x1_0000_0000_0000_0000

  /** 2^32: `unsigned int` holds values below this. */
  const UINT_RANGE: nat := 0x1_0000_0000

  datatype Entity = Entity(id: u64) {

    /**
     * `Entity::GetId`, declared to return `unsigned int` from the 64-bit id:
     * the id reduced modulo 2^32 (the body is not part of this model; this is
     * the conversion the declared types impose).
     */
    function GetId(): (r: nat)
      ensures r < UINT_RANGE
      ensures id < UINT_RANGE ==> r == id
      ensures exists k: nat :: id == k * UINT_RANGE + r
    {
      var r := id % UINT_RANGE;
      assert id == (id / UINT_RANGE) * UINT_RANGE + r;
      r
    }

    /** `operator==`: two handles are equal exactly when they are the same entity. */
    predicate Eq(other: Entity)
      ensures Eq(other) <==> this == other
    {
      id == other.id
    }

    /** `operator!=`: the negation of `==`. */
    predicate Ne(other: Entity)
      ensures Ne(other) <==> this != other
    {
      id != other.id
    }

    /** `operator<`: ordered by id, so never between a handle and itself. */
    predicate Lt(other: Entity)
      ensures Lt(other) ==> this != other
    {
      id < other.id
    }

    /** `operator>`: the converse of `<`. */
    predicate Gt(other: Entity)
      ensures Gt(other) <==> other.Lt(this)
    {
      id > other.id
    }
  }

  /**
   * The comparison operators agree with each other and with identity: `==` is
   * equality of handles, `!=` its negation, `>` the converse of `<`, and `<`
   * is a strict total order (what `std::set<Entity>` needs).
   */
  lemma {:induction false} ComparisonsConsistent(a: Entity, b: Entity, c: Entity)
    ensures a.Eq(b) <==> a == b
    ensures a.Ne(b) <==> !a.Eq(b)
    ensures a.Gt(b) <==> b.Lt(a)
    ensures !a.Lt(a)
    ensures a.Lt(b) && b.Lt(c) ==> a.Lt(c)
    ensures a.Lt(b) || a.Eq(b) || b.Lt(a)
  {
  }
}
