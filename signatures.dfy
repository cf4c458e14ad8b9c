/**
 * `Signature`, a `std::bitset<MAX_COMPONENTS>`. On an entity, bit i means
 * "the component with id i is present"; on a system it means "the component
 * with id i is required".
 */
module Signatures {

  /** `MAX_COMPONENTS`: the width of every signature. */
  const MAX_COMPONENTS: nat := 128

  /** Entry i of the sequence is bit i of the bitset. */
  type Signature = s: seq<bool> | |s| == MAX_COMPONENTS witness seq(128, _ => false)

  /** The set of ids whose bit is on: the abstract meaning of a signature. */
  function Bits(s: Signature): set<nat>
  {
    set i | 0 <= i < MAX_COMPONENTS && s[i]
  }

  /** A default-constructed bitset: every bit off. */
  function Empty(): (r: Signature)
    ensures Bits(r) == {}
  {
    seq(MAX_COMPONENTS, _ => false)
  }

  /** `bitset::test(pos)`; the bitset rejects `pos >= MAX_COMPONENTS`. */
  predicate Test(s: Signature, pos: nat)
    requires pos < MAX_COMPONENTS
    ensures Test(s, pos) <==> pos in Bits(s)
  {
    s[pos]
  }

  /** `bitset::set(pos, value)`: bit `pos` becomes `value`, every other bit stays. */
  function Set(s: Signature, pos: nat, value: bool := true): (r: Signature)
    requires pos < MAX_COMPONENTS
    ensures Test(r, pos) == value
    ensures forall i :: 0 <= i < MAX_COMPONENTS && i != pos ==> r[i] == s[i]
  {
    s[pos := value]
  }

  /** Bitwise `a & b`. */
  function And(a: Signature, b: Signature): (r: Signature)
    ensures Bits(r) == Bits(a) * Bits(b)
  {
    seq(MAX_COMPONENTS, i requires 0 <= i < MAX_COMPONENTS => a[i] && b[i])
  }

  /**
   * The system-matching rule: an entity with signature `present` belongs to a
   * system that requires `required` when `(present & required) == required`.
   */
  predicate Matches(required: Signature, present: Signature)
  {
    And(present, required) == required
  }

  /** Setting or clearing one bit adds or removes exactly that id. */
  lemma {:induction false} SetBits(s: Signature, pos: nat, value: bool)
    requires pos < MAX_COMPONENTS
    ensures Bits(Set(s, pos, value)) == if value then Bits(s) + {pos} else Bits(s) - {pos}
  {
    var r := Set(s, pos, value);
    forall i | 0 <= i < MAX_COMPONENTS ensures i in Bits(r) <==> i in (if value then Bits(s) + {pos} else Bits(s) - {pos}) {
      if i != pos { assert r[i] == s[i]; }
    }
  }

  /** Matching is bitwise inclusion: every required bit is on in `present`. */
  lemma {:induction false} MatchesIffSubset(required: Signature, present: Signature)
    ensures Matches(required, present) <==> Bits(required) <= Bits(present)
    ensures Matches(required, present) <==>
            forall i :: 0 <= i < MAX_COMPONENTS && required[i] ==> present[i]
  {
    var a := And(present, required);
    if Bits(required) <= Bits(present) {
      forall i | 0 <= i < MAX_COMPONENTS ensures a[i] == required[i] {
        if required[i] { assert i in Bits(required); }
      }
      assert a == required;
    }
    if Matches(required, present) {
      forall i | 0 <= i < MAX_COMPONENTS && required[i] ensures present[i] {
        assert a[i] == required[i];
      }
    }
  }

  /** Requiring one more component narrows a system to the entities that also have it. */
  lemma {:induction false} RequireNarrows(required: Signature, present: Signature, pos: nat)
    requires pos < MAX_COMPONENTS
    ensures Matches(Set(required, pos), present) <==> Matches(required, present) && Test(present, pos)
  {
    MatchesIffSubset(required, present);
    MatchesIffSubset(Set(required, pos), present);
    SetBits(required, pos, true);
  }

  /** Gaining a component never makes an entity stop matching a system. */
  lemma {:induction false} SetKeepsMatch(required: Signature, present: Signature, pos: nat)
    requires pos < MAX_COMPONENTS
    requires Matches(required, present)
    ensures Matches(required, Set(present, pos))
  {
    MatchesIffSubset(required, present);
    MatchesIffSubset(required, Set(present, pos));
    SetBits(present, pos, true);
  }

  /** Losing a component that a system requires makes the entity stop matching it. */
  lemma {:induction false} ClearUnmatches(required: Signature, present: Signature, pos: nat)
    requires pos < MAX_COMPONENTS
    requires Test(required, pos)
    ensures !Matches(required, Set(present, pos, false))
  {
    MatchesIffSubset(required, Set(present, pos, false));
  }

  /** The empty signature is matched by every entity. */
  lemma {:induction false} EmptyMatchesAll(present: Signature)
    ensures Matches(Empty(), present)
  {
    MatchesIffSubset(Empty(), present);
  }
}
