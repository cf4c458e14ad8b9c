/** `Pool<T>`: the storage for one component type, a vector indexed by entity id. */
module Pools {
  import opened Vectors

  /** The default argument of `Pool`'s constructor. */
  const DEFAULT_POOL_SIZE: nat := 64

  /** `uint16_t` holds values below this. */
  const UINT16_RANGE: nat := 0x1_0000

  /** `int` holds non-negative values below this. */
  const INT_MAX_PLUS_ONE: nat := 0x8000_0000

  /** 2^32: converting a `size_t` to the 32-bit `int` keeps its value modulo this. */
  const INT_RANGE: nat := 0x1_0000_0000

  /**
   * One pool over a single value type `V`. `blank` stands for `T()`, the
   * value-initialised component that `vector::resize` fills new slots with.
   */
  class Pool<V> {
    var data: seq<V>
    const blank: V

    /** `Pool(uint16_t size = 64)`: `size` slots holding `blank`; the argument is taken modulo 2^16. */
    constructor (size: nat, blank: V)
      ensures this.blank == blank
      ensures Size() == size % UINT16_RANGE
      ensures forall i :: 0 <= i < Size() ==> data[i] == blank
    {
      this.blank := blank;
      data := Resized([], size % UINT16_RANGE, blank);
    }

    /** `Size()`: the number of slots, which bounds the indices `Get`, `Set` and `operator[]` accept. */
    function Size(): (r: nat)
      reads this
      ensures r == |data|
    {
      |data|
    }

    /** `IsEmpty()`. */
    predicate IsEmpty()
      reads this
      ensures IsEmpty() <==> Size() == 0
    {
      data == []
    }

    /** `Get(index)`: the component stored in slot `index`; `Pool::Get` does not check the bound. */
    function Get(index: nat): (r: V)
      reads this
      requires index < Size()
      ensures r == data[index]
    {
      data[index]
    }

    /**
     * `operator[]`: the index is first converted to `int`, which keeps its low
     * 32 bits read as a signed number. The slot reached is the one at that
     * value, which must be non-negative and below `Size()`.
     */
    function At(index: nat): (r: V)
      reads this
      requires index % INT_RANGE < INT_MAX_PLUS_ONE && index % INT_RANGE < Size()
      ensures r == Get(index % INT_RANGE)
      ensures index < INT_MAX_PLUS_ONE ==> r == Get(index)
    {
      data[index % INT_RANGE]
    }

    /** `Resize(n)`: `vector::resize`. */
    method Resize(n: nat)
      modifies this
      ensures data == Resized(old(data), n, blank)
      ensures Size() == n
      ensures forall i :: 0 <= i < n && i < old(Size()) ==> Get(i) == old(Get(i))
    {
      data := Resized(data, n, blank);
    }

    /** `Clear()`. */
    method Clear()
      modifies this
      ensures IsEmpty() && Size() == 0
    {
      data := [];
    }

    /** `Add(object)`: append one slot. */
    method Add(v: V)
      modifies this
      ensures Size() == old(Size()) + 1
      ensures Get(Size() - 1) == v
      ensures data == old(data) + [v]
    {
      data := data + [v];
    }

    /** `Set(index, object)`; `Pool::Set` does not check the bound. */
    method Set(index: nat, v: V)
      requires index < Size()
      modifies this
      ensures data == old(data)[index := v]
      ensures Size() == old(Size()) && Get(index) == v
      ensures forall i :: 0 <= i < Size() && i != index ==> Get(i) == old(Get(i))
    {
      data := data[index := v];
    }
  }
}
