# ECS core of stabby2d, modelled in Dafny

This project models the entity-component-system core of the stabby2d game
(`src/ECS/ECS.hpp`) and proves properties of it. The model has these parts:

- **Component type ids** (`components.dfy`). The counter `IComponent::nextId` is
  shared by all component types. `Component<T>::GetId` gives each type a small id
  the first time it is asked. Here this is a `ComponentIds` object. Its `ids` map
  holds each type's cached id, and the ghost `order` lists the types in
  first-call order. A component type is a `nat` token.
- **Signature** (`signatures.dfy`). A `std::bitset<128>` becomes a
  `seq<bool>` of length `MAX_COMPONENTS`. The module defines `set`, `test` and
  `&` on it, plus the system-matching rule `(entity & system) == system`.
  Lemmas prove that this rule is inclusion of bit sets.
- **Entity** (`entities.dfy`). A datatype over a 64-bit id, with the four
  comparison operators.
- **Pool** (`pools.dfy`). `Pool<T>` becomes a class over `data: seq<V>` for one
  generic value type `V`. `blank` stands for the value-initialised `T()` that
  `vector::resize` fills new slots with. `vector::resize` itself is the function
  `Vectors.Resized` (`vectors.dfy`).
- **System** (`systems.dfy`). A class holding the required signature, built by
  `RequireComponent`, and the entity list. `SystemState` is its value, and that
  value is what the registry stores.
- **Registry** (`registry.dfy`). A class holding:
  - `numEntities`;
  - `componentPools: seq<Option<Pool<V>>>`;
  - `entityComponentSignatures: seq<Signature>`;
  - `systems: map<SystemType, SystemState>`;
  - the two pending entity sets.

  Each operation that changes state says what the new state is, in terms of
  the old state. It does so through specification functions
  (`PoolAfterStore`, `SignaturesAfterAdd`, `SignaturesAfterRemove`,
  `AddedToMatching`, `Synced`), and lemmas state the properties of those
  functions. `HasSystem` and `GetSystem` are plain reads of the map.
  `GetSystem` requires the system to be present.
- **Scenarios** (`scenarios.dfy`). Client methods that run typical usage
  on fresh objects. Each one's postcondition follows from the contracts above
  alone.

Points where the code behaves differently from what its names and comments
suggest. The model follows the code in each case:

- `AddComponent` resizes the signature table to the number of component pools
  (ECS.hpp:201), whatever its length was. The table can therefore shrink,
  which drops the slots of entities whose id is at least the number of pools.
  The write at ECS.hpp:203 is only in bounds when the entity id is below the
  pool count. That is a precondition of `AddComponent`.
- The signature table is never shorter than the table of pools: the
  constructor starts both empty, `AddComponent` makes the two lengths equal,
  and, under the `CreateEntity` body assumed below, `CreateEntity` only
  lengthens the signatures. This is part of `Registry.Valid`.
- Pools are not kept as long as the entity count. Under the `CreateEntity` body
  assumed below, `CreateEntity` grows no pool, and a new pool always gets 64 slots (ECS.hpp:83,188) whatever `numEntities`
  is. A pool that is too short for the entity is resized to `numEntities`
  (ECS.hpp:193-194), not to the entity id plus one. The following write is only
  in bounds when `entityId < numEntities`. That is also a precondition.
- `Pool::Resize(n)` is commented at ECS.hpp:107 as "`vector::reserve` if n is
  greater than the container size, `vector::resize` otherwise", but the body at
  ECS.hpp:110 always calls `vector::resize`. A larger n therefore adds
  value-initialised slots, and a smaller n truncates.
- `std::bitset::set` and `test` are defined only for positions below 128
  (ECS.hpp:13,173,203,212,220). Every component id used on a signature must
  therefore be below `MAX_COMPONENTS`.
- `Entity::GetId` is declared to return `unsigned int` from a `uint64_t` id
  (ECS.hpp:34,45). It is modelled as the id modulo 2^32.
- `Pool`'s constructor takes a `uint16_t` (ECS.hpp:83). The requested size is
  modelled modulo 2^16.
- `Pool::operator[]` converts its `size_t` index with `static_cast<int>`
  (ECS.hpp:127). The model keeps the low 32 bits of the index, so an index of
  2^32 or more reaches the slot at that remainder.

ECS.hpp only declares the following members; their bodies are not part of it:
`CreateEntity`, `AddEntityToSystems`, `Update`, `Entity::GetId`,
`System::AddEntity`, `RemoveEntity`, `GetEntities` and `GetComponentSignature`.
The model assumes these bodies:

- `CreateEntity`: `id = numEntities++`; if the signature table has no slot for
  `id`, it is grown to `id + 1` empty signatures; the entity is inserted into
  `entitiesToBeAdded`.
- `AddEntityToSystems(e)`: for every stored system, if `Matches(system
  signature, signature of e)` then `system.AddEntity(e)`.
- `Update`: `AddEntityToSystems(e)` for every `e` in `entitiesToBeAdded`, then
  `entitiesToBeAdded.clear()`.
- `System::AddEntity(e)`: `entities.push_back(e)`. `RemoveEntity(e)`: erase
  every element equal to `e`. The two getters return the fields.

## Model

| member | source | states |
|---|---|---|
| `Vectors.Resized` | src/ECS/ECS.hpp:110 | `vector::resize(n)`: the result has length n, the first min(old length, n) elements are kept, and later slots hold the fill value |
| `Vectors.GrowKeepsWrite` | src/ECS/ECS.hpp:193-199 | writing a slot and growing the vector can be done in either order with the same result |
| `Signatures.Empty` | src/ECS/ECS.hpp:16 | a default-constructed signature has no bit set |
| `Signatures.Test` | src/ECS/ECS.hpp:220 | `bitset::test(pos)` is true exactly when pos is among the signature's ids; pos must be below 128 |
| `Signatures.Set` | src/ECS/ECS.hpp:173 | `bitset::set(pos, value)`: bit pos becomes value and every other bit is unchanged; pos must be below 128 |
| `Signatures.And` | src/ECS/ECS.hpp:14-16 | the bits of `a & b` are the bits common to a and b |
| `Signatures.SetBits` | src/ECS/ECS.hpp:173 | setting bit pos adds exactly pos to the signature's set of ids, and clearing it removes exactly pos |
| `Signatures.MatchesIffSubset` | src/ECS/ECS.hpp:164-165 | `(entity & system) == system` holds exactly when every id the system requires is present on the entity, in both directions |
| `Signatures.RequireNarrows` | src/ECS/ECS.hpp:170-174 | after the system requires one more component, an entity matches exactly when it matched before and also has that component |
| `Signatures.SetKeepsMatch` | src/ECS/ECS.hpp:203 | an entity that gains a component still matches every system it matched |
| `Signatures.ClearUnmatches` | src/ECS/ECS.hpp:212 | an entity that loses a component stops matching every system that requires it |
| `Signatures.EmptyMatchesAll` | src/ECS/ECS.hpp:56 | a system that requires nothing matches every entity |
| `Components.IdsDistinct` | src/ECS/ECS.hpp:26-29 | two different component types never share an id |
| `Components.IdsBelowCounter` | src/ECS/ECS.hpp:20-29 | every id already issued is below the shared counter |
| `Components.IssueNew` | src/ECS/ECS.hpp:27 | a first call gives the new type the counter's value and bumps the counter, which keeps ids in first-call order |
| `Components.EarlierFirstCallSmallerId` | src/ECS/ECS.hpp:26-29 | a type first requested earlier has a smaller id |
| `Components.ComponentIds.constructor` | src/ECS/ECS.hpp:20 | the shared counter starts at 0 and no type has an id yet |
| `Components.ComponentIds.GetId` | src/ECS/ECS.hpp:26-29 | a type seen before gets its cached id and nothing changes; a new type gets the counter's value, the counter goes up by one, and the type joins the end of the first-call order |
| `Entities.Entity.GetId` | src/ECS/ECS.hpp:45 | the result fits in `unsigned int`, equals the id when the id fits, and is congruent to the id modulo 2^32 |
| `Entities.Entity.Eq` | src/ECS/ECS.hpp:47 | `==` on ids holds exactly when the two handles are the same entity |
| `Entities.Entity.Ne` | src/ECS/ECS.hpp:48 | `!=` on ids holds exactly when the two handles are different entities |
| `Entities.Entity.Lt` | src/ECS/ECS.hpp:49 | `<` on ids never holds between a handle and itself |
| `Entities.Entity.Gt` | src/ECS/ECS.hpp:50 | `a > b` holds exactly when `b < a` |
| `Entities.ComparisonsConsistent` | src/ECS/ECS.hpp:47-50 | `==` is handle equality, `!=` is its negation, `>` is the converse of `<`, and `<` is a strict total order |
| `Pools.Pool.constructor` | src/ECS/ECS.hpp:83-85 | a new pool has as many slots as requested (modulo 2^16), all holding the value-initialised component |
| `Pools.Pool.Size` | src/ECS/ECS.hpp:103-105 | the number of stored slots; `Get` and `Set` accept exactly the indices below it, while `operator[]` accepts the indices whose low 32 bits are below it and below 2^31 |
| `Pools.Pool.IsEmpty` | src/ECS/ECS.hpp:97-105 | the pool is empty exactly when `Size()` is 0 |
| `Pools.Pool.At` | src/ECS/ECS.hpp:126-128 | `operator[]` returns the slot `Get` returns at the index modulo 2^32, which is the index itself when it fits in `int`; that remainder must be below 2^31 and below `Size()` |
| `Pools.Pool.Resize` | src/ECS/ECS.hpp:110 | afterwards `Size() == n`, and every slot below min(old size, n) keeps its value |
| `Pools.Pool.Clear` | src/ECS/ECS.hpp:112 | afterwards the pool is empty and `Size()` is 0 |
| `Pools.Pool.Add` | src/ECS/ECS.hpp:114-116 | the size grows by one, v is the last slot, and the earlier slots are unchanged |
| `Pools.Pool.Get` | src/ECS/ECS.hpp:122-124 | the component stored in slot index; index must be below `Size()` |
| `Pools.Pool.Set` | src/ECS/ECS.hpp:118-120 | afterwards `Get(index)` is v, the size and every other slot are unchanged, and index must be below `Size()` |
| `Systems.WithoutMembers` | src/ECS/ECS.hpp:61 | after removing e, a handle is listed exactly when it was listed before and is not e |
| `Systems.SystemState.AddEntity` | src/ECS/ECS.hpp:60 | e is appended after the old list and the signature is unchanged; an entity already present is appended again |
| `Systems.SystemState.RemoveEntity` | src/ECS/ECS.hpp:61 | every handle equal to e disappears, the others stay, and the signature is unchanged |
| `Systems.System.constructor` | src/ECS/ECS.hpp:54-57 | a new system requires nothing and lists no entity |
| `Systems.System.RequireComponent` | src/ECS/ECS.hpp:170-174 | exactly the bit of `GetId<T>()` is turned on, no other bit changes, and the id must be below 128 |
| `Systems.System.GetComponentSignature` | src/ECS/ECS.hpp:63 | the required signature, as held in the system's value |
| `Systems.System.GetEntities` | src/ECS/ECS.hpp:62 | the entity list, as held in the system's value |
| `Systems.System.AddEntity` | src/ECS/ECS.hpp:60 | the system's new value is its old value with e appended |
| `Systems.System.RemoveEntity` | src/ECS/ECS.hpp:61 | the system's new value is its old value with e removed |
| `Registries.PoolAfterStore` | src/ECS/ECS.hpp:193-199 | the slot at the entity's index holds v; the pool never shrinks; its other slots keep their values; slots added by growing hold the blank value |
| `Registries.SignaturesAfterAdd` | src/ECS/ECS.hpp:201-203 | the table has one entry per pool, and the entity's entry gains exactly the component's bit. Entries of other entities below both lengths are unchanged, new entries are empty, and entries at or past the pool count are gone |
| `Registries.SignaturesAfterRemove` | src/ECS/ECS.hpp:212 | only the component's bit of the entity's entry is cleared, and every other entry is unchanged |
| `Registries.RemoveUndoesAdd` | src/ECS/ECS.hpp:201-213 | adding a component the entity did not have and removing it again leaves the table as the resize to the pool count n left it. That is the original table exactly when n equals its length; with fewer pools, the entries at or past n are gone |
| `Registries.AddTwiceIsAddOnce` | src/ECS/ECS.hpp:201-203 | adding the same component to the same entity twice leaves the table as adding it once |
| `Registries.AddedToMatching` | src/ECS/ECS.hpp:164-166 | the systems and their signatures stay the same; e joins exactly the systems whose required bits are all present in its signature |
| `Registries.SyncStep` | src/ECS/ECS.hpp:164-167 | syncing one more pending entity extends a synced system table, which is the loop step of `Update` |
| `Registries.Registry.constructor` | src/ECS/ECS.hpp:134-147 | a new registry has no entities, pools, signatures, systems or pending entities, and satisfies the invariant `Valid` |
| `Registries.Registry.CreateEntity` | src/ECS/ECS.hpp:151 | the new entity's id is the old counter and the counter goes up by one. The entity is queued for `Update`, and its signature slot exists, with the slots before it unchanged. The signature table stays at least as long as the table of pools |
| `Registries.Registry.AddComponent` | src/ECS/ECS.hpp:176-205 | the pool table covers `GetId<T>()` and that slot holds a pool. The pool's slot at the entity id holds v, and other pools' contents are untouched. The signature table is `SignaturesAfterAdd`, exactly as long as the table of pools, so `HasComponent<T>(e)` is true. Two conditions that keep the source's writes in bounds are preconditions: when the pool is too short, the entity id must be below `numEntities`; and the entity id must be below the new pool count |
| `Registries.Registry.PoolFor` | src/ECS/ECS.hpp:181-191 | the pool table grows with null slots up to the id; an existing pool is kept, and an empty slot gets a fresh default pool of 64 blank slots |
| `Registries.Registry.Store` | src/ECS/ECS.hpp:193-199 | the pool's new contents are `PoolAfterStore` of its old contents |
| `Registries.Registry.MarkPresent` | src/ECS/ECS.hpp:201-203 | the signature table becomes `SignaturesAfterAdd` of the old table with the current pool count |
| `Registries.Registry.RemoveComponent` | src/ECS/ECS.hpp:207-213 | only the component's bit of the entity is cleared, so `HasComponent<T>(e)` is false; pools, the other entities' signatures and the other fields are untouched |
| `Registries.Registry.HasComponent` | src/ECS/ECS.hpp:215-221 | the result is whether `GetId<T>()` is in the entity's signature; the call may issue T's id |
| `Registries.Registry.AddSystem` | src/ECS/ECS.hpp:223-226 | `HasSystem(s)` holds and `GetSystem(s)` is the newly built system, replacing any earlier instance; entries of other system types are unchanged |
| `Registries.Registry.RemoveSystem` | src/ECS/ECS.hpp:228-233 | `HasSystem(s)` is false and entries of other system types are unchanged |
| `Registries.Registry.HasSystem` | src/ECS/ECS.hpp:235-238 | true exactly when a system of that type is stored |
| `Registries.Registry.GetSystem` | src/ECS/ECS.hpp:240-243 | the stored system of that type; only called when `HasSystem` holds |
| `Registries.Registry.AddEntityToSystems` | src/ECS/ECS.hpp:164-166 | the system table becomes `AddedToMatching` of the old one with the entity's current signature |
| `Registries.Registry.Update` | src/ECS/ECS.hpp:167 | the pending set becomes empty. Each system keeps its signature and old list as a prefix, and lists an entity exactly when it listed it before or the entity was pending and matches. With nothing pending, the systems are unchanged |
| `Scenarios.IdsInFirstCallOrder` | src/ECS/ECS.hpp:26-29 | two distinct types requested first get ids 0 and 1 in call order, and asking again returns the same id |
| `Scenarios.MovementScenario` | src/ECS/ECS.hpp:149-167 | after `Update`, an entity with Position and Velocity is in a system requiring both, and an entity with Position only is not |
| `Scenarios.OverlappingSystems` | src/ECS/ECS.hpp:164-167 | one entity that satisfies two overlapping signatures is listed by both systems |
| `Scenarios.TableShrinks` | src/ECS/ECS.hpp:151-205 | after three `CreateEntity` calls the table has three slots; `AddComponent` on the first entity cuts it to the one pool, so the second entity has no slot and `HasComponent` on it is out of contract |
| `Scenarios.ComponentLifecycle` | src/ECS/ECS.hpp:176-221 | after `AddComponent`, `HasComponent` is true and the pool holds v; after `RemoveComponent`, `HasComponent` is false and the pool still holds v |

## Left out

- `Logger::Info` calls in `AddComponent` (ECS.hpp:202,204) are logging only.
- The `IPool`/`shared_ptr` type erasure and `static_pointer_cast` are C++ storage
  mechanics. Every pool of one registry holds the same generic value type `V`,
  and the registry is generic over it.
- The rule-of-five constructors and assignment operators of `Entity` and `Pool`
  are memory management.
- `std::bitset::set` and `test` throw `std::out_of_range` for a position of 128
  or more. This exception path is not modelled; the bound is a precondition
  instead.
- Out-of-range `vector::operator[]` in the registry and pool is undefined
  behaviour. `GetSystem` on an absent type also dereferences a null pointer.
  These are preconditions, not modelled behaviour.
- `Pool::Get` and `operator[]` return a mutable reference. Writes
  made through that reference are not modelled; the model writes through `Set`.
- Systems are stored in the registry as values. `AddSystem` copies the system
  it is given, as `make_shared<TSystem>(TSystem(args...))` does. Sharing the
  stored instance through the reference `GetSystem` returns is not modelled.
  Concrete system subclasses and their per-frame `Update` are not modelled
  either.
- `entitiesToBeKilled` is kept as a field. Nothing in the declared interface
  adds to it, and no flush of it is modelled.
- `Components.ComponentIds.GetId`: the 32-bit wrap-around of `nextId` after 2^32
  distinct types is not modelled; ids beyond 127 are already out of contract for
  signatures.
- `Registries.Registry.CreateEntity`: the `size_t` wrap-around of `numEntities`
  is not modelled. The counter must stay below 2^64, since an `Entity` holds a
  `uint64_t`.
- `Registries.Registry.Update`: the postcondition gives each system's members,
  not the order in which pending entities are appended. `std::set` iterates in
  ascending id order. It also leaves open how many times an entity appears: a
  pending entity that a system already lists is appended again
  (`SystemState.AddEntity`), and the postcondition only says it is listed.
- The bodies of `CreateEntity`, `AddEntityToSystems`, `Update`,
  `Entity::GetId` and the non-template `System` members are not part of this
  model's source. Their models use the bodies assumed above.
- Everything outside ECS.hpp is out of scope. That covers the SDL window,
  renderer, event loop and texture loading in `GameState` and `AssetManager`,
  the wall-clock frame pacing (`SDL_GetTicks`/`SDL_Delay`), and the
  floating-point position update. These are I/O, time and float arithmetic.
