# A dense entity-component store, modelled in Dafny

The system is a small `no_std` entity-component store. A store `Data` holds
two things:

- `rc`, one 8-bit reference count per entity;
- `components`, a map from a component type's identity to a vector of that
  type's values, meant to be indexed by entity number.

Entities are 32-bit handles whose value is also their row index. Creating an
entity gives it the next id and a count of 1. It also pushes one default value
onto every registered component vector. Inserting a component either registers
a new type with the vector `[component]`, or overwrites the entity's slot in an
existing vector. Queries look a type up and return its vector, or nothing if
the type was never registered. `retain` and `release` add or subtract one from
an entity's count.

## Layout

- `wrappers.dfy` (module `Wrappers`): the `Option` result of a query.
- `entity.dfy` (module `Entities`): the `u8`/`u32` widths, `TypeId`, the entity
  handle `Entity` and its conversions to and from a row index.
- `store.dfy` (module `Store`): the store's state as a value (`State`), and one
  ghost function per operation saying what it does to that state. It also
  holds two invariants:
  - `LengthsBounded`: every registered sequence is non-empty and no longer
    than the number of entities;
  - `FullyAligned`: every registered sequence has exactly one slot per entity.
- `data.dfy` (module `Ecs`): the class `Data<V>`. Its fields `rc` and
  `components` are updated in place. Each mutating method is proved to have
  exactly the effect of the matching `Store` function. `NewEntity` walks the
  registered types in a loop, calling `PushItem` on each one.
- `runs.dfy` (module `Runs`): sequences of calls (`Op`, `Step`, `Run`). A call
  is one of `entity`, `insert`, `retain`, `release`, or an assignment into
  one slot of the slice `query_mut` returns. A run stops with `None` at the
  first call that would panic in `src/lib.rs`. The lemmas here hold for every
  run of these calls.
- `examples.dfy` (module `Examples`): the usage example in the crate's
  documentation, and small client scenarios, each with what its contracts let
  a caller conclude.

### How the model represents the source

- **Component types.** Every component type shares one value type `V`.
  A type's identity is a `TypeId` (a `nat`). The default value of each type
  is a function `Default: TypeId -> V`, fixed when the store is constructed.
  The type-erased boxed vector and its unchecked downcast therefore become a
  plain map lookup.
- **Panics.** Each panic in the source is a `requires` on the method and on the
  matching `Store` function, and a `None` in `Step`. The panics are:
  - an id that does not fit in `u32`;
  - an entity index outside a vector (`insert` on a registered type, `retain`,
    `release`), or a slot index outside the slice `query_mut` returns;
  - `u8` overflow in `retain` or underflow in `release` (the check of a debug
    build).

### Where the code falls short of dense alignment

The crate describes itself as meant for dense data, where most components are
shared by all entities (src/lib.rs:3), and `entity()` keeps every registered
vector one slot per entity. Dense alignment would need a first insert on an
existing entity to fill in a default for every earlier entity.

The code does not do this. `src/lib.rs:109` stores the one-element vector
`[component]` whatever the entity's index. The model follows the code:

- `Store.Insert` registers `[v]`.
- `Store.FirstInsertAlignment` shows that on an aligned store, a first insert
  keeps `FullyAligned` exactly when the store holds one entity.
- `Runs.MisalignedRun` and `Examples.MisalignedScenario` show the example:
  create e0 and e1, then insert a new type on e1. The result is a sequence of
  length 1 while two entities exist, and a second insert on e1 panics.

What does hold is the weaker invariant `LengthsBounded`, provided every insert
names an entity the store created (`Runs.BoundedAfterRun`). Creating an entity
keeps the difference between the entity count and each sequence's length
(`Store.NewEntity`).

## Model

| member | source | states |
|---|---|---|
| Entities.Entity.I | src/lib.rs:54-56 | The row index of an entity is below 2^32, and turning it back into a handle gives the same entity |
| Entities.FromIndex | src/lib.rs:100 | A row index below 2^32 becomes a handle whose row index is that number; the entity is otherwise unbuildable (the u32 conversion panics) |
| Store.Grow | src/lib.rs:63-66 | Pushing one default onto every registered vector leaves the set of types unchanged and turns each sequence s of type t into s + [default(t)] |
| Store.NewEntity | src/lib.rs:94-101 | Creating an entity needs fewer than 2^32 entities. It adds exactly one count, of 1, after the old counts, keeps the set of types, and extends every registered sequence by one default after its old elements. It keeps each type's gap between entity count and sequence length |
| Store.NewEntityKeepsInvariants | src/lib.rs:94-99 | Creating an entity preserves both LengthsBounded and FullyAligned |
| Store.Insert | src/lib.rs:105-115 | Insert never touches the counts or other types, and the type set becomes the old one plus t. An unregistered type gets exactly [v]. A registered type needs the entity's slot, which gets v; the length and every other slot are unchanged. LengthsBounded is kept when the entity exists |
| Store.FirstInsertAlignment | src/lib.rs:106-110 | On an aligned store, registering a new type keeps it aligned exactly when there is one entity |
| Store.Write | src/lib.rs:112 | Assigning slot i of the mutable view of type t needs a registered type and an existing slot; it sets that slot to v and leaves the counts, the type set, the length, every other slot and every other type unchanged, so it keeps LengthsBounded and FullyAligned |
| Store.Retain | src/lib.rs:134-136 | Needs an existing entity with count below 255; adds one to its count and changes no other count and no component |
| Store.Release | src/lib.rs:139-141 | Needs an existing entity with a non-zero count; subtracts one from its count and changes no other count and no component |
| Ecs.Data.constructor | src/lib.rs:86-89 | A new store has no entities and no registered component type |
| Ecs.Data.PushItem | src/lib.rs:64-66 | Appends the type's default to one registered sequence and changes nothing else |
| Ecs.Data.NewEntity | src/lib.rs:94-101 | The loop over the registered types leaves the store in the state Store.NewEntity gives; the returned id is the old entity count and the counts gain a trailing 1 |
| Ecs.Data.Insert | src/lib.rs:105-115 | The new state is the one Store.Insert gives; the result is true exactly when the type was registered before; counts are unchanged |
| Ecs.Data.Query | src/lib.rs:119-123 | Absent exactly when the type is not registered, otherwise that type's whole sequence |
| Ecs.Data.QueryMut | src/lib.rs:127-131 | Sees the same sequence, or the same absence, as Query |
| Ecs.Data.StoreAt | src/lib.rs:112 | The new state is the one Store.Write gives: writing slot i through the mutable view needs a registered type and an existing slot, and only that slot changes |
| Ecs.Data.Retain | src/lib.rs:134-136 | The new state is the one Store.Retain gives |
| Ecs.Data.Release | src/lib.rs:139-141 | The new state is the one Store.Release gives |
| Runs.EntityCountAfterRun | src/lib.rs:94-96 | After any run, the number of entities has grown by exactly the number of creations in it |
| Runs.KthEntityId | src/lib.rs:94-101 | From an empty store, the creation at position k of a run happens when exactly as many entities exist as there were creations before it, so ids are 0, 1, 2, ... |
| Runs.RegisteredAfterRun | src/lib.rs:94-115 | Types are never deregistered, also by writes through the mutable view; a type is registered after a run exactly when it was before or some call in the run inserted it |
| Runs.AbsentIffNeverInserted | src/lib.rs:119-123 | From an empty store, a type is unregistered (its query is absent) exactly when no call of the run inserted it |
| Runs.CountAfterRun | src/lib.rs:134-141 | After a run, an existing entity's count is its old count plus its retains minus its releases; creations, inserts and writes through the mutable view leave it alone |
| Runs.BoundedAfterRun | src/lib.rs:94-115 | If every insert names an existing entity, each registered sequence stays non-empty and no longer than the entity count, across creations, inserts, retains, releases and writes through the mutable view |
| Runs.MisalignedRun | src/lib.rs:106-110 | Creating two entities and inserting a new type on the second gives a one-element sequence with at least two entities (not aligned), and a second insert on that entity panics |
| Examples.DocExample | src/lib.rs:30-38 | The documented usage leaves the positions [(10, 21), (10, 20)] and the velocities [(10, 20), default] |
| Examples.CountScenario | src/lib.rs:134-141 | Create e0, retain twice, release once: its count is 2 |
| Examples.MisalignedScenario | src/lib.rs:106-110 | Create e0 and e1, insert a new type on e1: the insert reports a new type, and its sequence has length 1 while there are two entities |
| Examples.AbsentScenario | src/lib.rs:119-123 | Querying a type that was never inserted gives None |
| Examples.SequentialIds | src/lib.rs:94-101 | n creations on a fresh store return the ids 0, 1, ..., n - 1 |

## Left out

- The type-erased `Box<dyn Storage>`, its vtable call and the unchecked pointer-cast downcast (src/lib.rs:59-82). These become a map from type identity to `seq<V>`. The downcast's soundness is a memory-safety argument with no behaviour of its own.
- A separate Rust type per component. All components share one value type `V`, so the model cannot show that a query recovers the type used at registration.
- The iteration order of the `BTreeMap` in `entity()`. The loop in `Ecs.Data.NewEntity` takes the types in any order. The result does not depend on the order, because each type gets one push.
- Ecs.Data.NewEntity: when the next id does not fit in `u32`, `src/lib.rs` pushes the count and the defaults and only then panics. The model requires the id to fit, so the state left behind by such a panic is not modelled.
- Ecs.Data.Retain and Ecs.Data.Release: `u8` overflow and underflow are treated as the panic of a debug build. A release build would wrap around instead, and that is not modelled.
- Entities.Entity.I: the platform index type is assumed to have at least 32 bits, so the conversion never fails. On a narrower platform it would panic.
- Ecs.Data.Query and Ecs.Data.QueryMut return the sequence as a value, not a borrowed slice. A write through the mutable slice is modelled as one slot assignment (`Ecs.Data.StoreAt`).
- The derived `Hash` and `Ord` on `Entity`, `#![no_std]`, the heap allocator and running out of memory.
- The usage example's `Velocity` holds floating-point numbers. Here its fields are integers.
- A backfilling first insert is not modelled, because the code does not do it (src/lib.rs:109); `Runs.MisalignedRun` shows what is lost.
