/**
 * The store object. Its two fields are updated in place by its methods; each
 * method is proved to have exactly the effect the matching function of
 * module Store describes.
 *
 * The type-erased boxed vectors of `src/lib.rs` become one sequence type
 * `seq<V>` per type identity, and the downcast that recovers a typed slice
 * becomes a lookup in the map.
 */
module Ecs {

  import opened Wrappers
  import opened Entities
  import Store

  class Data<V> {
    /** One reference count per entity, indexed by entity. */
    var rc: seq<u8>
    /** For every registered component type, its values indexed by entity. */
    var components: map<TypeId, seq<V>>
    /** The default value of each component type. */
    const Default: TypeId -> V

    /** The current state as a value. */
    function Model(): Store.State<V>
      reads this
    {
      Store.State(rc, components)
    }

    /** An empty store: no entities, no registered component type. */
    constructor (dflt: TypeId -> V)
      ensures Default == dflt
      ensures Model() == Store.Empty()
    {
      rc := [];
      components := map[];
      Default := dflt;
    }

    /** Grows the sequence of the registered type `t` by one default value. */
    method PushItem(t: TypeId)
      requires t in components
      modifies this
      ensures rc == old(rc)
      ensures components == old(components)[t := old(components)[t] + [Default(t)]]
    {
      components := components[t := components[t] + [Default(t)]];
    }

    /**
     * Creates the next entity: its id is the number of entities so far, its
     * count starts at 1, and every registered sequence gets one default
     * element. The id must fit in 32 bits.
     */
    method NewEntity() returns (e: Entity)
      requires |rc| < U32Bound
      modifies this
      ensures Model() == Store.NewEntity(old(Model()), Default)
      ensures e.I() == old(|rc|)
      ensures rc == old(rc) + [1]
    {
      var id := |rc|;
      rc := rc + [1];
      ghost var before := components;
      var todo := components.Keys;
      ghost var done: set<TypeId> := {};
      while todo != {}
        invariant todo + done == before.Keys && todo !! done
        invariant components.Keys == before.Keys
        invariant forall t :: t in done ==> components[t] == before[t] + [Default(t)]
        invariant forall t :: t in todo ==> components[t] == before[t]
        invariant rc == old(rc) + [1]
        decreases todo
      {
        var t :| t in todo;
        PushItem(t);
        todo := todo - {t};
        done := done + {t};
      }
      assert components == Store.Grow(before, Default);
      e := FromIndex(id);
    }

    /**
     * Sets the component of type `t` of `entity` to `component`. The result
     * tells whether the type was registered before the call. A registered
     * type needs a slot for the entity.
     */
    method Insert(entity: Entity, t: TypeId, component: V) returns (existed: bool)
      requires t in components ==> entity.I() < |components[t]|
      modifies this
      ensures Model() == Store.Insert(old(Model()), entity, t, component)
      ensures existed == (t in old(components))
      ensures rc == old(rc)
    {
      if t !in components {
        components := components[t := [component]];
        existed := false;
      } else {
        StoreAt(t, entity.I(), component);
        existed := true;
      }
    }

    /** The values of type `t`, or None when `t` was never registered. */
    function Query(t: TypeId): (r: Option<seq<V>>)
      reads this
      ensures r.None? <==> t !in components
      ensures r.Some? ==> r.value == components[t]
    {
      if t in components then Some(components[t]) else None
    }

    /**
     * The mutable view of the values of type `t`: the same sequence as the
     * read-only query. Writing through it is `StoreAt`.
     */
    function QueryMut(t: TypeId): (r: Option<seq<V>>)
      reads this
      ensures r == Query(t)
    {
      if t in components then Some(components[t]) else None
    }

    /**
     * An assignment into slot `i` of the mutable view of type `t`; the type
     * must be registered and the slot must exist.
     */
    method StoreAt(t: TypeId, i: nat, v: V)
      requires t in components && i < |components[t]|
      modifies this
      ensures Model() == Store.Write(old(Model()), t, i, v)
      ensures rc == old(rc)
      ensures components == old(components)[t := old(components)[t][i := v]]
    {
      components := components[t := components[t][i := v]];
    }

    /** Adds one to the count of `entity`, which must not be 255. */
    method Retain(entity: Entity)
      requires entity.I() < |rc| && rc[entity.I()] < 255
      modifies this
      ensures Model() == Store.Retain(old(Model()), entity)
    {
      rc := rc[entity.I() := rc[entity.I()] + 1];
    }

    /** Subtracts one from the count of `entity`, which must not be 0. */
    method Release(entity: Entity)
      requires entity.I() < |rc| && rc[entity.I()] > 0
      modifies this
      ensures Model() == Store.Release(old(Model()), entity)
    {
      rc := rc[entity.I() := rc[entity.I()] - 1];
    }
  }
}
