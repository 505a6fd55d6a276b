/**
 * The state of the dense store as a value, and the effect of each operation
 * on it. The class in module Ecs is proved to follow these functions.
 *
 * The store holds one reference count per entity and, for every registered
 * component type, one sequence of values meant to be indexed by entity.
 * A value `dflt(t)` stands for the default value of component type `t`.
 */
module Store {

  import opened Entities

  datatype State<V> = State(rc: seq<u8>, components: map<TypeId, seq<V>>)

  /** The empty store: no entities and no registered component type. */
  ghost function Empty<V>(): State<V>
  {
    State([], map[])
  }

  /**
   * The invariant the store keeps when every first insert of a type uses an
   * entity this store created: each registered sequence is non-empty and no
   * longer than the number of entities.
   */
  ghost predicate LengthsBounded<V>(s: State<V>)
  {
    forall t :: t in s.components ==> 1 <= |s.components[t]| <= |s.rc|
  }

  /**
   * The alignment a dense store is meant to have: every registered sequence
   * has one slot per entity. The first insert of a type does not keep it.
   */
  ghost predicate FullyAligned<V>(s: State<V>)
  {
    forall t :: t in s.components ==> |s.components[t]| == |s.rc|
  }

  /**
   * Every registered sequence grown by one default element of its type,
   * taking the types one at a time in no particular order.
   */
  ghost function Grow<V>(m: map<TypeId, seq<V>>, dflt: TypeId -> V): (r: map<TypeId, seq<V>>)
    decreases |m|
    ensures r.Keys == m.Keys
    ensures forall t :: t in m ==> r[t] == m[t] + [dflt(t)]
  {
    if m == map[] then map[]
    else
      var k :| k in m;
      assert |m - {k}| < |m| by {
        assert (m - {k}).Keys == m.Keys - {k};
      }
      Grow(m - {k}, dflt)[k := m[k] + [dflt(k)]]
  }

  /**
   * Creating an entity (whose id is the old number of entities, which must
   * fit in 32 bits): a count of 1 is appended and every registered sequence
   * grows by one default element, keeping the difference between the number
   * of entities and its own length.
   */
  ghost function NewEntity<V>(s: State<V>, dflt: TypeId -> V): (r: State<V>)
    requires |s.rc| < U32Bound
    ensures |r.rc| == |s.rc| + 1 && r.rc[..|s.rc|] == s.rc && r.rc[|s.rc|] == 1
    ensures r.components.Keys == s.components.Keys
    ensures forall t :: t in s.components ==>
              && |r.components[t]| == |s.components[t]| + 1
              && r.components[t][..|s.components[t]|] == s.components[t]
              && r.components[t][|s.components[t]|] == dflt(t)
    ensures forall t :: t in s.components ==>
              |r.rc| - |r.components[t]| == |s.rc| - |s.components[t]|
  {
    State(s.rc + [1], Grow(s.components, dflt))
  }

  /** Creating an entity keeps both the bounded and the aligned invariant. */
  lemma NewEntityKeepsInvariants<V>(s: State<V>, dflt: TypeId -> V)
    requires |s.rc| < U32Bound
    ensures LengthsBounded(s) ==> LengthsBounded(NewEntity(s, dflt))
    ensures FullyAligned(s) ==> FullyAligned(NewEntity(s, dflt))
  {
  }

  /**
   * Inserting `v` as the component of type `t` of entity `e`. An unregistered
   * type is registered with the one-element sequence [v], whatever the index
   * of `e`. For a registered type the slot of `e` must exist, and it is
   * overwritten.
   */
  ghost function Insert<V>(s: State<V>, e: Entity, t: TypeId, v: V): (r: State<V>)
    requires t in s.components ==> e.I() < |s.components[t]|
    ensures r.rc == s.rc
    ensures forall u :: u in r.components <==> u in s.components || u == t
    ensures forall u :: u in s.components && u != t ==> r.components[u] == s.components[u]
    ensures t !in s.components ==> r.components[t] == [v]
    ensures t in s.components ==>
              && |r.components[t]| == |s.components[t]|
              && r.components[t][e.I()] == v
              && forall j :: 0 <= j < |s.components[t]| && j != e.I() ==>
                   r.components[t][j] == s.components[t][j]
    ensures LengthsBounded(s) && e.I() < |s.rc| ==> LengthsBounded(r)
  {
    if t !in s.components then
      s.(components := s.components[t := [v]])
    else
      Write(s, t, e.I(), v)
  }

  /**
   * An assignment of `v` into slot `i` of the mutable view of the values of
   * type `t`: the type must be registered and the slot must exist. Only that
   * slot changes, so both invariants are kept.
   */
  ghost function Write<V>(s: State<V>, t: TypeId, i: nat, v: V): (r: State<V>)
    requires t in s.components && i < |s.components[t]|
    ensures r.rc == s.rc
    ensures r.components.Keys == s.components.Keys
    ensures forall u :: u in s.components && u != t ==> r.components[u] == s.components[u]
    ensures |r.components[t]| == |s.components[t]|
    ensures r.components[t][i] == v
    ensures forall j :: 0 <= j < |s.components[t]| && j != i ==> r.components[t][j] == s.components[t][j]
    ensures LengthsBounded(s) ==> LengthsBounded(r)
    ensures FullyAligned(s) ==> FullyAligned(r)
  {
    s.(components := s.components[t := s.components[t][i := v]])
  }

  /**
   * Adding one to the count of `e`: the entity must exist and the u8
   * addition must not overflow.
   */
  ghost function Retain<V>(s: State<V>, e: Entity): (r: State<V>)
    requires e.I() < |s.rc| && s.rc[e.I()] < 255
    ensures |r.rc| == |s.rc|
    ensures r.rc[e.I()] as int == s.rc[e.I()] as int + 1
    ensures forall j :: 0 <= j < |s.rc| && j != e.I() ==> r.rc[j] == s.rc[j]
    ensures r.components == s.components
  {
    s.(rc := s.rc[e.I() := s.rc[e.I()] + 1])
  }

  /**
   * Subtracting one from the count of `e`: the entity must exist and the u8
   * subtraction must not underflow.
   */
  ghost function Release<V>(s: State<V>, e: Entity): (r: State<V>)
    requires e.I() < |s.rc| && s.rc[e.I()] > 0
    ensures |r.rc| == |s.rc|
    ensures r.rc[e.I()] as int == s.rc[e.I()] as int - 1
    ensures forall j :: 0 <= j < |s.rc| && j != e.I() ==> r.rc[j] == s.rc[j]
    ensures r.components == s.components
  {
    s.(rc := s.rc[e.I() := s.rc[e.I()] - 1])
  }

  /**
   * On an aligned store, the first insert of a type keeps the alignment
   * exactly when the store holds one entity.
   */
  lemma FirstInsertAlignment<V>(s: State<V>, e: Entity, t: TypeId, v: V)
    requires FullyAligned(s) && t !in s.components
    ensures FullyAligned(Insert(s, e, t, v)) <==> |s.rc| == 1
  {
    var r := Insert(s, e, t, v);
    assert |r.components[t]| == 1;
  }
}
