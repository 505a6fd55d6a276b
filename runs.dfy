/**
 * Sequences of calls on the store, and what holds after any of them.
 * A run stops with None at the first call that would panic in `src/lib.rs`:
 * an id that does not fit in 32 bits, an entity or index without a slot, or a
 * count that would overflow or underflow 8 bits.
 */
module Runs {

  import opened Wrappers
  import opened Entities
  import opened Store

  /** One call on the store. */
  datatype Op<V> =
    | EntityCall
    | InsertCall(e: Entity, t: TypeId, v: V)
    | RetainCall(e: Entity)
    | ReleaseCall(e: Entity)
    | StoreCall(t: TypeId, i: nat, v: V)  // an assignment through `query_mut`

  /** The state after one call, or None when the call panics. */
  ghost function Step<V>(s: State<V>, op: Op<V>, dflt: TypeId -> V): Option<State<V>>
  {
    match op
    case EntityCall =>
      if |s.rc| < U32Bound then Some(NewEntity(s, dflt)) else None
    case InsertCall(e, t, v) =>
      if t in s.components ==> e.I() < |s.components[t]| then Some(Insert(s, e, t, v)) else None
    case RetainCall(e) =>
      if e.I() < |s.rc| && s.rc[e.I()] < 255 then Some(Retain(s, e)) else None
    case ReleaseCall(e) =>
      if e.I() < |s.rc| && s.rc[e.I()] > 0 then Some(Release(s, e)) else None
    case StoreCall(t, i, v) =>
      if t in s.components && i < |s.components[t]| then Some(Write(s, t, i, v)) else None
  }

  /** The state after a sequence of calls, or None when one of them panics. */
  ghost function Run<V>(s: State<V>, ops: seq<Op<V>>, dflt: TypeId -> V): Option<State<V>>
    decreases |ops|
  {
    if ops == [] then Some(s)
    else match Step(s, ops[0], dflt)
      case None => None
      case Some(s1) => Run(s1, ops[1..], dflt)
  }

  /** The number of entity creations in `ops`. */
  ghost function Creations<V>(ops: seq<Op<V>>): nat
  {
    if ops == [] then 0 else (if ops[0].EntityCall? then 1 else 0) + Creations(ops[1..])
  }

  /** The number of retain calls on the entity with index `i`. */
  ghost function Retains<V>(ops: seq<Op<V>>, i: nat): nat
  {
    if ops == [] then 0
    else (if ops[0].RetainCall? && ops[0].e.I() == i then 1 else 0) + Retains(ops[1..], i)
  }

  /** The number of release calls on the entity with index `i`. */
  ghost function Releases<V>(ops: seq<Op<V>>, i: nat): nat
  {
    if ops == [] then 0
    else (if ops[0].ReleaseCall? && ops[0].e.I() == i then 1 else 0) + Releases(ops[1..], i)
  }

  /**
   * Every insert in `ops` names an entity that exists at that point, when `n`
   * entities exist before the first call.
   */
  ghost predicate UsesCreated<V>(n: nat, ops: seq<Op<V>>)
    decreases |ops|
  {
    ops == [] ||
    match ops[0]
    case EntityCall => UsesCreated(n + 1, ops[1..])
    case InsertCall(e, _, _) => e.I() < n && UsesCreated(n, ops[1..])
    case _ => UsesCreated(n, ops[1..])
  }

  /** Running `a` then `b` is running `a + b`. */
  lemma {:induction false} RunAppend<V>(s: State<V>, a: seq<Op<V>>, b: seq<Op<V>>, dflt: TypeId -> V)
    decreases |a|
    ensures Run(s, a + b, dflt) == match Run(s, a, dflt)
                                   case None => None
                                   case Some(m) => Run(m, b, dflt)
  {
    if a == [] {
      assert a + b == b;
    } else {
      assert (a + b)[0] == a[0];
      assert (a + b)[1..] == a[1..] + b;
      match Step(s, a[0], dflt)
      case None =>
      case Some(s1) => RunAppend(s1, a[1..], b, dflt);
    }
  }

  /** Each creation adds one entity and nothing else does. */
  lemma {:induction false} EntityCountAfterRun<V>(s: State<V>, ops: seq<Op<V>>, dflt: TypeId -> V)
    decreases |ops|
    requires Run(s, ops, dflt).Some?
    ensures |Run(s, ops, dflt).value.rc| == |s.rc| + Creations(ops)
  {
    if ops != [] {
      EntityCountAfterRun(Step(s, ops[0], dflt).value, ops[1..], dflt);
    }
  }

  /**
   * Ids are sequential: on a store that starts empty, the creation at
   * position k of a run returns the number of creations before it.
   */
  lemma KthEntityId<V>(ops: seq<Op<V>>, dflt: TypeId -> V, k: nat)
    requires k < |ops| && ops[k].EntityCall? && Run(Empty(), ops, dflt).Some?
    ensures Run(Empty<V>(), ops[..k], dflt).Some?
    ensures |Run(Empty<V>(), ops[..k], dflt).value.rc| < U32Bound
    ensures |Run(Empty<V>(), ops[..k], dflt).value.rc| == Creations(ops[..k])
  {
    var empty: State<V> := Empty();
    assert ops == ops[..k] + ops[k..];
    RunAppend(empty, ops[..k], ops[k..], dflt);
    var m := Run(empty, ops[..k], dflt).value;
    assert ops[k..][0] == EntityCall;
    assert Step(m, EntityCall, dflt).Some?;
    EntityCountAfterRun(empty, ops[..k], dflt);
  }

  /**
   * Component types are never deregistered, and a type is registered after a
   * run exactly when it was registered before or some call inserted it.
   */
  lemma {:induction false} RegisteredAfterRun<V>(s: State<V>, ops: seq<Op<V>>, dflt: TypeId -> V, t: TypeId)
    decreases |ops|
    requires Run(s, ops, dflt).Some?
    ensures s.components.Keys <= Run(s, ops, dflt).value.components.Keys
    ensures t in Run(s, ops, dflt).value.components <==>
              t in s.components || exists k :: 0 <= k < |ops| && ops[k].InsertCall? && ops[k].t == t
  {
    if ops != [] {
      var s1 := Step(s, ops[0], dflt).value;
      RegisteredAfterRun(s1, ops[1..], dflt, t);
      if exists k :: 0 <= k < |ops[1..]| && ops[1..][k].InsertCall? && ops[1..][k].t == t {
        var k :| 0 <= k < |ops[1..]| && ops[1..][k].InsertCall? && ops[1..][k].t == t;
        assert ops[k + 1] == ops[1..][k];
      }
      if exists k :: 0 <= k < |ops| && ops[k].InsertCall? && ops[k].t == t {
        var k :| 0 <= k < |ops| && ops[k].InsertCall? && ops[k].t == t;
        if k > 0 {
          assert ops[1..][k - 1] == ops[k];
        }
      }
    }
  }

  /** A query on a store built from empty is absent exactly when the type was never inserted. */
  lemma AbsentIffNeverInserted<V>(ops: seq<Op<V>>, dflt: TypeId -> V, t: TypeId)
    requires Run(Empty(), ops, dflt).Some?
    ensures t !in Run(Empty<V>(), ops, dflt).value.components <==>
              forall k :: 0 <= k < |ops| && ops[k].InsertCall? ==> ops[k].t != t
  {
    RegisteredAfterRun(Empty(), ops, dflt, t);
  }

  /**
   * The count of an existing entity after a run is its count before, plus one
   * per retain and minus one per release of that entity.
   */
  lemma {:induction false} CountAfterRun<V>(s: State<V>, ops: seq<Op<V>>, dflt: TypeId -> V, i: nat)
    decreases |ops|
    requires i < |s.rc| && Run(s, ops, dflt).Some?
    ensures i < |Run(s, ops, dflt).value.rc|
    ensures Run(s, ops, dflt).value.rc[i] as int == s.rc[i] as int + Retains(ops, i) - Releases(ops, i)
  {
    if ops != [] {
      var s1 := Step(s, ops[0], dflt).value;
      assert |s1.rc| >= |s.rc|;
      CountAfterRun(s1, ops[1..], dflt, i);
    }
  }

  /**
   * The weaker invariant holds along every run whose inserts name existing
   * entities: each registered sequence is non-empty and no longer than the
   * number of entities.
   */
  lemma {:induction false} BoundedAfterRun<V>(s: State<V>, ops: seq<Op<V>>, dflt: TypeId -> V)
    decreases |ops|
    requires LengthsBounded(s) && UsesCreated(|s.rc|, ops) && Run(s, ops, dflt).Some?
    ensures LengthsBounded(Run(s, ops, dflt).value)
  {
    if ops != [] {
      var s1 := Step(s, ops[0], dflt).value;
      assert LengthsBounded(s1);
      assert UsesCreated(|s1.rc|, ops[1..]);
      BoundedAfterRun(s1, ops[1..], dflt);
    }
  }

  /** One call run on its own is one step. */
  lemma SingleRun<V>(s: State<V>, op: Op<V>, dflt: TypeId -> V)
    ensures Run(s, [op], dflt) == Step(s, op, dflt)
  {
    assert [op][1..] == [];
  }

  /**
   * The first insert of a type does not backfill. Create two entities, then
   * insert a new type on the second: the type's sequence is [v] while the
   * store holds at least two entities, and a second insert on that entity
   * finds no slot and panics. From the empty store this is: create e0 and
   * e1, insert on e1.
   */
  lemma MisalignedRun<V>(s: State<V>, dflt: TypeId -> V, t: TypeId, v: V, w: V)
    requires |s.rc| + 2 <= U32Bound && t !in s.components
    ensures var e1 := FromIndex(|s.rc| + 1);
            var ops := [EntityCall, EntityCall, InsertCall(e1, t, v)];
            && UsesCreated(|s.rc|, ops)
            && Run(s, ops, dflt).Some?
            && |Run(s, ops, dflt).value.rc| == |s.rc| + 2
            && t in Run(s, ops, dflt).value.components
            && Run(s, ops, dflt).value.components[t] == [v]
            && !FullyAligned(Run(s, ops, dflt).value)
            && Run(s, ops + [InsertCall(e1, t, w)], dflt) == None
  {
    var e1 := FromIndex(|s.rc| + 1);
    var first, second := InsertCall(e1, t, v), InsertCall(e1, t, w);
    var ops := [EntityCall, EntityCall, first];
    var s1 := NewEntity(s, dflt);
    var s2 := NewEntity(s1, dflt);
    var s3 := Insert(s2, e1, t, v);
    assert Run(s2, ops[2..], dflt) == Some(s3) by {
      assert ops[2..] == [first];
      SingleRun(s2, first, dflt);
    }
    assert Run(s, ops, dflt) == Some(s3) by {
      assert ops[1..][1..] == ops[2..];
    }
    assert UsesCreated(|s.rc| + 2, [first]);
    assert UsesCreated(|s.rc|, ops) by {
      assert ops[1..][1..] == [first];
    }
    assert !FullyAligned(s3) by {
      assert |s3.components[t]| != |s3.rc|;
    }
    RunAppend(s, ops, [second], dflt);
    SingleRun(s3, second, dflt);
  }
}
