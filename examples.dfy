/**
 * Client programs of the store: the usage example in the crate's
 * documentation and a few scenarios, each with what a caller can conclude
 * from the contracts of the store alone.
 */
module Examples {

  import opened Wrappers
  import opened Entities
  import opened Ecs

  /**
   * The component values of the example: a position and a velocity. The
   * velocity of that example holds floating-point numbers; here its fields
   * are integers.
   */
  datatype Component = Position(x: int, y: int) | Velocity(dx: int, dy: int)

  const PositionId: TypeId := 0
  const VelocityId: TypeId := 1

  /** The default value of each component type (all fields zero). */
  function DefaultOf(t: TypeId): Component
  {
    if t == VelocityId then Velocity(0, 0) else Position(0, 0)
  }

  /**
   * The usage example: a player with a position and a velocity, a second
   * player with a position, then one added to the second field of the first
   * player's position through the mutable query.
   */
  method DocExample() returns (positions: seq<Component>, velocities: seq<Component>)
    ensures positions == [Position(10, 21), Position(10, 20)]
    ensures velocities == [Velocity(10, 20), Velocity(0, 0)]
  {
    var world := new Data(DefaultOf);
    var player := world.NewEntity();
    assert player.I() == 0 && world.components == map[];
    var existed := world.Insert(player, PositionId, Position(10, 20));
    assert world.components == map[PositionId := [Position(10, 20)]];
    existed := world.Insert(player, VelocityId, Velocity(10, 20));
    assert world.components.Keys == {PositionId, VelocityId};
    assert world.components[PositionId] == [Position(10, 20)];
    assert world.components[VelocityId] == [Velocity(10, 20)];
    var player2 := world.NewEntity();
    assert player2.I() == 1;
    assert world.components[PositionId] == [Position(10, 20), Position(0, 0)];
    assert world.components[VelocityId] == [Velocity(10, 20), Velocity(0, 0)];
    existed := world.Insert(player2, PositionId, Position(10, 20));
    assert world.components[PositionId] == [Position(10, 20), Position(10, 20)];
    assert world.components[VelocityId] == [Velocity(10, 20), Velocity(0, 0)];
    var p := world.QueryMut(PositionId).value[player.I()];
    world.StoreAt(PositionId, player.I(), p.(y := p.y + 1));
    positions := world.Query(PositionId).value;
    velocities := world.Query(VelocityId).value;
  }

  /** Create e0, retain it twice and release it once: its count is 2. */
  method CountScenario() returns (count: u8)
    ensures count == 2
  {
    var world := new Data(DefaultOf);
    var e0 := world.NewEntity();
    world.Retain(e0);
    world.Retain(e0);
    world.Release(e0);
    count := world.rc[e0.I()];
  }

  /**
   * Create e0 and e1 and insert a position on e1 first: the position
   * sequence has one element while two entities exist, so e1 has no slot.
   */
  method MisalignedScenario() returns (length: nat, entities: nat, existed: bool)
    ensures length == 1 && entities == 2 && !existed
  {
    var world := new Data(DefaultOf);
    var e0 := world.NewEntity();
    var e1 := world.NewEntity();
    existed := world.Insert(e1, PositionId, Position(10, 20));
    length := |world.Query(PositionId).value|;
    entities := |world.rc|;
  }

  /** Querying a type that was never inserted gives None, not a fault. */
  method AbsentScenario() returns (r: Option<seq<Component>>)
    ensures r == None
  {
    var world := new Data(DefaultOf);
    var e0 := world.NewEntity();
    var existed := world.Insert(e0, PositionId, Position(1, 2));
    r := world.Query(VelocityId);
  }

  /** The ids of `n` entities created on a fresh store are 0, 1, ..., n - 1. */
  method SequentialIds(n: nat) returns (ids: seq<nat>)
    requires n <= U32Bound
    ensures |ids| == n
    ensures forall k :: 0 <= k < n ==> ids[k] == k
  {
    var world := new Data(DefaultOf);
    ids := [];
    while |ids| < n
      invariant |ids| <= n
      invariant |world.rc| == |ids|
      invariant forall k :: 0 <= k < |ids| ==> ids[k] == k
    {
      var e := world.NewEntity();
      ids := ids + [e.I()];
    }
  }
}
