/**
 * Machine integer widths used by the store, component type identities and the
 * entity handle.
 */
module Entities {

  /** An unsigned 8-bit integer: one reference count. */
  newtype u8 = x: int | 0 <= x < 0x100

  /** An unsigned 32-bit integer: the payload of an entity handle. */
  newtype u32 = x: int | 0 <= x < 0x1_0000_0000

  /** Number of values of u32; the ids of entities stay below it. */
  const U32Bound: nat := 0x1_0000_0000

  /**
   * The identity of a component type. Each component type has one stable
   * identity; the store only compares identities.
   */
  type TypeId = nat

  /** An entity: a 32-bit handle whose value is also its row index. */
  datatype Entity = Entity(id: u32) {

    /**
     * The row index of this entity. The conversion from u32 to the platform
     * index type cannot fail when that type has at least 32 bits, which the
     * model takes as given.
     */
    function I(): (r: nat)
      ensures r < U32Bound
      ensures Entity(r as u32) == this
    {
      id as nat
    }
  }

  /**
   * The handle for row `n`; the conversion from the index type to u32 fails
   * (a panic) unless `n` fits in 32 bits.
   */
  function FromIndex(n: nat): (e: Entity)
    requires n < U32Bound
    ensures e.I() == n
  {
    Entity(n as u32)
  }
}
