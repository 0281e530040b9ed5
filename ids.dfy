/** Identifiers of the store: unsigned 64-bit integers and the two id newtypes
    wrapping them (nari/src/models/id.rs). */
module Ids {

  /** Rust's u64: every value the source stores (ids, Unix timestamps) has this range. */
  newtype U64 = x: int | 0 <= x < 0x1_0000_0000_0000_0000

  /** u64::MAX, the timestamp of the cache's sentinel entry. */
  const MAX_U64: U64 := 0xFFFF_FFFF_FFFF_FFFF

  /** `UserId(pub u64)`; the derived Default is `UserId(0)`. */
  datatype UserId = UserId(value: U64)

  /** `EventId(pub u64)`; the derived Default is `EventId(0)`. */
  datatype EventId = EventId(value: U64)
}
