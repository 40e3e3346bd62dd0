/** What several parts of the kernel share. */
module Prelude {
  datatype Option<T> = None | Some(value: T)

  type Byte = x: int | 0 <= x < 256

  /** kernel/param.h: the most blocks one operation writes. */
  const MAXOPBLOCKS := 10

  /** 32-bit counters wrap around. */
  const WRAP := 0x1_0000_0000

  function Inc(r: nat): (r': nat) {
    if r + 1 == WRAP then 0 else r + 1
  }

  function Dec(r: nat): (r': nat) {
    if r == 0 then WRAP - 1 else r - 1
  }

  predicate Distinct(s: seq<nat>) {
    forall i, j | 0 <= i < j < |s| :: s[i] != s[j]
  }
}
