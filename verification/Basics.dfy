/** What several modules share. */
module Basics {
  /** A value that may be absent: uninitialised memory, a null token, a skipped query. */
  datatype Option<+T> = None | Some(value: T)

  const SLOTS := 60  // MAX_BATTERY_TOTAL

  function Min(a: nat, b: nat): nat {
    if a < b then a else b
  }

  function Max(a: nat, b: nat): nat {
    if a > b then a else b
  }
}
