/** Definitions several modules share. */
module Basics {
  datatype Option<+T> = None | Some(value: T)

  const U64_MAX: nat := 0xffff_ffff_ffff_ffff
  const INT64_MAX: nat := 0x7fff_ffff_ffff_ffff
}
