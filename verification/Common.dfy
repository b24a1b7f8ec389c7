/** What the modules share: optional values and the largest unsigned 64-bit number. */
module Common {

  datatype Option<+T> = None | Some(value: T)

  const U64_MAX: nat := 0xffff_ffff_ffff_ffff
}
