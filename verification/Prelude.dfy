/** What several components share. */
module Prelude {

  datatype Option<T> = None | Some(value: T)

  const TWO_TO_THE_64: nat := 0x1_0000_0000_0000_0000
}
