/** What several parts of the model share. */
module Basics {

  datatype Option<+T> = None | Some(value: T)

  const TWO_64 := 0x1_0000_0000_0000_0000
}
