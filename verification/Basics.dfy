/** What every part of the model shares. */
module Basics {
  datatype Option<+T> = None | Some(value: T)

  function Min(a: nat, b: nat): nat { if a < b then a else b }
}
