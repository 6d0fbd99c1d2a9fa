/** Small shared definitions: the optional value (`None` stands for "the computation raised") and `min`. */
module Wrappers {
  datatype Option<+T> = None | Some(value: T)

  /** `min(a, b)`: the length of a zip or of a slice `xs[:k]`. */
  function Min(a: nat, b: nat): nat {
    if a < b then a else b
  }
}
