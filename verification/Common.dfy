/** Types and constants shared by the models. */
module Common {

  datatype Option<T> = None | Some(value: T)

  type Byte = b: nat | b < 256

  /** Number of values of a u64, and of a usize on the machines the source runs on. */
  const U64: nat := 0x1_0000_0000_0000_0000

  function Last<T>(run: seq<T>): (last: T)
    requires |run| > 0
  {
    run[|run| - 1]
  }
}
