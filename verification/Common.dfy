/** Shared small vocabulary. */
module Common {

  datatype Option<+T> = None | Some(value: T)

  /** One more than the largest 64-bit word. */
  const WORD: nat := 0x1_0000_0000_0000_0000

  /** `--count` on a size_t. */
  function Decrement(n: nat): nat {
    if n == 0 then WORD - 1 else n - 1
  }
}
