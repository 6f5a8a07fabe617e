/** Bytes, machine words and optional values shared by the components of the model. */
module Words {

  datatype Option<+T> = None | Some(value: T)

  type byte = x: int | 0 <= x < 256

  type Octets = seq<byte>

  const TWO32 := 0x1_0000_0000

  type uint32 = x: int | 0 <= x < 0x1_0000_0000

  type uint64 = x: int | 0 <= x < 0x1_0000_0000_0000_0000

  /** The low 32 bits of an integer, as Go's uint32 conversion keeps them. */
  function U32(x: int): uint32 {
    x % 0x1_0000_0000
  }

  /** The low 64 bits of an integer, as Go's uint64 conversion keeps them. */
  function U64(x: int): uint64 {
    x % 0x1_0000_0000_0000_0000
  }

  function Min(a: int, b: int): int {
    if a < b then a else b
  }

  function Max(a: int, b: int): int {
    if a > b then a else b
  }
}
