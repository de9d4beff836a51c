/** Fixed-width integer ranges and the optional value used across the model. */
module Types {

  /** One byte on the wire. */
  type Byte = x: int | 0 <= x < 0x100

  /** A Go `[]byte`. */
  type Bytes = seq<Byte>

  /** Go `uint32`. */
  type Uint32 = x: int | 0 <= x < 0x1_0000_0000

  /** Go `uint64`. */
  type Uint64 = x: int | 0 <= x < 0x1_0000_0000_0000_0000

  /** Go `int32`. */
  type Int32 = x: int | -0x8000_0000 <= x < 0x8000_0000

  /** A value that may be missing: a nil error, a failed conversion, a panicking index. */
  datatype Option<+T> = None | Some(value: T)
}
