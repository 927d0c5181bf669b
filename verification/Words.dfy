/** Bytes and 16-bit code units as ranges of integers, and optional values. */
module Words {

  type Byte = b: int | 0 <= b < 0x100

  type Unit = u: int | 0 <= u < 0x1_0000

  datatype Option<T> = None | Some(value: T)
}
