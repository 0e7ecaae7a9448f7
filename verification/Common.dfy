/** Types and limits shared by the components of the model. */
module Common {
  /** An octet of wire data or of a buffer. */
  type Byte = b: int | 0 <= b < 256

  datatype Option<+T> = None | Some(value: T)

  const INT_MAX: nat := 0x7FFF_FFFF
  const UINT32_MAX: nat := 0xFFFF_FFFF
  const UINT64_MAX: nat := 0xFFFF_FFFF_FFFF_FFFF
  const SIZE_MAX: nat := UINT64_MAX

  /** The longest string of an HPACK header. */
  const STR_MAX: nat := 256
}
