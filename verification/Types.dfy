/** Types shared by the modules. */
module Types {

  datatype Option<+T> = None | Some(value: T)

  /** `char` is unsigned on this target. */
  type byte = x: int | 0 <= x < 256

  type uint16 = x: int | 0 <= x < 0x1_0000
  type int16 = x: int | -0x8000 <= x < 0x8000
}
