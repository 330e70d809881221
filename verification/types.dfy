/** Values shared by the whole input pipeline. */
module Types {

  datatype Option<+T> = None | Some(value: T)

  /** The modifiers a flag can stand for, with the two sentinels of the enumeration. */
  datatype ModifierFlag =
    | Zero
    | CapsLock
    | LeftControl
    | LeftShift
    | LeftOption
    | LeftCommand
    | RightControl
    | RightShift
    | RightOption
    | RightCommand
    | Fn
    | End

  datatype EventType = KeyDown | KeyUp | Single

  datatype Validity = Valid | Invalid

  /** A registry entry id; 0 is used for entries that belong to no hardware. */
  type DeviceId = nat

  const MAX_SIZE := 0xffff_ffff_ffff_ffff

  /** An unsigned 64-bit number. */
  type Size = n: nat | n <= MAX_SIZE

  function Max(a: int, b: int): int {
    if a < b then b else a
  }

  function Min(a: int, b: int): int {
    if a < b then a else b
  }
}
