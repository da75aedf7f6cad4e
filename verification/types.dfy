/**
 Basic types shared by the IPMI interface model: the C integer widths the
 interface record uses, an Option type, and the error object that an
 `Error **errp` out-parameter carries.
 */
module IpmiTypes {

  /** A C `uint8_t`. */
  type uint8 = x: int | 0 <= x < 0x100

  /** A C `uint32_t`. */
  type uint32 = x: int | 0 <= x < 0x1_0000_0000

  datatype Option<+T> = None | Some(value: T)

  /** The error a hook reports through its `errp` out-parameter. */
  datatype Error = Error(message: string)

  /**
   The outcome of calling one of the class hooks: the object as the hook
   left it, and the error it stored in `*errp`, if any.
   */
  datatype HookResult<T> = HookResult(state: T, err: Option<Error>)
}
