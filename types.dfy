/** Shared vocabulary of the library: optional values and results, the fixed-width
    integer types of Go and the kernel ABI, kernel error numbers, and the error values
    the library returns (the sentinel errors of xpad.go and the formatted errors of the
    other files). */
module Types {

  datatype Option<T> = None | Some(value: T)

  /** A Go `(value, error)` pair: exactly one of the two is meaningful. */
  datatype Result<T> = Ok(value: T) | Err(error: Error)

  type byte = x: int | 0 <= x < 0x100
  type uint8 = x: int | 0 <= x < 0x100
  type uint16 = x: int | 0 <= x < 0x1_0000
  type int16 = x: int | -0x8000 <= x < 0x8000
  type uint32 = x: int | 0 <= x < 0x1_0000_0000
  type int32 = x: int | -0x8000_0000 <= x < 0x8000_0000
  type int64 = x: int | -0x8000_0000_0000_0000 <= x < 0x8000_0000_0000_0000

  /** Kernel error numbers that the library passes through unchanged. */
  datatype Errno = EINTR | EINVAL | ENODEV | ENOTTY | ENOENT | EACCES | EPERM | EIO | OtherErrno(code: nat)

  datatype Error =
    | ErrClosed
    | ErrNotImplemented
    | ErrNotFound
    | ErrReadOnly
    | ErrTimeout
    | UnsupportedEventType(kind: uint16)       // "unsupported event type %d"
    | AxisMapLength(got: nat, want: nat)       // "axis map length %d, want %d"
    | ButtonMapLength(got: nat, want: nat)     // "button map length %d, want %d"
    | BrightnessRange(value: int)              // "LED brightness out of range: %d"
    | BadBoolValue(token: string, path: string) // "unexpected boolean value %q in %s"
    | SyntaxError(text: string)                // strconv: invalid syntax
    | RangeError(text: string)                 // strconv: value out of range
    | EOF                                      // io.EOF from io.ReadFull
    | ErrUnexpectedEOF                         // io.ErrUnexpectedEOF from io.ReadFull
    | Sys(errno: Errno)                        // a passthrough kernel or filesystem error

  /** Go's `error` result: `None` is `nil`. */
  type MaybeError = Option<Error>

  function ErrnoError(e: Errno): Error { Sys(e) }
}
