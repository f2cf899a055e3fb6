/** Option and Result, the error values of `result.rs`, and the fixed-width unsigned integers. */
module Wrappers {
  datatype Option<+T> = None | Some(value: T)

  datatype Result<+T, +E> = Success(value: T) | Failure(error: E) {
    predicate IsFailure() {
      Failure?
    }

    function PropagateFailure<U>(): Result<U, E>
      requires Failure?
    {
      Failure(error)
    }

    function Extract(): T
      requires Success?
    {
      value
    }
  }

  /** The error kinds; the message texts are not modelled. */
  datatype RipError = InvalidConfiguration | IoError | MalformedPacket

  type RipResult<+T> = Result<T, RipError>

  const RIP_CMD_REQUEST := 1
  const RIP_CMD_RESPONSE := 2
  const RIP_2_VERSION := 2
  const RIP_UDP_PORT := 520

  const U32_COUNT := 0x1_0000_0000
  const U64_COUNT := 0x1_0000_0000_0000_0000

  type byte = x: int | 0 <= x < 0x100
  type u16 = x: int | 0 <= x < 0x1_0000
  type u32 = x: int | 0 <= x < U32_COUNT
  type u64 = x: int | 0 <= x < U64_COUNT
}
