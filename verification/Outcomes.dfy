/** Outcomes shared by the modules. */
module Outcomes {
  datatype Option<+T> = None | Some(value: T)

  /** What encoding or decoding can fail with. */
  datatype BcpError =
    | BadMagic
    | BadVersion
    | Incomplete
    | CrcMismatch
    | BadCmdId(id: int)
    | PayloadTooLarge
    | TooManyCommands
    | BufferFull
    | FrameTooLarge
    | BadFrameLength

  datatype Result<+T> = Ok(value: T) | Err(error: BcpError)
}
