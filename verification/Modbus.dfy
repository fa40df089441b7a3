/** internal/modbus/modbus.go: the PDU, function and exception codes, and errors. */
module Modbus {
  import opened Bytes

  datatype Pdu = Pdu(unitId: byte, functionCode: byte, payload: seq<byte>)

  const FC_READ_COILS: byte := 0x01
  const FC_READ_DISCRETE_INPUTS: byte := 0x02
  const FC_READ_HOLDING_REGISTERS: byte := 0x03
  const FC_READ_INPUT_REGISTERS: byte := 0x04
  const FC_WRITE_SINGLE_COIL: byte := 0x05
  const FC_WRITE_SINGLE_REGISTER: byte := 0x06
  const FC_WRITE_MULTIPLE_COILS: byte := 0x0f
  const FC_WRITE_MULTIPLE_REGISTERS: byte := 0x10
  const FC_MASK_WRITE_REGISTER: byte := 0x16

  const EX_ILLEGAL_FUNCTION: byte := 0x01
  const EX_ILLEGAL_DATA_ADDRESS: byte := 0x02
  const EX_ILLEGAL_DATA_VALUE: byte := 0x03
  const EX_SERVER_DEVICE_FAILURE: byte := 0x04
  const EX_ACKNOWLEDGE: byte := 0x05
  const EX_SERVER_DEVICE_BUSY: byte := 0x06
  const EX_MEMORY_PARITY_ERROR: byte := 0x08
  const EX_GW_PATH_UNAVAILABLE: byte := 0x0a
  const EX_GW_TARGET_FAILED_TO_RESPOND: byte := 0x0b

  /** What a read, write or deadline call on a link can fail with. */
  datatype LinkError =
    | Eof                // io.EOF
    | UnexpectedEof      // io.ErrUnexpectedEOF
    | DeadlineExceeded   // any error for which os.IsTimeout holds
    | PortTimeout        // the ErrRequestTimedOut of the serial port wrapper
    | LinkFailure(code: int)

  datatype Error =
    | RequestTimedOut
    | IllegalFunction
    | IllegalDataAddress
    | IllegalDataValue
    | ServerDeviceFailure
    | Acknowledge
    | ServerDeviceBusy
    | MemoryParityError
    | GWPathUnavailable
    | GWTargetFailedToRespond
    | BadCRC
    | ShortFrame
    | ProtocolError
    | BadUnitId
    | UnknownProtocolId
    | UnexpectedParameters
    | UnknownExceptionCode(code: byte)
    | Link(cause: LinkError)
    | Other(id: int)   // any error of a request handler's own

  datatype Result<+T> = Ok(value: T) | Err(error: Error)

  /** The serial port wrapper returns the very error value that the client uses for time-outs. */
  function FromLink(e: LinkError): Error {
    if e.PortTimeout? then RequestTimedOut else Link(e)
  }

  /** `functionCode | 0x80` */
  function ErrorCode(functionCode: byte): byte {
    if functionCode < 0x80 then functionCode + 0x80 else functionCode
  }

  function MapExceptionCodeToError(code: byte): Error {
    if code == EX_ILLEGAL_FUNCTION then IllegalFunction
    else if code == EX_ILLEGAL_DATA_ADDRESS then IllegalDataAddress
    else if code == EX_ILLEGAL_DATA_VALUE then IllegalDataValue
    else if code == EX_SERVER_DEVICE_FAILURE then ServerDeviceFailure
    else if code == EX_ACKNOWLEDGE then Acknowledge
    else if code == EX_MEMORY_PARITY_ERROR then MemoryParityError
    else if code == EX_SERVER_DEVICE_BUSY then ServerDeviceBusy
    else if code == EX_GW_PATH_UNAVAILABLE then GWPathUnavailable
    else if code == EX_GW_TARGET_FAILED_TO_RESPOND then GWTargetFailedToRespond
    else UnknownExceptionCode(code)
  }

  function MapErrorToExceptionCode(e: Error): byte {
    match e
    case IllegalFunction => EX_ILLEGAL_FUNCTION
    case IllegalDataAddress => EX_ILLEGAL_DATA_ADDRESS
    case IllegalDataValue => EX_ILLEGAL_DATA_VALUE
    case ServerDeviceFailure => EX_SERVER_DEVICE_FAILURE
    case Acknowledge => EX_ACKNOWLEDGE
    case MemoryParityError => EX_MEMORY_PARITY_ERROR
    case ServerDeviceBusy => EX_SERVER_DEVICE_BUSY
    case GWPathUnavailable => EX_GW_PATH_UNAVAILABLE
    case GWTargetFailedToRespond => EX_GW_TARGET_FAILED_TO_RESPOND
    case _ => EX_SERVER_DEVICE_FAILURE
  }

  /** The nine errors that have an exception code of their own. */
  predicate HasCode(e: Error) {
    || e.IllegalFunction? || e.IllegalDataAddress? || e.IllegalDataValue? || e.ServerDeviceFailure?
    || e.Acknowledge? || e.ServerDeviceBusy? || e.MemoryParityError?
    || e.GWPathUnavailable? || e.GWTargetFailedToRespond?
  }

  /** What the other side of the wire sees of an error: itself if it has a code, a device failure otherwise. */
  function Seen(e: Error): Error {
    if HasCode(e) then e else ServerDeviceFailure
  }

  /**
   Codes and errors translate back and forth without loss, and every other error looks like a device
   failure.
   */
  lemma ExceptionCodesRoundTrip(e: Error, code: byte)
    ensures MapExceptionCodeToError(MapErrorToExceptionCode(e)) == Seen(e)
    ensures HasCode(MapExceptionCodeToError(code)) ==> MapErrorToExceptionCode(MapExceptionCodeToError(code)) == code
    ensures HasCode(MapExceptionCodeToError(code)) <==> code in {1, 2, 3, 4, 5, 6, 8, 10, 11}
  {
  }
}
