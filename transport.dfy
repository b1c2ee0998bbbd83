/**
 * The Modbus client, reduced to what the integration observes: the result of a block read
 * (supplied by the caller), the requests it issues, and a log of the register writes and
 * refresh requests the entities make.
 */
module Transport {
  import opened Registers

  /**
   * Outcome of a block read: the words or bits returned, a Modbus exception response
   * (`isError()`), or a raised exception (connection loss, timeout, bad request).
   */
  datatype ReadResult<T> = Response(values: seq<T>) | ErrorResponse | Raised

  /** The read function codes of the Modbus Application Protocol Specification V1.1b3, sections 6.1 to 6.4. */
  datatype FunctionCode = ReadCoils | ReadDiscreteInputs | ReadHoldingRegisters | ReadInputRegisters {
    function Code(): nat {
      match this
      case ReadCoils => 1
      case ReadDiscreteInputs => 2
      case ReadHoldingRegisters => 3
      case ReadInputRegisters => 4
    }
  }

  /** A block read as issued: function code, 0-based PDU start address and quantity. */
  datatype ReadRequest = ReadRequest(code: FunctionCode, start: int, count: int)

  /** `write_register(address, value)`, with the address and value passed as given. */
  datatype RegisterWrite = RegisterWrite(address: int, value: Scalar)

  /** What the entities do to the device: register writes, then refresh requests to the coordinator. */
  class ModbusLink {
    var writes: seq<RegisterWrite>
    var refreshRequests: nat

    constructor ()
      ensures writes == [] && refreshRequests == 0
    {
      writes := [];
      refreshRequests := 0;
    }
  }
}
