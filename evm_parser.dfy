/**
 * The trace record the prover consumes, its two fixtures, and the three
 * entry points that produce one: JSON decoding (whose decoder is a library
 * call, so its outcome is a parameter) and two stubs that always fail.
 */
module EvmParser {
  import opened Wrappers
  import Field
  import Errors

  /** `EvmTrace`: per-step opcodes, top-of-stack values, pcs and gas, plus optional chain coordinates. */
  datatype EvmTrace = EvmTrace(
    opcodes: seq<Field.U8>,
    stackStates: seq<seq<Field.U64>>,
    pcs: seq<Field.U64>,
    gasValues: seq<Field.U64>,
    txHash: Option<string>,
    blockNumber: Option<Field.U64>)

  /** Every per-step list has one entry per opcode and every stack state has three slots. */
  predicate WellShaped(t: EvmTrace) {
    |t.stackStates| == |t.opcodes| && |t.pcs| == |t.opcodes| && |t.gasValues| == |t.opcodes| &&
    forall i | 0 <= i < |t.stackStates| :: |t.stackStates[i]| == 3
  }

  /** `EvmTrace::mock_add`: PUSH1 1, PUSH1 2, ADD. */
  function MockAdd(): (t: EvmTrace)
    ensures WellShaped(t) && |t.opcodes| == 3
    ensures t.opcodes[2] == 0x01 && t.stackStates[2][0] as int == t.stackStates[0][0] as int + t.stackStates[1][0] as int == 3
    ensures t.txHash.None? && t.blockNumber.None?
  {
    EvmTrace([0x60, 0x60, 0x01], [[1, 0, 0], [2, 1, 0], [3, 0, 0]], [0, 2, 4], [1000, 997, 994], None, None)
  }

  /** `EvmTrace::mock_mul`: PUSH1 5, PUSH1 3, MUL, with 5 gas charged per step. */
  function MockMul(): (t: EvmTrace)
    ensures WellShaped(t) && |t.opcodes| == 3
    ensures t.opcodes[2] == 0x02 && t.stackStates[2][0] as int == t.stackStates[0][0] as int * t.stackStates[1][0] as int == 15
    ensures forall i | 0 < i < 3 :: t.gasValues[i - 1] as int - t.gasValues[i] as int == 5
    ensures t.txHash.None? && t.blockNumber.None?
  {
    EvmTrace([0x60, 0x60, 0x02], [[5, 0, 0], [3, 5, 0], [15, 0, 0]], [0, 2, 4], [1000, 995, 990], None, None)
  }

  /**
   * `parse_trace_json`: the decoder's outcome (`decoded`, the trace or the
   * decoder's error text) with any failure reported as a parse error.
   */
  function ParseTraceJson(decoded: Result<EvmTrace, string>): (r: Result<EvmTrace, Errors.ProverError>)
    ensures r.Success? <==> decoded.Success?
    ensures decoded.Success? ==> r.value == decoded.value
    ensures decoded.Failure? ==> r.error.ParseError? && r.error.msg == decoded.error
  {
    match decoded
    case Success(t) => Success(t)
    case Failure(e) => Failure(Errors.ParseError(e))
  }

  /** `fetch_trace_from_network`: a stub that fails with a network error naming both arguments. */
  function FetchTraceFromNetwork(txHash: string, rpcUrl: string): (r: Result<EvmTrace, Errors.ProverError>)
    ensures r.Failure? && r.error.NetworkError?
    ensures r.error.msg == "Fetching from network not yet implemented. TX: " + txHash + ", RPC: " + rpcUrl
  {
    Failure(Errors.NetworkError("Fetching from network not yet implemented. TX: " + txHash + ", RPC: " + rpcUrl))
  }

  /** `parse_debug_trace`: a stub that fails with a parse error whatever the response. */
  function ParseDebugTrace(traceJson: string): (r: Result<EvmTrace, Errors.ProverError>)
    ensures r.Failure? && r.error.ParseError?
    ensures r.error.msg == "Debug trace parsing not yet implemented"
  {
    Failure(Errors.ParseError("Debug trace parsing not yet implemented"))
  }

  /** The fetch stub's failure reads back, through the error display, as the network error it is. */
  lemma FetchErrorReadsBack(txHash: string, rpcUrl: string)
    ensures Errors.ParseDisplay(Errors.Display(FetchTraceFromNetwork(txHash, rpcUrl).error))
            == Some(FetchTraceFromNetwork(txHash, rpcUrl).error)
  {
    Errors.DisplayRoundTrip(FetchTraceFromNetwork(txHash, rpcUrl).error);
  }
}
