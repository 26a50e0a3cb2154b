/**
 * The prover's configuration and output records, and the configuration
 * constructors of the library's front end.
 */
module Config {
  import opened Wrappers
  import Field

  /** `ProverConfig`: circuit size parameter (2^k rows), parallel switch, thread count, RPC endpoint. */
  datatype ProverConfig = ProverConfig(k: Field.U32, parallel: bool, numThreads: Option<nat>, rpcUrl: Option<string>)

  /** `TraceInfo`: what the proof output reports about the trace. */
  datatype TraceInfo = TraceInfo(opcodeCount: nat, gasUsed: Field.U64, txHash: Option<string>, blockNumber: Option<Field.U64>)

  /** `ProofOutput`. */
  datatype ProofOutput = ProofOutput(proof: string, publicInputs: seq<string>, metadata: TraceInfo, vkHash: string)

  /** `ProverConfig::default()`: 2^17 rows, parallel, all cores, no RPC endpoint. */
  function Default(): (c: ProverConfig)
    ensures c.k == 17 && c.parallel && c.numThreads.None? && c.rpcUrl.None?
  {
    ProverConfig(17, true, None, None)
  }

  /** `new_prover()`: the default configuration. */
  function NewProver(): (c: ProverConfig)
    ensures c == Default()
  {
    Default()
  }

  /** `new_prover_with_params(k, parallel)`: sets exactly k and the parallel switch; the rest stays at its default. */
  function NewProverWithParams(k: Field.U32, parallel: bool): (c: ProverConfig)
    ensures c.k == k && c.parallel == parallel
    ensures c.numThreads == Default().numThreads && c.rpcUrl == Default().rpcUrl
  {
    Default().(k := k, parallel := parallel)
  }

  /** The library's configuration tests. */
  lemma ConfigTests()
    ensures Default().k == 17 && Default().parallel
    ensures NewProver().k == 17
    ensures NewProverWithParams(20, false).k == 20 && !NewProverWithParams(20, false).parallel
  {
  }
}
