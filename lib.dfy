/**
 * The library's entry points: prove a trace given as JSON, on the parallel
 * or the sequential path as the configuration asks, and prove a transaction
 * fetched from the network (which the fetch stub always refuses). The field
 * modulus `p` is a parameter, as in the prover.
 */
module Lib {
  import opened Wrappers
  import Field
  import Errors
  import EvmParser
  import Config
  import ParallelProver

  /**
   * The decoded traces `generate_proof` answers without a panic: the steps
   * build, and the gas subtraction is either never reached (the parallel path
   * stops at a pool failure, or the prover fails to run or verify) or does
   * not underflow.
   */
  predicate Handled(p: Field.Modulus, t: EvmParser.EvmTrace, config: Config.ProverConfig, env: ParallelProver.Env) {
    ParallelProver.Admissible(t) &&
    ((config.parallel && ParallelProver.PoolFails(config, env)) || ParallelProver.NoGasUnderflow(p, t, env))
  }

  /**
   * `generate_proof`: parse, then prove on the configured path. `decoded` is
   * the JSON decoder's outcome for the input text.
   */
  function GenerateProof(p: Field.Modulus, decoded: Result<EvmParser.EvmTrace, string>, config: Config.ProverConfig,
                         env: ParallelProver.Env): (r: Result<Config.ProofOutput, Errors.ProverError>)
    requires decoded.Success? ==> Handled(p, decoded.value, config, env)
    ensures decoded.Failure? ==> r == Failure(Errors.ParseError(decoded.error))
  {
    match EvmParser.ParseTraceJson(decoded)
    case Failure(e) => Failure(e)
    case Success(t) =>
      if config.parallel then ParallelProver.GenerateProofParallel(p, t, config, env)
      else ParallelProver.GenerateProofSequential(p, t, config, env)
  }

  /**
   * A proof is produced exactly when the input decodes, the thread pool (if
   * a size was asked for on the parallel path) can be built, the mock prover
   * runs, and every step passes the gas gate.
   */
  lemma GenerateProofSucceedsIff(p: Field.Modulus, decoded: Result<EvmParser.EvmTrace, string>, config: Config.ProverConfig,
                                 env: ParallelProver.Env)
    requires Field.Wide(p) && (decoded.Success? ==> Handled(p, decoded.value, config, env))
    ensures GenerateProof(p, decoded, config, env).Success? <==>
            decoded.Success? &&
            !(config.parallel && config.numThreads.Some? && env.poolError.Some?) &&
            env.runError.None? &&
            forall i | 0 <= i < |decoded.value.opcodes| :: ParallelProver.StepPassesGasGate(decoded.value, i)
  {
    if decoded.Success? {
      ParallelProver.ParallelMatchesSequential(p, decoded.value, config, env);
      if !(config.parallel && ParallelProver.PoolFails(config, env)) {
        ParallelProver.SequentialOutcome(p, decoded.value, config, env);
      }
    }
  }

  /** The `parallel` flag changes the outcome only through the thread-pool failure. */
  lemma PathDoesNotMatter(p: Field.Modulus, decoded: Result<EvmParser.EvmTrace, string>, config: Config.ProverConfig,
                          env: ParallelProver.Env)
    requires config.numThreads.None? || env.poolError.None?
    requires decoded.Success? ==> Handled(p, decoded.value, config, env)
    ensures GenerateProof(p, decoded, config, env) ==
            GenerateProof(p, decoded, config.(parallel := !config.parallel), env)
  {
    if decoded.Success? {
      ParallelProver.ParallelMatchesSequential(p, decoded.value, config, env);
      ParallelProver.ParallelMatchesSequential(p, decoded.value, config.(parallel := !config.parallel), env);
    }
  }

  /**
   * `prove_transaction`: fetch the trace, then prove it. The fetch stub always
   * fails, so the network error is what every call returns.
   */
  function ProveTransaction(txHash: string, rpcUrl: string, config: Config.ProverConfig,
                            env: ParallelProver.Env): (r: Result<Config.ProofOutput, Errors.ProverError>)
    ensures r.Failure? && r.error.NetworkError?
    ensures r.error.msg == "Fetching from network not yet implemented. TX: " + txHash + ", RPC: " + rpcUrl
  {
    match EvmParser.FetchTraceFromNetwork(txHash, rpcUrl)
    case Failure(e) => Failure(e)
    case Success(_) => assert false; Failure(Errors.NetworkError(""))
  }
}
