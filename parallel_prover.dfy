/**
 * The prover front end: turns a trace into execution steps, builds the main
 * circuit with the opcode count as its commitment, checks it, and reports the
 * proof record. The parallel and the sequential paths build the same steps.
 *
 * What the proving library decides and this model cannot see is passed in as
 * an `Env`: whether configuring the global thread pool fails, whether the mock
 * prover refuses to run the circuit, and the debug text of the verifier's
 * failure list. Whether the circuit's constraints hold is decided here.
 *
 * The prover works over `pasta::Fp`; here the modulus `p` is a parameter, and
 * the properties that need every u64 to be its own field element assume
 * `Field.Wide(p)`, which the 255-bit Pallas prime satisfies.
 */
module ParallelProver {
  import opened Wrappers
  import Field
  import Text
  import Errors
  import EvmChip
  import MainCircuit
  import EvmParser
  import Config

  /** The outcomes of the library calls the prover makes. */
  datatype Env = Env(
    poolError: Option<string>,   // `ThreadPoolBuilder::build_global` failed with this text
    runError: Option<string>,    // `MockProver::run` failed with this debug text
    failureText: string)         // debug text of the failure list `MockProver::verify` returns

  // ---------------------------------------------------------------------------
  // Building the steps

  /** Field value of stack slot `j` of step `i`: the recorded value, or 0 when the state or the slot is missing. */
  function StackSlot(p: Field.Modulus, t: EvmParser.EvmTrace, i: nat, j: nat): (v: int)
    ensures Field.Elem(p, v)
    ensures i < |t.stackStates| && j < |t.stackStates[i]| ==> v == t.stackStates[i][j] % p
    ensures !(i < |t.stackStates| && j < |t.stackStates[i]|) ==> v == 0
  {
    Field.FromU64(p, if i < |t.stackStates| && j < |t.stackStates[i]| then t.stackStates[i][j] else 0)
  }

  /**
   * The gas of step `i` as written: `unwrap_or(1000000 - i * 3)` evaluates its
   * default before looking at the entry, so the u64 subtraction underflows
   * (a panic, `None` here) for every i above 333333, recorded gas or not.
   */
  function StepGasEager(t: EvmParser.EvmTrace, i: nat): (g: Option<Field.U64>)
    ensures g.None? <==> 3 * i > 1000000
  {
    if 3 * i > 1000000 then None
    else Some(if i < |t.gasValues| then t.gasValues[i] else 1000000 - 3 * i)
  }

  /** Step `i` needs the default gas only where it has no entry, and that default must not underflow. */
  predicate GasDefaultInRange(t: EvmParser.EvmTrace, i: nat) {
    i >= |t.gasValues| ==> 3 * i <= 1000000
  }

  /** The gas of step `i` with the default taken only when the entry is missing. */
  function StepGas(t: EvmParser.EvmTrace, i: nat): (g: Field.U64)
    requires GasDefaultInRange(t, i)
    ensures i < |t.gasValues| ==> g == t.gasValues[i]
    ensures i >= |t.gasValues| ==> g + 3 * i == 1000000
  {
    if i < |t.gasValues| then t.gasValues[i] else 1000000 - 3 * i
  }

  /**
   * The traces whose steps are built and laid out without an arithmetic panic:
   * no pc is u64::MAX (`pc + 1` in `execute_opcode`), and no missing gas entry
   * needs a default below zero. The count bound is no panic (`as u64` casts
   * truncate, and a vector's length fits a u64): it keeps the pc default and
   * the commitment within `U64`.
   */
  predicate Admissible(t: EvmParser.EvmTrace) {
    |t.opcodes| <= Field.MaxU64 &&
    (forall i | 0 <= i < |t.opcodes| && i < |t.pcs| :: t.pcs[i] < Field.MaxU64) &&
    (forall i | |t.gasValues| <= i < |t.opcodes| :: 3 * i <= 1000000)
  }

  /** The first gas value is at least the last, so `first - last` does not underflow. */
  predicate GasOrdered(t: EvmParser.EvmTrace) {
    |t.gasValues| > 0 ==> t.gasValues[0] >= t.gasValues[|t.gasValues| - 1]
  }

  /** The step built for opcode `i`. */
  function StepAt(p: Field.Modulus, t: EvmParser.EvmTrace, i: nat): (s: MainCircuit.ExecutionStep)
    requires Admissible(t) && i < |t.opcodes|
    ensures s.opcode == t.opcodes[i]
    ensures forall j | 0 <= j < 3 :: s.stack[j] == StackSlot(p, t, i, j)
    ensures s.pc == (if i < |t.pcs| then t.pcs[i] else i)
    ensures s.gas == StepGas(t, i)
    ensures Field.Elem(p, s.stack[0]) && Field.Elem(p, s.stack[1]) && s.pc < Field.MaxU64
  {
    MainCircuit.ExecutionStep(t.opcodes[i], [StackSlot(p, t, i, 0), StackSlot(p, t, i, 1), StackSlot(p, t, i, 2)],
                              if i < |t.pcs| then t.pcs[i] else i, StepGas(t, i))
  }

  /** `iter().enumerate().map(..).collect()` over the first `n` opcodes. */
  function SequentialSteps(p: Field.Modulus, t: EvmParser.EvmTrace, n: nat): (steps: seq<MainCircuit.ExecutionStep>)
    requires Admissible(t) && n <= |t.opcodes|
    ensures |steps| == n
    ensures forall i | 0 <= i < n :: steps[i] == StepAt(p, t, i)
  {
    if n == 0 then [] else SequentialSteps(p, t, n - 1) + [StepAt(p, t, n - 1)]
  }

  /**
   * `par_iter().enumerate().map(..).collect()`: each index is mapped on its
   * own, in any order, and `collect` places result `i` at position `i`.
   */
  function ParallelSteps(p: Field.Modulus, t: EvmParser.EvmTrace): (steps: seq<MainCircuit.ExecutionStep>)
    requires Admissible(t)
  {
    Collect(map i | 0 <= i < |t.opcodes| :: StepAt(p, t, i), |t.opcodes|)
  }

  /** `collect` of index-tagged results: result `i` at position `i`. */
  function Collect(results: map<nat, MainCircuit.ExecutionStep>, n: nat): (steps: seq<MainCircuit.ExecutionStep>)
    requires forall i | 0 <= i < n :: i in results
    ensures |steps| == n && forall i | 0 <= i < n :: steps[i] == results[i]
  {
    seq(n, i requires 0 <= i < n => results[i])
  }

  /** Both builders produce one step per opcode, in index order. */
  lemma ParallelStepsAreSequential(p: Field.Modulus, t: EvmParser.EvmTrace)
    requires Admissible(t)
    ensures ParallelSteps(p, t) == SequentialSteps(p, t, |t.opcodes|)
  {
  }

  // ---------------------------------------------------------------------------
  // Commitment, metadata, verifying key hash, proof bytes

  /** `Fp::from(opcodes.len() as u64)`. */
  function Commitment(p: Field.Modulus, t: EvmParser.EvmTrace): (c: int)
    requires |t.opcodes| <= Field.MaxU64
    ensures c == |t.opcodes| % p
    ensures Field.Wide(p) ==> c == |t.opcodes|
  {
    Field.FromU64(p, |t.opcodes|)
  }

  /** The public-input strings: the debug rendering of the commitment, and nothing else. */
  function PublicInputs(p: Field.Modulus, t: EvmParser.EvmTrace): (ps: seq<string>)
    requires |t.opcodes| <= Field.MaxU64
    ensures |ps| == 1 && ps[0] == Text.FieldDebug(|t.opcodes| % p)
  {
    [Text.FieldDebug(Commitment(p, t))]
  }

  /** `first - last` of the gas values (0 for none); the u64 subtraction needs first >= last. */
  function GasUsed(g: seq<Field.U64>): (u: Field.U64)
    requires |g| > 0 ==> g[0] >= g[|g| - 1]
    ensures |g| <= 1 ==> u == 0
  {
    if |g| == 0 then 0 else g[0] - g[|g| - 1]
  }

  /** Total of the step-to-step gas drops. */
  function Drops(g: seq<Field.U64>): int {
    if |g| <= 1 then 0 else (g[0] - g[1]) + Drops(g[1..])
  }

  lemma {:induction false} DropsTelescope(g: seq<Field.U64>)
    requires |g| > 0
    ensures Drops(g) == g[0] as int - g[|g| - 1] as int
  {
    if |g| > 1 {
      DropsTelescope(g[1..]);
    }
  }

  /** The reported gas is the sum of what every step charged. */
  lemma GasUsedIsTotalOfDrops(g: seq<Field.U64>)
    requires |g| > 0 ==> g[0] >= g[|g| - 1]
    ensures GasUsed(g) == Drops(g)
  {
    if |g| > 0 {
      DropsTelescope(g);
    }
  }

  /** The `TraceInfo` reported for a trace. */
  function Metadata(t: EvmParser.EvmTrace): (m: Config.TraceInfo)
    requires GasOrdered(t)
    ensures m.opcodeCount == |t.opcodes| && m.gasUsed == GasUsed(t.gasValues)
    ensures m.txHash == t.txHash && m.blockNumber == t.blockNumber
  {
    Config.TraceInfo(|t.opcodes|, GasUsed(t.gasValues), t.txHash, t.blockNumber)
  }

  /** `format!("vk_{}", k)`. */
  function VkHash(k: Field.U32): (h: string)
    ensures |h| > 3 && h[..3] == "vk_" && h[3..] == Text.Decimal(k)
  {
    "vk_" + Text.Decimal(k)
  }

  /** Distinct k give distinct verifying-key hashes. */
  lemma VkHashInjective(k1: Field.U32, k2: Field.U32)
    ensures VkHash(k1) == VkHash(k2) <==> k1 == k2
  {
    if k1 != k2 {
      Text.DecimalInjective(k1, k2);
      assert VkHash(k1)[3..] != VkHash(k2)[3..];
    }
  }

  /** The standard base64 encoding of 128 zero bytes: 42 full groups and a padded final pair. */
  const PlaceholderProof: string := Repeat('A', 171) + "="

  function Repeat(c: char, n: nat): (s: string)
    ensures |s| == n && forall i | 0 <= i < n :: s[i] == c
  {
    if n == 0 then [] else [c] + Repeat(c, n - 1)
  }

  // ---------------------------------------------------------------------------
  // The two proving paths

  /** `EvmCircuit::new(steps, trace_commitment)` for the steps built from `t`. */
  function TraceCircuit(p: Field.Modulus, t: EvmParser.EvmTrace, steps: seq<MainCircuit.ExecutionStep>)
    : (c: MainCircuit.EvmCircuit)
    requires Admissible(t) && steps == SequentialSteps(p, t, |t.opcodes|)
    ensures c.steps == steps && c.traceCommitment == Commitment(p, t)
    ensures MainCircuit.Valid(p, c)
  {
    MainCircuit.New(steps, Commitment(p, t))
  }

  /** Whether the mock prover accepts the circuit built from `t` with the count as public input. */
  predicate CircuitAccepted(p: Field.Modulus, t: EvmParser.EvmTrace)
    requires Admissible(t)
  {
    MainCircuit.Accepts(p, TraceCircuit(p, t, SequentialSteps(p, t, |t.opcodes|)), [Commitment(p, t)])
  }

  /**
   * The metadata is computed only after the prover has run and verified, so
   * the gas subtraction can panic only for a trace that gets that far.
   */
  predicate NoGasUnderflow(p: Field.Modulus, t: EvmParser.EvmTrace, env: Env)
    requires Admissible(t)
  {
    env.runError.None? && CircuitAccepted(p, t) ==> GasOrdered(t)
  }

  /** A thread count is asked for and the global pool cannot be built. */
  predicate PoolFails(config: Config.ProverConfig, env: Env) {
    config.numThreads.Some? && env.poolError.Some?
  }

  /** The part both paths share once the steps are built. */
  function Finish(p: Field.Modulus, t: EvmParser.EvmTrace, config: Config.ProverConfig, env: Env,
                  steps: seq<MainCircuit.ExecutionStep>): Result<Config.ProofOutput, Errors.ProverError>
    requires Admissible(t) && steps == SequentialSteps(p, t, |t.opcodes|) && NoGasUnderflow(p, t, env)
  {
    if env.runError.Some? then Failure(Errors.Halo2Error(env.runError.value))
    else if !MainCircuit.Accepts(p, TraceCircuit(p, t, steps), [Commitment(p, t)]) then
      Failure(Errors.VerificationError(env.failureText))
    else Success(Config.ProofOutput(PlaceholderProof, PublicInputs(p, t), Metadata(t), VkHash(config.k)))
  }

  /** `generate_proof_parallel`. */
  function GenerateProofParallel(p: Field.Modulus, t: EvmParser.EvmTrace, config: Config.ProverConfig, env: Env)
    : Result<Config.ProofOutput, Errors.ProverError>
    requires Admissible(t) && (PoolFails(config, env) || NoGasUnderflow(p, t, env))
  {
    if PoolFails(config, env) then
      Failure(Errors.ProofGenerationError(env.poolError.value))
    else
      ParallelStepsAreSequential(p, t);
      Finish(p, t, config, env, ParallelSteps(p, t))
  }

  /** `generate_proof_sequential`. */
  function GenerateProofSequential(p: Field.Modulus, t: EvmParser.EvmTrace, config: Config.ProverConfig, env: Env)
    : Result<Config.ProofOutput, Errors.ProverError>
    requires Admissible(t) && NoGasUnderflow(p, t, env)
  {
    Finish(p, t, config, env, SequentialSteps(p, t, |t.opcodes|))
  }

  // ---------------------------------------------------------------------------
  // Properties

  /** The paths agree unless the parallel one is asked for a thread count and the pool cannot be built. */
  lemma ParallelMatchesSequential(p: Field.Modulus, t: EvmParser.EvmTrace, config: Config.ProverConfig, env: Env)
    requires Admissible(t) && (PoolFails(config, env) || NoGasUnderflow(p, t, env))
    ensures config.numThreads.None? || env.poolError.None? ==>
              GenerateProofParallel(p, t, config, env) == GenerateProofSequential(p, t, config, env)
    ensures config.numThreads.Some? && env.poolError.Some? ==>
              GenerateProofParallel(p, t, config, env) == Failure(Errors.ProofGenerationError(env.poolError.value))
  {
    ParallelStepsAreSequential(p, t);
  }

  /** Whether the gas gate holds on step `i`, read off the trace. */
  predicate StepPassesGasGate(t: EvmParser.EvmTrace, i: nat)
    requires i < |t.opcodes| && GasDefaultInRange(t, i)
  {
    EvmChip.GasGateCondition(t.opcodes[i], StepGas(t, i))
  }

  /**
   * The sequential path succeeds exactly when the mock prover runs and every
   * step passes the gas gate (the commitment binding always holds); on
   * success it reports the count as the single public input, the metadata,
   * `vk_<k>` and the placeholder proof; on failure it says which stage failed.
   */
  lemma SequentialOutcome(p: Field.Modulus, t: EvmParser.EvmTrace, config: Config.ProverConfig, env: Env)
    requires Field.Wide(p) && Admissible(t) && NoGasUnderflow(p, t, env)
    ensures GenerateProofSequential(p, t, config, env).Success? <==>
            env.runError.None? && forall i | 0 <= i < |t.opcodes| :: StepPassesGasGate(t, i)
    ensures env.runError.Some? ==>
            GenerateProofSequential(p, t, config, env) == Failure(Errors.Halo2Error(env.runError.value))
    ensures env.runError.None? && GenerateProofSequential(p, t, config, env).Failure? ==>
            GenerateProofSequential(p, t, config, env) == Failure(Errors.VerificationError(env.failureText))
    ensures GenerateProofSequential(p, t, config, env).Success? ==>
            var out := GenerateProofSequential(p, t, config, env).value;
            out.publicInputs == [Text.FieldDebug(|t.opcodes|)] && out.metadata == Metadata(t) &&
            out.vkHash == VkHash(config.k) && out.proof == PlaceholderProof
  {
    var steps := SequentialSteps(p, t, |t.opcodes|);
    MainCircuit.AcceptsIff(p, TraceCircuit(p, t, steps), [Commitment(p, t)]);
    forall i | 0 <= i < |t.opcodes|
      ensures EvmChip.GasGateCondition(steps[i].opcode, steps[i].gas) == StepPassesGasGate(t, i)
    {
      assert steps[i] == StepAt(p, t, i);
    }
  }

  /**
   * In a wide field the circuit is accepted exactly when every step passes
   * the gas gate, so the gas subtraction is reached exactly for traces that
   * run and pass every gate.
   */
  lemma CircuitAcceptedIff(p: Field.Modulus, t: EvmParser.EvmTrace, env: Env)
    requires Field.Wide(p) && Admissible(t)
    ensures CircuitAccepted(p, t) <==> forall i | 0 <= i < |t.opcodes| :: StepPassesGasGate(t, i)
    ensures NoGasUnderflow(p, t, env) <==>
            (env.runError.None? && (forall i | 0 <= i < |t.opcodes| :: StepPassesGasGate(t, i)) ==> GasOrdered(t))
  {
    var steps := SequentialSteps(p, t, |t.opcodes|);
    MainCircuit.AcceptsIff(p, TraceCircuit(p, t, steps), [Commitment(p, t)]);
    forall i | 0 <= i < |t.opcodes|
      ensures EvmChip.GasGateCondition(steps[i].opcode, steps[i].gas) == StepPassesGasGate(t, i)
    {
      assert steps[i] == StepAt(p, t, i);
    }
  }

  /**
   * A trace whose gas rises is still answered with an error, not a panic,
   * when the prover fails to run or a step fails the gas gate: the
   * subtraction comes after both.
   */
  lemma RisingGasStillFailsCleanly(p: Field.Modulus, t: EvmParser.EvmTrace, config: Config.ProverConfig, env: Env)
    requires Field.Wide(p) && Admissible(t) && !GasOrdered(t)
    requires env.runError.Some? || exists i | 0 <= i < |t.opcodes| :: !StepPassesGasGate(t, i)
    ensures NoGasUnderflow(p, t, env)
    ensures env.runError.Some? ==> GenerateProofSequential(p, t, config, env) == Failure(Errors.Halo2Error(env.runError.value))
    ensures env.runError.None? ==> GenerateProofSequential(p, t, config, env) == Failure(Errors.VerificationError(env.failureText))
  {
    CircuitAcceptedIff(p, t, env);
    SequentialOutcome(p, t, config, env);
  }

  /** A single STOP step whose gas rises from 3 to 5 is refused by the verifier, not by a panic. */
  lemma RisingGasStopRefused(p: Field.Modulus, config: Config.ProverConfig, env: Env)
    requires Field.Wide(p) && env.runError.None?
    ensures var t := EvmParser.EvmTrace([0x00], [], [], [3, 5], None, None);
            Admissible(t) && !GasOrdered(t) && NoGasUnderflow(p, t, env) &&
            GenerateProofSequential(p, t, config, env) == Failure(Errors.VerificationError(env.failureText))
  {
    var t := EvmParser.EvmTrace([0x00], [], [], [3, 5], None, None);
    assert EvmChip.ByteGasCost(0x00) == 0;
    assert !StepPassesGasGate(t, 0);
    RisingGasStillFailsCleanly(p, t, config, env);
  }

  /** The public inputs depend on the trace only through its length. */
  lemma PublicInputsOnlyCount(p: Field.Modulus, t1: EvmParser.EvmTrace, t2: EvmParser.EvmTrace)
    requires Field.Wide(p) && |t1.opcodes| <= Field.MaxU64 && |t2.opcodes| <= Field.MaxU64
    ensures PublicInputs(p, t1) == PublicInputs(p, t2) <==> |t1.opcodes| == |t2.opcodes|
  {
    if |t1.opcodes| != |t2.opcodes| {
      Text.U64FitsHex();
      Text.FieldDebugInjective(|t1.opcodes|, |t2.opcodes|);
      assert PublicInputs(p, t1)[0] != PublicInputs(p, t2)[0];
    }
  }

  /** Nothing rejects an empty trace: it is proved, with count 0 as its public input. */
  lemma EmptyTraceProves(p: Field.Modulus, t: EvmParser.EvmTrace, config: Config.ProverConfig, env: Env)
    requires Field.Wide(p) && Admissible(t) && GasOrdered(t) && |t.opcodes| == 0 && env.runError.None?
    ensures GenerateProofSequential(p, t, config, env).Success?
    ensures GenerateProofSequential(p, t, config, env).value.metadata.opcodeCount == 0
    ensures GenerateProofSequential(p, t, config, env).value.publicInputs == [Text.FieldDebug(0)]
  {
    SequentialOutcome(p, t, config, env);
  }

  /** Where the eager default does not panic it agrees with the lazy one; past index 333333 it panics even when the gas is recorded. */
  lemma EagerDefaultPanics(t: EvmParser.EvmTrace, i: nat)
    requires GasDefaultInRange(t, i)
    ensures StepGasEager(t, i).Some? ==> StepGasEager(t, i).value == StepGas(t, i)
    ensures i < |t.gasValues| && i > 333333 ==> StepGasEager(t, i).None? && StepGas(t, i) == t.gasValues[i]
  {
  }

  /** A trace of 333335 recorded steps: the builder as written panics on the last one. */
  lemma EagerDefaultPanicsOnLongTrace()
    ensures var t := EvmParser.EvmTrace(seq(333335, _ => 0x01), [], [], seq(333335, _ => 1000000), None, None);
            Admissible(t) && StepGasEager(t, 333334).None? && StepGas(t, 333334) == 1000000
  {
  }

  // ---------------------------------------------------------------------------
  // The fixtures through the prover

  lemma MockTracesAdmissible()
    ensures Admissible(EvmParser.MockAdd()) && Admissible(EvmParser.MockMul())
    ensures GasOrdered(EvmParser.MockAdd()) && GasOrdered(EvmParser.MockMul())
  {
  }

  /** On either path, a trace whose steps all pass the gas gate yields the proof record, when the pool and the prover run. */
  lemma ProvesWhenGatesPass(p: Field.Modulus, t: EvmParser.EvmTrace, config: Config.ProverConfig, env: Env)
    requires Field.Wide(p) && Admissible(t) && GasOrdered(t) && env.runError.None?
    requires config.numThreads.None? || env.poolError.None?
    requires forall i | 0 <= i < |t.opcodes| :: StepPassesGasGate(t, i)
    ensures GenerateProofParallel(p, t, config, env) == GenerateProofSequential(p, t, config, env)
    ensures GenerateProofParallel(p, t, config, env) ==
            Success(Config.ProofOutput(PlaceholderProof, PublicInputs(p, t), Metadata(t), VkHash(config.k)))
  {
    ParallelMatchesSequential(p, t, config, env);
    SequentialOutcome(p, t, config, env);
  }

  /** `mock_add` is proved under the default configuration; `MockAddOutputs` evaluates the record. */
  lemma MockAddProves(p: Field.Modulus, env: Env)
    requires Field.Wide(p) && env.runError.None?
    ensures Admissible(EvmParser.MockAdd()) &&
            GenerateProofParallel(p, EvmParser.MockAdd(), Config.Default(), env) ==
            Success(Config.ProofOutput(PlaceholderProof, PublicInputs(p, EvmParser.MockAdd()),
                                       Metadata(EvmParser.MockAdd()), VkHash(17)))
  {
    MockTracesAdmissible();
    MockAddGasGates();
    ProvesWhenGatesPass(p, EvmParser.MockAdd(), Config.Default(), env);
  }

  /** The record `mock_add` is proved with: one public input (the count 3), 6 gas used, no chain coordinates, `vk_17`. */
  lemma MockAddOutputs(p: Field.Modulus)
    requires Field.Wide(p)
    ensures PublicInputs(p, EvmParser.MockAdd()) == [Text.FieldDebug(3)]
    ensures Metadata(EvmParser.MockAdd()) == Config.TraceInfo(3, 6, None, None)
    ensures VkHash(17) == "vk_17"
  {
    assert Text.Decimal(17) == "17";
  }

  /** Each `mock_add` step is a PUSH1 or an ADD, both costing 3, with gas to spare. */
  lemma MockAddGasGates()
    ensures forall i | 0 <= i < |EvmParser.MockAdd().opcodes| :: StepPassesGasGate(EvmParser.MockAdd(), i)
  {
    var t := EvmParser.MockAdd();
    assert EvmChip.ByteGasCost(0x60) == 3 && EvmChip.ByteGasCost(0x01) == 3;
    assert StepPassesGasGate(t, 0) && StepPassesGasGate(t, 1) && StepPassesGasGate(t, 2);
  }

  /** `mock_mul` is refused: its MUL step charges 5 gas where the gate demands 3. */
  lemma MockMulFails(p: Field.Modulus, config: Config.ProverConfig, env: Env)
    requires Field.Wide(p) && env.runError.None?
    ensures Admissible(EvmParser.MockMul()) &&
            GenerateProofSequential(p, EvmParser.MockMul(), config, env) == Failure(Errors.VerificationError(env.failureText))
  {
    var t := EvmParser.MockMul();
    MockTracesAdmissible();
    SequentialOutcome(p, t, config, env);
    assert !StepPassesGasGate(t, 2);
  }
}
