# zephyr-proof, modelled in Dafny

zephyr-proof turns an EVM execution trace into a Halo2 circuit and checks it with
Halo2's mock prover. The trace holds per-step opcodes, the top three stack
values, the program counters and the remaining gas. The modelled core is:

- **Opcode chip** (`EvmChip`). It covers the opcode table: byte encoding, gas
  cost and stack effect. Its `configure` creates the pc, gas and stack-depth
  gates. `execute_opcode` lays out one step: the opcode, two operands, pc/pc+1,
  gas/gas-after, and the field result of the opcode. `check_stack_depth` lays
  out a depth cell.
- **Arithmetic chip** (`AddChip`). It has the add and mul gates and the
  `add`, `add_assigned`, `sub` and `mul` regions.
- **Circuits**. `MainCircuit` holds the trace commitment as its public input,
  then one opcode-chip step per execution step. `Arithmetic` is a
  single-operation circuit. `Storage` is a list of storage updates under a
  placeholder gate.
- **Prover** (`ParallelProver`). It covers step building on the parallel
  (rayon) and sequential paths, the commitment, the public inputs, the
  metadata, the verifying-key hash, the placeholder proof, and which error
  each stage reports.
- **Library surface** (`Lib`, `Config`, `EvmParser`, `Errors`). It covers
  `generate_proof`, `prove_transaction`, the configuration constructors, the
  trace fixtures, the JSON entry point, the network stubs, and the error type
  with its display strings.

The part of Halo2 that the circuits touch is modelled in `Plonk` as three
classes:

- `Region`: the written cells and the enabled selectors.
- `Layouter`: the regions in assignment order, and the cells tied to the
  instance column.
- `ConstraintSystem`: the gates and the equality-enabled columns.

A layout is accepted (`Plonk.Satisfied`) when three things hold. Every gate is
zero modulo p on every row where its selector is on. Every cell it queries has
been assigned. Every instance binding holds.

The field is generic, as in the source (`F: Field`). An element is an integer
in `[0, p)` for a modulus `p > 1`. `Field.Wide(p)` says that p exceeds
`u64::MAX`, as the Pallas base field used by the prover does. Under that
condition a u64 embeds unchanged.

Central results:

- The gas gate holds on a step exactly when the opcode costs 3 and gas ≥ 3, or
  when gas < cost and gas == 3 (`EvmChip.GasGateIff`). So a MUL step (cost 5)
  is refused unless exactly 3 gas is left (`EvmChip.MulBreaksGasGate`); the
  ignored chip test, with 21000 gas, is refused.
- The main circuit is accepted exactly when row 0 of the instance column is
  the commitment and every step passes the gas gate on its own
  (`MainCircuit.AcceptsIff`). Nothing links one step to the next.
- A proof is produced exactly when all of the following hold
  (`Lib.GenerateProofSucceedsIff`):
  - the JSON decodes;
  - the thread pool, if a size was requested on the parallel path, can be
    built;
  - the mock prover runs;
  - every step passes the gas gate.
- The two paths agree except for the thread-pool failure
  (`ParallelProver.ParallelMatchesSequential`).
- The public input depends on the trace only through its length
  (`ParallelProver.PublicInputsOnlyCount`).

Where the project's documentation and the code differ, the model follows the code:

- The trace commitment is the opcode count (`prover/parallel_prover.rs:69`,
  "TODO: Use Poseidon hash"), not a digest of opcodes and gas. Two traces of
  equal length share their public inputs.
- Nothing validates a trace before proving. An empty trace is proved, with
  count 0 as its public input (`ParallelProver.EmptyTraceProves`). No
  row-budget check exists, and no chunking either.
- The gas gate checks a constant cost of 3, not the opcode's own cost
  (`chips/evm_chip.rs:270-282`).

## Model

| member | source | states |
|---|---|---|
| EvmChip.Byte | src/chips/evm_chip.rs:27-88 | Each opcode's byte decodes back to that opcode |
| EvmChip.FromU8Exact | src/chips/evm_chip.rs:92-126 | `from_u8` is a partial inverse of the byte encoding: a decoded byte re-encodes to itself, and a byte is refused exactly when no opcode has it |
| EvmChip.GasCost | src/chips/evm_chip.rs:129-147 | Every cost is at most 20000, and only STOP is free |
| EvmChip.StackConsumed | src/chips/evm_chip.rs:150-163 | No opcode pops more than 3 items |
| EvmChip.StackProduced | src/chips/evm_chip.rs:166-185 | No opcode pushes more than 2 items |
| EvmChip.TableValues | src/chips/evm_chip.rs:546-561 | The table values the unit tests check: ADD 3, MUL 5, SLOAD 200, SSTORE 20000; stack effects of ADD, PUSH1 and POP |
| EvmChip.ByteGasCost | src/chips/evm_chip.rs:405-408 | A byte's cost is its opcode's cost; an unknown byte costs 3 |
| EvmChip.SaturatingSub | src/chips/evm_chip.rs:405-408 | `saturating_sub` lies between a-b and a, and is 0 or a-b |
| EvmChip.NextGas | src/chips/evm_chip.rs:405-408 | Gas after a step never rises; it drops by the cost when affordable, else it is 0 |
| EvmChip.U64ToField | src/chips/evm_chip.rs:14-22 | The repeated-addition loop yields the field image of the integer, and the integer itself in a wide field (tests at 510-526) |
| EvmChip.Configure | src/chips/evm_chip.rs:239-306 | Adds the pc, gas and stack-depth gates in order, and enables equality on the seven advice columns |
| EvmChip.OpResult | src/chips/evm_chip.rs:359-403 | The result of every opcode is a field element |
| EvmChip.DivIsDivision | src/chips/evm_chip.rs:359-403 | In a prime field, DIV by a nonzero b gives the q with q·b = a |
| EvmChip.DivByZero | src/chips/evm_chip.rs:359-403 | DIV by zero yields zero, because the inverse does not exist |
| EvmChip.SubThenAdd | src/chips/evm_chip.rs:359-403 | SUB is undone by adding b back |
| EvmChip.NotIsNegation | src/chips/evm_chip.rs:359-403 | NOT is the additive inverse |
| EvmChip.EqIsIndicator | src/chips/evm_chip.rs:359-403 | EQ is 1 iff the operands are equal, and 0 iff they differ |
| EvmChip.ResultSymmetries | src/chips/evm_chip.rs:359-403 | ADD and MUL commute; OR and XOR are field addition; AND is multiplication; LT and GT are 0 |
| EvmChip.OtherBytesKeepTop | src/chips/evm_chip.rs:359-403 | Every other byte leaves the top of the stack as the result |
| EvmChip.ExecuteOpcode | src/chips/evm_chip.rs:318-434 | Appends exactly the step's region (opcode, operands, pc and pc+1, gas and gas after, result) and returns the result cell |
| EvmChip.ResultCellWritten | src/chips/evm_chip.rs:410-415 | The result cell of a step holds the opcode's result |
| EvmChip.PcGateHolds | src/chips/evm_chip.rs:259-268 | The pc gate holds on every step laid out, since pc+1 is written next |
| EvmChip.GasGateIff | src/chips/evm_chip.rs:270-282 | In a wide field the gas gate holds iff cost is 3 and gas ≥ 3, or gas < cost and gas is 3 |
| EvmChip.ExecuteSatisfiedIff | src/chips/evm_chip.rs:318-434 | A step's region satisfies all gates iff the gas-gate condition holds |
| EvmChip.StopBreaksGasGate | src/chips/evm_chip.rs:270-282 | A STOP step is always refused |
| EvmChip.MulBreaksGasGate | src/chips/evm_chip.rs:563-579 | A MUL step is accepted iff exactly 3 gas is left; so the ignored test's step is refused |
| EvmChip.CostThreeAccepted | src/chips/evm_chip.rs:270-282 | Every 3-gas opcode with gas ≥ 3 is accepted |
| EvmChip.ChipTestOutcomes | src/chips/evm_chip.rs:529-630 | The chip tests' outcomes: ADD 10+20, 0+0 and 42+58, and SUB 20-8, are accepted; MUL 5·7 is refused |
| EvmChip.CheckStackDepth | src/chips/evm_chip.rs:437-456 | Appends one region with the depth cell and the stack-check selector, and returns that cell |
| EvmChip.StackDepthGateIff | src/chips/evm_chip.rs:284-293 | The depth gate holds iff depth ≡ 0 (mod p), and so only for depth 0 in a wide field |
| AddChip.Configure | src/chips/add_chip.rs:62-102 | Adds the add and mul gates, and enables equality on a, b and c |
| AddChip.AssignRow | src/chips/add_chip.rs:106-124 | Appends a one-row region with a, b and c and the chosen selector, and returns the c cell |
| AddChip.Add | src/chips/add_chip.rs:106-124 | Appends the add region and returns a+b |
| AddChip.AddAssigned | src/chips/add_chip.rs:127-148 | Appends the region; the sum is known only when both inputs are |
| AddChip.Sub | src/chips/add_chip.rs:152-171 | Appends the region and returns a-b under the add selector |
| AddChip.Mul | src/chips/add_chip.rs:174-192 | Appends the mul region and returns a·b |
| AddChip.AddGateIff | src/chips/add_chip.rs:76-83 | The add gate accepts a row iff c ≡ a+b |
| AddChip.MulGateIff | src/chips/add_chip.rs:86-93 | The mul gate accepts a row iff c ≡ a·b |
| AddChip.AddAccepted | src/chips/add_chip.rs:106-124 | Every `add` region is accepted |
| AddChip.MulAccepted | src/chips/add_chip.rs:174-192 | Every `mul` region is accepted |
| AddChip.SubAccepted | src/chips/add_chip.rs:152-171 | Every `sub` region is accepted: b is written negated, so the add gate sees a + (−b) = c |
| AddChip.AddAssignedAcceptedIff | src/chips/add_chip.rs:127-148 | An `add_assigned` region is accepted iff both inputs are known |
| AddChip.AddFiveThree | src/chips/add_chip.rs:235-242 | The chip test: 5+3 = 8 is accepted |
| MainCircuit.New | src/circuits/main_circuit.rs:48-53 | The circuit holds exactly the given steps and commitment |
| MainCircuit.MockAdd | src/circuits/main_circuit.rs:57-81 | The fixture is PUSH1 1, PUSH1 2, ADD at pcs 0, 2 and 4, with gas 1000, 997 and 994, committed to 12345 |
| MainCircuit.Configure | src/circuits/main_circuit.rs:92-110 | Gates are the opcode chip's, then the arithmetic chip's; equality is on the instance column and both chips' columns |
| MainCircuit.Synthesize | src/circuits/main_circuit.rs:112-151 | Lays out the commitment region and ties it to instance row 0, then one `step_i` region per step, in order |
| MainCircuit.NamespacesDistinct | src/circuits/main_circuit.rs:138-148 | Region i+1 runs in namespace `step_i`, and distinct steps get distinct namespaces |
| MainCircuit.AcceptsIff | src/circuits/main_circuit.rs:112-151 | In a wide field, accepted iff instance row 0 is the commitment and every step passes the gas gate on its own |
| MainCircuit.ThirdSlotIgnored | src/circuits/main_circuit.rs:138-148 | Stack slot 2 never reaches the layout |
| MainCircuit.MockAddAccepted | src/circuits/main_circuit.rs:160-169 | `mock_add` is accepted with public input 12345 and refused with 12346 |
| Arithmetic.New | src/circuits/arithmetic.rs:26-38 | The circuit holds a, b and op |
| Arithmetic.Configure | src/circuits/arithmetic.rs:49-54 | Adds the arithmetic chip's gates and columns |
| Arithmetic.Synthesize | src/circuits/arithmetic.rs:56-78 | Lays out exactly one region, for the chosen operation |
| Arithmetic.DispatchOnOp | src/circuits/arithmetic.rs:63-74 | op 1 selects the mul gate with c = a·b; every other op selects add with c = a+b |
| Arithmetic.AlwaysAccepted | src/circuits/arithmetic.rs:56-78 | Every arithmetic circuit is accepted (tests at 86-103) |
| Arithmetic.AddSymmetries | src/circuits/arithmetic.rs:31-33 | a+b equals b+a and a+0 is a in the laid-out c cell, and all three are accepted |
| Storage.MockUpdate | src/circuits/storage.rs:50-57 | The fixture is one update (key 1, 100 → 200) |
| Storage.Configure | src/circuits/storage.rs:68-98 | Adds the storage gate and enables equality on key, old and new |
| Storage.UpdateRegion | src/circuits/storage.rs:105-128 | Each region holds exactly key, old and new at row 0, with the storage selector |
| Storage.Synthesize | src/circuits/storage.rs:100-131 | Lays out one region per update, in order |
| Storage.LayoutReadsBack | src/circuits/storage.rs:105-128 | Region i holds update i, and region names are distinct |
| Storage.AlwaysAccepted | src/circuits/storage.rs:81-90 | The gate `s * 0` accepts every list of updates (test at 140-146) |
| Errors.Display | src/errors.rs:7-67 | Every message starts with its variant's prefix, and `Errors.DisplayRoundTrip` recovers the error from it |
| Errors.DisplayRoundTrip | src/errors.rs:7-67 | Display is invertible: the first ten characters identify the variant and the rest is the carried text, so every error is recovered from its message |
| Errors.PrefixesDistinct | src/errors.rs:7-67 | No other variant's prefix starts a variant's message |
| Errors.FromIo | src/errors.rs:45-46 | An I/O error converts to `IoError`, shown as "IO error: …" |
| Errors.FromJson | src/errors.rs:49-50 | A JSON error converts to `JsonError`, shown as "JSON error: …" |
| Errors.FromBase64 | src/errors.rs:71-75 | A base64 error converts to `Base64Error`, shown as "Base64 error: …" |
| Errors.FromHalo2 | src/errors.rs:77-81 | A Halo2 error converts to `Halo2Error`, shown as "Halo2 error: …" |
| Errors.DisplayCircuitError | src/errors.rs:90-94 | The display test's string, which parses back to the same error |
| Config.Default | src/lib.rs:50-59 | k = 17, parallel, no thread count, no RPC URL |
| Config.NewProver | src/lib.rs:151-153 | The default configuration |
| Config.NewProverWithParams | src/lib.rs:156-162 | The given k and parallel flag, with the rest as the default |
| Config.ConfigTests | src/lib.rs:168-186 | The configuration tests' expectations |
| EvmParser.MockAdd | src/utils/evm_parser.rs:28-37 | Three well-shaped steps ending in ADD, whose top is 1+2 |
| EvmParser.MockMul | src/utils/evm_parser.rs:40-53 | Three well-shaped steps ending in MUL, whose top is 5·3, charging 5 gas a step |
| EvmParser.ParseTraceJson | src/utils/evm_parser.rs:76-78 | Succeeds iff the decoder does, with its trace; a failure becomes a parse error carrying the decoder's text |
| EvmParser.FetchTraceFromNetwork | src/utils/evm_parser.rs:95-108 | Always a network error, naming the hash and the URL |
| EvmParser.ParseDebugTrace | src/utils/evm_parser.rs:115-121 | Always the "not yet implemented" parse error |
| EvmParser.FetchErrorReadsBack | src/utils/evm_parser.rs:95-108 | The stub's error message parses back to the same error |
| ParallelProver.StackSlot | src/prover/parallel_prover.rs:50-57 | A slot is the recorded value in the field, or 0 when the state or the slot is missing |
| ParallelProver.StepGasEager | src/prover/parallel_prover.rs:59-63 | As written, the step builder panics iff 3i > 1000000, whether or not gas was recorded |
| ParallelProver.StepGas | src/prover/parallel_prover.rs:59-63 | Gas is the recorded value, or else 1000000 − 3i |
| ParallelProver.StepAt | src/prover/parallel_prover.rs:45-66 | Step i has the opcode, the three stack slots, the pc (recorded, else i) and the gas, and satisfies the circuit's preconditions |
| ParallelProver.SequentialSteps | src/prover/parallel_prover.rs:124-145 | One step per opcode, with step i built from index i |
| ParallelProver.Collect | src/prover/parallel_prover.rs:45-66 | `collect` puts result i at position i |
| ParallelProver.ParallelStepsAreSequential | src/prover/parallel_prover.rs:45-66 | The parallel builder yields the sequential builder's steps in index order |
| ParallelProver.Commitment | src/prover/parallel_prover.rs:69 | The commitment is the opcode count mod p, which is the count itself in a wide field |
| ParallelProver.PublicInputs | src/prover/parallel_prover.rs:76 | There is exactly one public input, the debug rendering of the count |
| ParallelProver.PublicInputsOnlyCount | src/prover/parallel_prover.rs:69 | Two traces share public inputs iff they have the same length |
| ParallelProver.GasUsed | src/prover/parallel_prover.rs:90-96 | Zero for fewer than two gas values |
| ParallelProver.DropsTelescope | src/prover/parallel_prover.rs:90-96 | The step-to-step gas drops sum to first − last |
| ParallelProver.GasUsedIsTotalOfDrops | src/prover/parallel_prover.rs:90-96 | The reported gas used is what the steps charged in total |
| ParallelProver.Metadata | src/prover/parallel_prover.rs:90-96 | The metadata carries the count, the gas used, the hash and the block |
| ParallelProver.VkHash | src/prover/parallel_prover.rs:99 | The verifying-key hash is "vk_" followed by k in decimal |
| ParallelProver.VkHashInjective | src/prover/parallel_prover.rs:99 | Equal hashes iff equal k |
| ParallelProver.Repeat | src/prover/parallel_prover.rs:86-87 | n copies of the character (the proof string is base64 of 128 zero bytes) |
| ParallelProver.TraceCircuit | src/prover/parallel_prover.rs:71 | The circuit has the built steps and the count commitment, and meets the circuit's preconditions |
| ParallelProver.ParallelMatchesSequential | src/prover/parallel_prover.rs:32-107 | The paths agree unless a thread count is set and the pool fails, which gives `ProofGenerationError` |
| ParallelProver.SequentialOutcome | src/prover/parallel_prover.rs:119-179 | Success iff the prover runs and every step passes the gas gate. Run failure → `Halo2Error`; gate failure → `VerificationError`; success gives the count input, the metadata, `vk_k` and the placeholder proof |
| ParallelProver.CircuitAcceptedIff | src/prover/parallel_prover.rs:78-96 | In a wide field the circuit is accepted iff every step passes the gas gate, so the gas subtraction is reached iff the prover runs and every gate passes |
| ParallelProver.RisingGasStillFailsCleanly | src/prover/parallel_prover.rs:78-96 | A trace whose gas rises gets `Halo2Error` or `VerificationError`, not a panic, when the prover fails to run or a step fails the gate |
| ParallelProver.RisingGasStopRefused | src/prover/parallel_prover.rs:153-169 | A single STOP step with gas 3 then 5 is refused with a verification error |
| ParallelProver.EmptyTraceProves | src/prover/parallel_prover.rs:119-179 | An empty trace is proved with count 0 |
| ParallelProver.ProvesWhenGatesPass | src/prover/parallel_prover.rs:32-107 | When every step passes the gate and the pool and the prover run, both paths yield the full proof record |
| ParallelProver.EagerDefaultPanics | src/prover/parallel_prover.rs:59-63 | The eager default agrees with the lazy one where it does not panic, and panics beyond index 333333 even with recorded gas |
| ParallelProver.EagerDefaultPanicsOnLongTrace | src/prover/parallel_prover.rs:59-63 | A 333335-step trace with all gas recorded panics at step 333334, although the model's `Admissible` accepts it |
| ParallelProver.MockTracesAdmissible | src/utils/evm_parser.rs:28-53 | Both fixtures are free of arithmetic panics |
| ParallelProver.MockAddProves | src/prover/parallel_prover.rs:186-196 | `mock_add` is proved under the default configuration |
| ParallelProver.MockAddOutputs | src/prover/parallel_prover.rs:186-196 | The resulting record: one public input (3), opcode count 3, gas used 6, `vk_17` |
| ParallelProver.MockAddGasGates | src/utils/evm_parser.rs:28-37 | Every `mock_add` step passes the gas gate |
| ParallelProver.MockMulFails | src/utils/evm_parser.rs:40-53 | `mock_mul` is refused with a verification error |
| Lib.GenerateProof | src/lib.rs:100-110 | A decode failure is reported as a parse error carrying the decoder's text |
| Lib.GenerateProofSucceedsIff | src/lib.rs:100-110 | Success iff all hold: decode ok, pool ok (if used), prover ran, every step passes the gas gate |
| Lib.PathDoesNotMatter | src/lib.rs:100-110 | Flipping `parallel` changes nothing when no pool failure is involved |
| Lib.ProveTransaction | src/lib.rs:137-148 | Every call fails with the fetch stub's network error |
| Plonk.Region.Enable | src/chips/evm_chip.rs:330 | Turns on one selector at one row and leaves the cells alone |
| Plonk.Region.AssignAdvice | src/chips/evm_chip.rs:337-356 | Writes one cell and returns it, leaving the selectors alone |
| Plonk.Layouter.AssignRegion | src/circuits/main_circuit.rs:121-131 | Opens a fresh, empty region at the next index |
| Plonk.Layouter.Commit | src/circuits/main_circuit.rs:121-131 | Appends the region's contents and keeps the bindings |
| Plonk.Layouter.ConstrainInstance | src/circuits/main_circuit.rs:119-136 | Records one binding of a cell to an instance row |
| Plonk.ConstraintSystem.EnableEquality | src/chips/evm_chip.rs:248-254 | Adds the column to the equality set |
| Plonk.ConstraintSystem.CreateGate | src/chips/evm_chip.rs:259-293 | Appends the gate |
| Text.DecimalRoundTrip | src/circuits/main_circuit.rs:140 | The decimal rendering used in namespaces and `vk_` parses back to its number |
| Text.DecimalInjective | src/circuits/main_circuit.rs:140 | Distinct numbers render differently |
| Text.HexRoundTrip | src/prover/parallel_prover.rs:101-106 | The hex digits of a field element's debug form parse back to the value |
| Text.FieldDebugInjective | src/prover/parallel_prover.rs:101-106 | Distinct field elements render to distinct public-input strings |
| Field.InvertNonzero | src/chips/evm_chip.rs:359-403 | In a prime field, every nonzero element has the inverse that DIV uses |

## Left out

- Halo2 internals are out of scope: floor planning, the permutation argument,
  the row count `k` (the number of rows is not checked), and the real
  `create_proof`. Gates are evaluated within the region that enables them.
- Concurrency is out of scope. Rayon and tokio are not modelled beyond index
  order. The outcomes of building the thread pool, of `MockProver::run`, and
  the debug text of the failure list are parameters (`ParallelProver.Env`).
- serde_json decoding is out of scope. Its outcome is a parameter of
  `Lib.GenerateProof`.
- base64 encoding is out of scope. The proof string is the constant encoding
  of 128 zero bytes.
- `verify_proof` (`src/lib.rs:122-124`) calls `prover::verifier::verify`. That
  verifier module is not part of this model.
- Rust debug-build panics are preconditions, not modelled failures. Those
  in building and laying out the steps are in `ParallelProver.Admissible`:
  - `pc + 1` overflow at `u64::MAX`;
  - a missing gas entry beyond index 333333 (the default as the corrected
    `unwrap_or_else` computes it; see `ParallelProver.StepAt` below).

  `Admissible` also bounds the opcode count by `u64::MAX`. That is not a
  panic: `len() as u64` and `i as u64` are truncating casts, and a vector's
  length fits a u64 on 64-bit targets anyway. The bound only keeps the pc
  default `i` and the commitment within the model's u64 range, and it
  excludes no trace the source can hold.

  The `first − last` gas underflow comes after the prover has run and
  verified, so it is required (`ParallelProver.NoGasUnderflow`) only of
  traces that reach it. A trace whose gas rises but which fails to run or
  verify gets its error (`ParallelProver.RisingGasStillFailsCleanly`).
- The commitment the project's documentation describes is not modelled,
  because the code does not have it (`src/prover/parallel_prover.rs:69`
  leaves it as "TODO: Use Poseidon hash"). That covers a digest over opcodes and gas, trace validation, chunking,
  and a row budget. The model follows the code: the commitment is the opcode
  count.
- ParallelProver.StepAt: steps are built with the corrected, lazy gas default
  (`ParallelProver.StepGas`), so `ParallelProver.Admissible` admits traces
  longer than 333334 steps whose gas is recorded. As written, the eager
  `unwrap_or` default panics (debug build) at every index beyond 333333 even
  then; that is shown only by `ParallelProver.StepGasEager` and
  `ParallelProver.EagerDefaultPanicsOnLongTrace`, whose long, fully recorded trace
  `Admissible` accepts (see Findings).
- Lib.ProveTransaction: the serialisation step after a successful fetch is
  not modelled, because the fetch stub never succeeds.
- `Value::unknown` is modelled only in `AddChip.AddAssigned`. Elsewhere every
  witness is known, as in the source.
- AddChip.AddAssigned: the mock prover refuses an unknown value already when
  it is assigned, so `run` fails. The model lays the unknown cell out and
  the gate then fails. Either way the region is accepted exactly when both
  inputs are known, but the model reports a gate failure where the source
  reports a synthesis error.
- `main.rs`, the CLI, the benchmarks, the examples and the integration tests
  are not part of this model.
- The field's debug format is taken as "0x" followed by 64 lowercase hex
  digits, the Pallas field's rendering. The rendering lives in the field
  library, outside this repository.
- EvmChip.GasGateIff states the exact condition. A simpler summary would be
  "cost 3 and gas ≥ 3". It misses the case where gas is exactly 3 and the
  cost is higher: the saturating subtraction then gives 0, which equals
  gas − 3.

## Findings

| source | as written | input that shows it | evidently intended | confidence | as-written member | corrected member |
|---|---|---|---|---|---|---|
| src/prover/parallel_prover.rs:59-63 (and 138-142) | `.unwrap_or(1000000 - (i as u64 * 3))` computes the default before the entry is looked at, so the u64 subtraction underflows for i > 333333 | a trace of 333335 steps with every gas value recorded panics (debug build) at step 333334 | the default is computed only for a missing gas value (`unwrap_or_else`) | not executed | ParallelProver.StepGasEager (ParallelProver.EagerDefaultPanicsOnLongTrace) | ParallelProver.StepGas |
