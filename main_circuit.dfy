/**
 * The main circuit: a trace commitment exposed as the single public input,
 * followed by one opcode-chip step per execution step.
 */
module MainCircuit {
  import Field
  import opened Plonk
  import Text
  import EvmChip
  import AddChip

  /** The three top stack slots of a step. */
  type Stack3 = s: seq<int> | |s| == 3 witness [0, 0, 0]

  /** `ExecutionStep`. */
  datatype ExecutionStep = ExecutionStep(opcode: Field.U8, stack: Stack3, pc: Field.U64, gas: Field.U64)

  /** `EvmCircuit { steps, trace_commitment }`. */
  datatype EvmCircuit = EvmCircuit(steps: seq<ExecutionStep>, traceCommitment: int)

  /** `EvmCircuit::new`. */
  function New(steps: seq<ExecutionStep>, traceCommitment: int): (c: EvmCircuit)
    ensures c.steps == steps && c.traceCommitment == traceCommitment
  {
    EvmCircuit(steps, traceCommitment)
  }

  /** `EvmCircuit::mock_add`: PUSH1 1, PUSH1 2, ADD, committed to 12345. */
  function MockAdd(p: Field.Modulus): (c: EvmCircuit)
    ensures |c.steps| == 3
    ensures c.steps[0].opcode == 0x60 && c.steps[1].opcode == 0x60 && c.steps[2].opcode == 0x01
    ensures c.steps[0].pc == 0 && c.steps[1].pc == 2 && c.steps[2].pc == 4
    ensures c.steps[0].gas == 1000 && c.steps[1].gas == 997 && c.steps[2].gas == 994
    ensures Field.Wide(p) ==> c.steps[0].stack[0] == 1 && c.steps[1].stack[0] == 2 && c.steps[2].stack[0] == 3
    ensures Field.Wide(p) ==> c.traceCommitment == 12345
  {
    var f := (v: Field.U64) => Field.FromU64(p, v);
    New([ExecutionStep(0x60, [f(1), 0, 0], 0, 1000),
         ExecutionStep(0x60, [f(2), f(1), 0], 2, 997),
         ExecutionStep(0x01, [f(3), 0, 0], 4, 994)],
        f(12345))
  }

  /** The field values are field elements and no step's pc is u64::MAX (where `pc + 1` overflows). */
  predicate Valid(p: Field.Modulus, c: EvmCircuit) {
    Field.Elem(p, c.traceCommitment) &&
    forall i | 0 <= i < |c.steps| ::
      Field.Elem(p, c.steps[i].stack[0]) && Field.Elem(p, c.steps[i].stack[1]) && c.steps[i].pc < Field.MaxU64
  }

  /** Every gate `configure` creates: the opcode chip's, then the arithmetic chip's. */
  const Gates: seq<Gate> := EvmChip.Gates + AddChip.Gates

  /** `configure`: the instance column with equality, then both chips. */
  method Configure(cs: ConstraintSystem)
    modifies cs
    ensures cs.gates == old(cs.gates) + Gates
    ensures cs.equality == old(cs.equality) + {PublicInput} + EvmChip.EqualityColumns + {A, B, C}
  {
    cs.EnableEquality(PublicInput);
    EvmChip.Configure(cs);
    AddChip.Configure(cs);
  }

  function StepNamespace(i: nat): string {
    "step_" + Text.Decimal(i)
  }

  /** The region holding the commitment, in the opcode column. */
  function PublicInputRegion(commitment: int): RegionData {
    RegionData("", "public_input", map[(Opcode, 0) := Known(commitment)], {})
  }

  /** The region step `i` lays out: only stack slots 0 and 1 reach it. */
  function StepRegion(p: Field.Modulus, i: nat, s: ExecutionStep): RegionData
    requires Field.Elem(p, s.stack[0]) && Field.Elem(p, s.stack[1]) && s.pc < Field.MaxU64
  {
    EvmChip.ExecuteRegion(p, StepNamespace(i), s.opcode, s.stack[0], s.stack[1], s.pc, s.gas)
  }

  /** The regions of the first `n` steps. */
  function StepRegions(p: Field.Modulus, c: EvmCircuit, n: nat): (rs: seq<RegionData>)
    requires Valid(p, c) && n <= |c.steps|
    ensures |rs| == n
  {
    seq(n, i requires 0 <= i < n => StepRegion(p, i, c.steps[i]))
  }

  /** Everything `synthesize` lays out: the public-input region, then one region per step. */
  function Layout(p: Field.Modulus, c: EvmCircuit): (rs: seq<RegionData>)
    requires Valid(p, c)
    ensures |rs| == |c.steps| + 1
  {
    [PublicInputRegion(c.traceCommitment)] + StepRegions(p, c, |c.steps|)
  }

  /**
   * `synthesize`: writes the commitment and ties it to row 0 of the instance
   * column, then runs `execute_opcode` for each step in order.
   */
  method Synthesize(p: Field.Modulus, c: EvmCircuit, layouter: Layouter)
    requires Valid(p, c)
    modifies layouter
    ensures layouter.regions == old(layouter.regions) + Layout(p, c)
    ensures layouter.bindings == old(layouter.bindings) + [InstanceBinding(|old(layouter.regions)|, Opcode, 0, 0)]
  {
    var region := layouter.AssignRegion("", "public_input");
    var cell := region.AssignAdvice(Opcode, 0, Known(c.traceCommitment));
    assert region.Data() == PublicInputRegion(c.traceCommitment);
    layouter.Commit(region);
    layouter.ConstrainInstance(cell, 0);
    for i := 0 to |c.steps|
      invariant layouter.regions == old(layouter.regions) + [PublicInputRegion(c.traceCommitment)] + StepRegions(p, c, i)
      invariant layouter.bindings == old(layouter.bindings) + [InstanceBinding(|old(layouter.regions)|, Opcode, 0, 0)]
    {
      var step := c.steps[i];
      var _ := EvmChip.ExecuteOpcode(p, layouter, StepNamespace(i), step.opcode, step.stack[0], step.stack[1], step.pc, step.gas);
      assert StepRegions(p, c, i + 1) == StepRegions(p, c, i) + [StepRegion(p, i, step)];
    }
  }

  /** What the mock prover accepts for a circuit synthesised into an empty layouter, given the instance column. */
  predicate Accepts(p: Field.Modulus, c: EvmCircuit, instance: seq<int>)
    requires Valid(p, c)
  {
    Satisfied(p, Gates, Layout(p, c), [InstanceBinding(0, Opcode, 0, 0)], instance)
  }

  /** Every step runs in its own namespace, `step_i`. */
  lemma NamespacesDistinct(p: Field.Modulus, c: EvmCircuit)
    requires Valid(p, c)
    ensures forall i | 1 <= i < |Layout(p, c)| :: Layout(p, c)[i].namespace == StepNamespace(i - 1)
    ensures forall i, j | 0 <= i < j < |c.steps| :: StepNamespace(i) != StepNamespace(j)
  {
    forall i, j | 0 <= i < j < |c.steps|
      ensures StepNamespace(i) != StepNamespace(j)
    {
      Text.DecimalInjective(i, j);
      assert StepNamespace(i)[5..] == Text.Decimal(i);
      assert StepNamespace(j)[5..] == Text.Decimal(j);
    }
  }

  /**
   * With a modulus wider than u64, the circuit is accepted exactly when row 0
   * of the instance column is the commitment and every step, taken on its
   * own, passes the gas gate. Nothing links consecutive steps: pc and gas
   * may jump between them.
   */
  lemma AcceptsIff(p: Field.Modulus, c: EvmCircuit, instance: seq<int>)
    requires Field.Wide(p) && Valid(p, c) && Field.Elem(p, InstanceAt(instance, 0))
    ensures Accepts(p, c, instance) <==>
            InstanceAt(instance, 0) == c.traceCommitment &&
            forall i | 0 <= i < |c.steps| :: EvmChip.GasGateCondition(c.steps[i].opcode, c.steps[i].gas)
  {
    var rs := Layout(p, c);
    var b := InstanceBinding(0, Opcode, 0, 0);
    assert Gates == [PcIncrement, GasMetering, StackDepthCheck, AddGate, MulGate];
    assert RegionSatisfies(p, Gates, rs[0]);
    forall i | 0 <= i < |c.steps|
      ensures RegionSatisfies(p, Gates, rs[i + 1]) <==> EvmChip.GasGateCondition(c.steps[i].opcode, c.steps[i].gas)
    {
      var s := c.steps[i];
      assert rs[i + 1] == StepRegion(p, i, s);
      EvmChip.ExecuteSatisfiedIff(p, Gates, StepNamespace(i), s.opcode, s.stack[0], s.stack[1], s.pc, s.gas);
    }
    assert BindingHolds(p, rs, b, instance) <==> InstanceAt(instance, 0) == c.traceCommitment by {
      assert Val(rs[0], Opcode, 0) == c.traceCommitment;
      Field.VanishesIff(p, c.traceCommitment, InstanceAt(instance, 0));
      Field.ModOfElem(p, c.traceCommitment);
    }
    if InstanceAt(instance, 0) == c.traceCommitment &&
       forall i | 0 <= i < |c.steps| :: EvmChip.GasGateCondition(c.steps[i].opcode, c.steps[i].gas) {
      forall k | 0 <= k < |rs|
        ensures RegionSatisfies(p, Gates, rs[k])
      {
        if k > 0 {
          assert RegionSatisfies(p, Gates, rs[(k - 1) + 1]);
        }
      }
    }
  }

  /** Stack slot 2 of a step never reaches the layout: circuits differing only there lay out the same regions. */
  lemma ThirdSlotIgnored(p: Field.Modulus, c: EvmCircuit, d: EvmCircuit)
    requires Valid(p, c) && Valid(p, d)
    requires c.traceCommitment == d.traceCommitment && |c.steps| == |d.steps|
    requires forall i | 0 <= i < |c.steps| ::
               c.steps[i].opcode == d.steps[i].opcode && c.steps[i].pc == d.steps[i].pc &&
               c.steps[i].gas == d.steps[i].gas &&
               c.steps[i].stack[0] == d.steps[i].stack[0] && c.steps[i].stack[1] == d.steps[i].stack[1]
    ensures Layout(p, c) == Layout(p, d)
  {
    assert StepRegions(p, c, |c.steps|) == StepRegions(p, d, |d.steps|);
  }

  /** The circuit's own test: `mock_add` is accepted with its commitment as the public input (pcs 0, 2, 4 included). */
  lemma MockAddAccepted(p: Field.Modulus)
    requires Field.Wide(p)
    ensures Valid(p, MockAdd(p))
    ensures Accepts(p, MockAdd(p), [12345])
    ensures !Accepts(p, MockAdd(p), [12346])
  {
    var c := MockAdd(p);
    assert Valid(p, c);
    assert EvmChip.ByteGasCost(0x60) == 3 && EvmChip.ByteGasCost(0x01) == 3;
    assert forall i | 0 <= i < |c.steps| :: EvmChip.GasGateCondition(c.steps[i].opcode, c.steps[i].gas);
    AcceptsIff(p, c, [12345]);
    AcceptsIff(p, c, [12346]);
  }
}
