/**
 * The opcode chip: the opcode table (byte, gas cost, stack effect), the
 * counting conversion of a u64 into the field, the three gates its
 * `configure` creates, and the two-row region `execute_opcode` writes for one
 * step, together with the facts about when that region meets the gates.
 */
module EvmChip {
  import opened Wrappers
  import Field
  import opened Plonk

  // ---------------------------------------------------------------------------
  // The opcode table

  /** The supported opcodes; `Byte` gives each one's discriminant. */
  datatype OpCode =
    | Stop | Add | Mul | Sub | Div | Mod | AddMod | MulMod
    | Lt | Gt | Eq | And | Or | Xor | Not
    | Pop | MLoad | MStore | SLoad | SStore | Jump | JumpI
    | Push1 | Push2 | Push4 | Push32 | Dup1 | Dup2 | Swap1 | Swap2

  /** `op as u8`: the byte of each opcode; `from_u8` reads it back. */
  function Byte(op: OpCode): (b: Field.U8)
    ensures FromU8(b) == Some(op)
  {
    match op
    case Stop => 0x00
    case Add => 0x01
    case Mul => 0x02
    case Sub => 0x03
    case Div => 0x04
    case Mod => 0x06
    case AddMod => 0x08
    case MulMod => 0x09
    case Lt => 0x10
    case Gt => 0x11
    case Eq => 0x14
    case And => 0x16
    case Or => 0x17
    case Xor => 0x18
    case Not => 0x19
    case Pop => 0x50
    case MLoad => 0x51
    case MStore => 0x52
    case SLoad => 0x54
    case SStore => 0x55
    case Jump => 0x56
    case JumpI => 0x57
    case Push1 => 0x60
    case Push2 => 0x61
    case Push4 => 0x63
    case Push32 => 0x7f
    case Dup1 => 0x80
    case Dup2 => 0x81
    case Swap1 => 0x90
    case Swap2 => 0x91
  }

  /** `OpCode::from_u8`. */
  function FromU8(b: Field.U8): Option<OpCode> {
    match b
    case 0x00 => Some(Stop)
    case 0x01 => Some(Add)
    case 0x02 => Some(Mul)
    case 0x03 => Some(Sub)
    case 0x04 => Some(Div)
    case 0x06 => Some(Mod)
    case 0x08 => Some(AddMod)
    case 0x09 => Some(MulMod)
    case 0x10 => Some(Lt)
    case 0x11 => Some(Gt)
    case 0x14 => Some(Eq)
    case 0x16 => Some(And)
    case 0x17 => Some(Or)
    case 0x18 => Some(Xor)
    case 0x19 => Some(Not)
    case 0x50 => Some(Pop)
    case 0x51 => Some(MLoad)
    case 0x52 => Some(MStore)
    case 0x54 => Some(SLoad)
    case 0x55 => Some(SStore)
    case 0x56 => Some(Jump)
    case 0x57 => Some(JumpI)
    case 0x60 => Some(Push1)
    case 0x61 => Some(Push2)
    case 0x63 => Some(Push4)
    case 0x7f => Some(Push32)
    case 0x80 => Some(Dup1)
    case 0x81 => Some(Dup2)
    case 0x90 => Some(Swap1)
    case 0x91 => Some(Swap2)
    case _ => None
  }

  /** `from_u8` decodes exactly the discriminants: a decoded byte is its opcode's, and None means no opcode has it. */
  lemma FromU8Exact(b: Field.U8)
    ensures FromU8(b).Some? ==> Byte(FromU8(b).value) == b
    ensures FromU8(b).None? <==> forall op: OpCode :: Byte(op) != b
  {
    if FromU8(b).None? {
      forall op: OpCode ensures Byte(op) != b {
        assert FromU8(Byte(op)) == Some(op);
      }
    }
  }

  /** `gas_cost`: the opcode's static fee. */
  function GasCost(op: OpCode): (c: nat)
    ensures c <= 20000
    ensures c == 0 <==> op == Stop
  {
    match op
    case Stop => 0
    case Add | Sub | Not | Lt | Gt | Eq => 3
    case Mul | Div | Mod => 5
    case AddMod | MulMod => 8
    case And | Or | Xor => 3
    case Pop => 2
    case Push1 | Push2 | Push4 | Push32 => 3
    case Dup1 | Dup2 => 3
    case Swap1 | Swap2 => 3
    case MLoad => 3
    case MStore => 3
    case SLoad => 200
    case SStore => 20000
    case Jump => 8
    case JumpI => 10
  }

  /** `stack_consumed`. */
  function StackConsumed(op: OpCode): (n: nat)
    ensures n <= 3
  {
    match op
    case Stop => 0
    case Push1 | Push2 | Push4 | Push32 => 0
    case Pop => 1
    case Not | MLoad | SLoad | Jump => 1
    case Add | Sub | Mul | Div | Mod => 2
    case Lt | Gt | Eq | And | Or | Xor => 2
    case MStore | SStore | JumpI => 2
    case AddMod | MulMod => 3
    case Dup1 | Dup2 => 1
    case Swap1 | Swap2 => 2
  }

  /** `stack_produced`. */
  function StackProduced(op: OpCode): (n: nat)
    ensures n <= 2
  {
    match op
    case Stop | Pop | MStore | SStore | Jump => 0
    case JumpI => 0
    case Add | Sub | Mul | Div | Mod => 1
    case AddMod | MulMod => 1
    case Lt | Gt | Eq | And | Or | Xor | Not => 1
    case Push1 | Push2 | Push4 | Push32 => 1
    case MLoad | SLoad => 1
    case Dup1 => 2
    case Dup2 => 2
    case Swap1 | Swap2 => 2
  }

  /** The table values the chip's unit tests check. */
  lemma TableValues()
    ensures GasCost(Add) == 3 && GasCost(Mul) == 5 && GasCost(SLoad) == 200 && GasCost(SStore) == 20000
    ensures StackConsumed(Add) == 2 && StackProduced(Add) == 1
    ensures StackConsumed(Push1) == 0 && StackProduced(Push1) == 1
    ensures StackConsumed(Pop) == 1 && StackProduced(Pop) == 0
  {
  }

  /** The cost `execute_opcode` charges for a byte: the table cost, or 3 for a byte that is no opcode. */
  function ByteGasCost(b: Field.U8): (c: nat)
    ensures c <= 20000
    ensures FromU8(b).None? ==> c == 3
    ensures FromU8(b).Some? ==> c == GasCost(FromU8(b).value)
  {
    match FromU8(b)
    case Some(op) => GasCost(op)
    case None => 3
  }

  /** `u64::saturating_sub`: the difference, clamped at zero. */
  function SaturatingSub(a: Field.U64, b: int): (r: Field.U64)
    requires b >= 0
    ensures r <= a && r >= a - b
    ensures r == 0 || r == a - b
  {
    if a >= b then a - b else 0
  }

  // ---------------------------------------------------------------------------
  // u64_to_field

  /** `u64_to_field`: adds ONE to ZERO `val` times. */
  method U64ToField(p: Field.Modulus, val: Field.U64) returns (r: int)
    ensures r == Field.FromU64(p, val)
    ensures Field.Wide(p) ==> r == val
  {
    r := 0;
    var remaining := val;
    while remaining > 0
      invariant 0 <= remaining <= val
      invariant r == (val - remaining) % p
      decreases remaining
    {
      Field.ModDiff(p, val - remaining, 0, 1);
      r := Field.Add(p, r, 1);
      remaining := remaining - 1;
    }
  }

  // ---------------------------------------------------------------------------
  // configure

  /** The gates `configure` creates, in creation order. */
  const Gates: seq<Gate> := [PcIncrement, GasMetering, StackDepthCheck]

  /** The seven advice columns `configure` enables equality on. */
  const EqualityColumns: set<Column> := {Opcode, Stack0, Stack1, Stack2, Pc, Gas, StackDepth}

  /** `EvmChip::configure`. */
  method Configure(cs: ConstraintSystem)
    modifies cs
    ensures cs.gates == old(cs.gates) + Gates
    ensures cs.equality == old(cs.equality) + EqualityColumns
  {
    cs.EnableEquality(Opcode);
    cs.EnableEquality(Stack0);
    cs.EnableEquality(Stack1);
    cs.EnableEquality(Stack2);
    cs.EnableEquality(Pc);
    cs.EnableEquality(Gas);
    cs.EnableEquality(StackDepth);
    cs.CreateGate(PcIncrement);
    cs.CreateGate(GasMetering);
    cs.CreateGate(StackDepthCheck);
  }

  // ---------------------------------------------------------------------------
  // execute_opcode

  /** The value `execute_opcode` computes from the two stack operands for a byte. */
  function OpResult(p: Field.Modulus, b: Field.U8, top: int, s1: int): (r: int)
    requires Field.Elem(p, top) && Field.Elem(p, s1)
    ensures Field.Elem(p, r)
  {
    match FromU8(b)
    case Some(Add) => Field.Add(p, top, s1)
    case Some(Mul) => Field.Mul(p, top, s1)
    case Some(Sub) => Field.Sub(p, top, s1)
    case Some(Div) => if s1 == 0 then 0 else Field.Mul(p, top, Field.Invert(p, s1).GetOr(0))
    case Some(And) => Field.Mul(p, top, s1)
    case Some(Or) => Field.Add(p, top, s1)
    case Some(Xor) => Field.Add(p, top, s1)
    case Some(Lt) => 0
    case Some(Gt) => 0
    case Some(Eq) => if top == s1 then 1 else 0
    case Some(Not) => Field.Neg(p, top)
    case _ => top
  }

  /** DIV divides: in a prime field the quotient times a nonzero divisor is the dividend. */
  lemma DivIsDivision(p: Field.Modulus, a: int, b: int)
    requires Field.IsPrime(p) && Field.Elem(p, a) && Field.Elem(p, b) && b != 0
    ensures Field.Mul(p, OpResult(p, Byte(Div), a, b), b) == a
  {
    Field.InvertNonzero(p, b);
    var inv := Field.Invert(p, b).value;
    assert Field.Mul(p, inv, b) == 1 by {
      assert (b * inv) == (inv * b);
    }
    Field.MulInverseCancels(p, a, inv, b);
  }

  /** DIV by zero yields zero, in every field. */
  lemma DivByZero(p: Field.Modulus, a: int)
    requires Field.Elem(p, a)
    ensures OpResult(p, Byte(Div), a, 0) == 0
  {
  }

  /** SUB undoes ADD: adding the subtrahend back recovers the minuend. */
  lemma SubThenAdd(p: Field.Modulus, a: int, b: int)
    requires Field.Elem(p, a) && Field.Elem(p, b)
    ensures Field.Add(p, OpResult(p, Byte(Sub), a, b), b) == a
  {
    Field.ModDiff(p, a - b, 0, b);
    Field.ModOfElem(p, a);
  }

  /** NOT is the additive inverse: `a + NOT a == 0`. */
  lemma NotIsNegation(p: Field.Modulus, a: int, b: int)
    requires Field.Elem(p, a) && Field.Elem(p, b)
    ensures Field.Add(p, a, OpResult(p, Byte(Not), a, b)) == 0
  {
    if a != 0 {
      Field.ModUnique(-a, p, -1, p - a);
      Field.ModUnique(p, p, 1, 0);
    }
  }

  /** EQ is an indicator: 1 exactly when the operands are equal, otherwise 0. */
  lemma EqIsIndicator(p: Field.Modulus, a: int, b: int)
    requires Field.Elem(p, a) && Field.Elem(p, b)
    ensures OpResult(p, Byte(Eq), a, b) == 1 <==> a == b
    ensures OpResult(p, Byte(Eq), a, b) == 0 <==> a != b
  {
  }

  /** ADD/MUL (and their stand-ins OR/XOR/AND) commute; LT and GT are constantly 0. */
  lemma ResultSymmetries(p: Field.Modulus, a: int, b: int)
    requires Field.Elem(p, a) && Field.Elem(p, b)
    ensures OpResult(p, Byte(Add), a, b) == OpResult(p, Byte(Add), b, a)
    ensures OpResult(p, Byte(Mul), a, b) == OpResult(p, Byte(Mul), b, a)
    ensures OpResult(p, Byte(Or), a, b) == OpResult(p, Byte(Add), a, b) == OpResult(p, Byte(Xor), a, b)
    ensures OpResult(p, Byte(And), a, b) == OpResult(p, Byte(Mul), a, b)
    ensures OpResult(p, Byte(Lt), a, b) == 0 && OpResult(p, Byte(Gt), a, b) == 0
  {
    assert a * b == b * a;
  }

  /** Every byte outside the eleven computed opcodes, unknown bytes included, passes the stack top through. */
  lemma OtherBytesKeepTop(p: Field.Modulus, b: Field.U8, a: int, s1: int)
    requires Field.Elem(p, a) && Field.Elem(p, s1)
    requires FromU8(b).None? || FromU8(b).value !in {Add, Mul, Sub, Div, And, Or, Xor, Lt, Gt, Eq, Not}
    ensures OpResult(p, b, a, s1) == a
  {
  }

  /** The gas written to the next row: the current gas less the byte's cost, clamped at zero. */
  function NextGas(b: Field.U8, gas: Field.U64): (g: Field.U64)
    ensures g <= gas
    ensures gas >= ByteGasCost(b) ==> g + ByteGasCost(b) == gas
    ensures gas < ByteGasCost(b) ==> g == 0
  {
    SaturatingSub(gas, ByteGasCost(b))
  }

  /** The region `execute_opcode` lays out: the step at row 0, the next pc and gas at row 1. */
  function ExecuteRegion(p: Field.Modulus, ns: string, b: Field.U8, top: int, s1: int,
                         pc: Field.U64, gas: Field.U64): RegionData
    requires Field.Elem(p, top) && Field.Elem(p, s1) && pc < Field.MaxU64
  {
    var result := Known(OpResult(p, b, top, s1));
    RegionData(ns, "execute_opcode",
      map[][(Opcode, 0) := Known(Field.FromU64(p, b))]
           [(Stack0, 0) := Known(top)]
           [(Stack1, 0) := Known(s1)]
           [(Pc, 0) := Known(Field.FromU64(p, pc))]
           [(Gas, 0) := Known(Field.FromU64(p, gas))]
           [(Stack2, 0) := result]
           [(Pc, 1) := Known(Field.FromU64(p, pc + 1))]
           [(Gas, 1) := Known(Field.FromU64(p, NextGas(b, gas)))]
           [(Stack2, 0) := result],
      {(SOpcode, 0)})
  }

  /**
   * `execute_opcode`: opens a region in namespace `ns`, enables the opcode
   * selector on row 0, writes the step, and returns the result cell. `pc + 1`
   * must not overflow.
   */
  method ExecuteOpcode(p: Field.Modulus, layouter: Layouter, ns: string, b: Field.U8,
                       top: int, s1: int, pc: Field.U64, gas: Field.U64) returns (cell: AssignedCell)
    requires Field.Elem(p, top) && Field.Elem(p, s1) && pc < Field.MaxU64
    modifies layouter
    ensures layouter.regions == old(layouter.regions) + [ExecuteRegion(p, ns, b, top, s1, pc, gas)]
    ensures layouter.bindings == old(layouter.bindings)
    ensures cell == AssignedCell(Known(OpResult(p, b, top, s1)), |old(layouter.regions)|, Stack2, 0)
  {
    var region := layouter.AssignRegion(ns, "execute_opcode");
    region.Enable(SOpcode, 0);
    var opcodeField := U64ToField(p, b);
    var pcField := U64ToField(p, pc);
    var gasField := U64ToField(p, gas);
    var _ := region.AssignAdvice(Opcode, 0, Known(opcodeField));
    var _ := region.AssignAdvice(Stack0, 0, Known(top));
    var _ := region.AssignAdvice(Stack1, 0, Known(s1));
    var _ := region.AssignAdvice(Pc, 0, Known(pcField));
    var _ := region.AssignAdvice(Gas, 0, Known(gasField));
    var result := OpResult(p, b, top, s1);
    var gasCost := ByteGasCost(b);
    var pcNextField := U64ToField(p, pc + 1);
    var gasNextField := U64ToField(p, SaturatingSub(gas, gasCost));
    var _ := region.AssignAdvice(Stack2, 0, Known(result));
    var _ := region.AssignAdvice(Pc, 1, Known(pcNextField));
    var _ := region.AssignAdvice(Gas, 1, Known(gasNextField));
    cell := region.AssignAdvice(Stack2, 0, Known(result));
    assert region.Data() == ExecuteRegion(p, ns, b, top, s1, pc, gas);
    layouter.Commit(region);
  }

  /** The returned cell holds the computed result, and so does the stack_2 cell of the region. */
  lemma ResultCellWritten(p: Field.Modulus, ns: string, b: Field.U8, top: int, s1: int,
                          pc: Field.U64, gas: Field.U64)
    requires Field.Elem(p, top) && Field.Elem(p, s1) && pc < Field.MaxU64
    ensures Has(ExecuteRegion(p, ns, b, top, s1, pc, gas), Stack2, 0)
    ensures Val(ExecuteRegion(p, ns, b, top, s1, pc, gas), Stack2, 0) == OpResult(p, b, top, s1)
  {
  }

  /** The pc gate holds on every step `execute_opcode` writes, whatever the opcode. */
  lemma PcGateHolds(p: Field.Modulus, ns: string, b: Field.U8, top: int, s1: int,
                    pc: Field.U64, gas: Field.U64)
    requires Field.Elem(p, top) && Field.Elem(p, s1) && pc < Field.MaxU64
    ensures GateZeroAt(p, PcIncrement, ExecuteRegion(p, ns, b, top, s1, pc, gas), 0)
  {
    var r := ExecuteRegion(p, ns, b, top, s1, pc, gas);
    var next, cur := Field.FromU64(p, pc + 1), Field.FromU64(p, pc);
    assert r.cells[(Pc, 1)] == Known(next);
    assert r.cells[(Pc, 0)] == Known(cur);
    assert (next - cur - 1) % p == 0 by {
      Field.ModDiff(p, pc + 1, pc, -1);
      assert (pc + 1) - pc + -1 == 0;
      Field.ModOfMultiple(p, 0);
    }
  }

  /**
   * When the gas gate (`gas_next = gas - 3`) holds: either the byte costs
   * exactly 3 and the gas covers it, or the gas is exactly 3 and the cost
   * exceeds it, so that saturation also lands on 0.
   */
  predicate GasGateCondition(b: Field.U8, gas: Field.U64) {
    (gas >= ByteGasCost(b) && ByteGasCost(b) == 3) || (gas < ByteGasCost(b) && gas == 3)
  }

  /** With a modulus wider than u64, the gas gate holds on a written step exactly under `GasGateCondition`. */
  lemma GasGateIff(p: Field.Modulus, ns: string, b: Field.U8, top: int, s1: int,
                   pc: Field.U64, gas: Field.U64)
    requires Field.Wide(p) && Field.Elem(p, top) && Field.Elem(p, s1) && pc < Field.MaxU64
    ensures GateZeroAt(p, GasMetering, ExecuteRegion(p, ns, b, top, s1, pc, gas), 0)
            <==> GasGateCondition(b, gas)
  {
    var r := ExecuteRegion(p, ns, b, top, s1, pc, gas);
    var next := NextGas(b, gas);
    assert Val(r, Gas, 1) == next && Val(r, Gas, 0) == gas;
    Field.SmallModZero(p, next - gas + 3);
  }

  /**
   * A written step meets every gate of `gates` (any gate set holding the gas
   * gate, such as the chip's own or a composed circuit's) exactly under
   * `GasGateCondition`: only the opcode selector is on, and the pc gate it
   * also switches on always holds.
   */
  lemma ExecuteSatisfiedIff(p: Field.Modulus, gates: seq<Gate>, ns: string, b: Field.U8, top: int, s1: int,
                            pc: Field.U64, gas: Field.U64)
    requires Field.Wide(p) && Field.Elem(p, top) && Field.Elem(p, s1) && pc < Field.MaxU64 && GasMetering in gates
    ensures RegionSatisfies(p, gates, ExecuteRegion(p, ns, b, top, s1, pc, gas)) <==> GasGateCondition(b, gas)
  {
    var r := ExecuteRegion(p, ns, b, top, s1, pc, gas);
    PcGateHolds(p, ns, b, top, s1, pc, gas);
    GasGateIff(p, ns, b, top, s1, pc, gas);
    if GasGateCondition(b, gas) {
      forall en, g | en in r.enabled && g in gates && GateSelector(g) == en.0
        ensures GateZeroAt(p, g, r, en.1)
      {
        assert en == (SOpcode, 0);
      }
    } else {
      assert (SOpcode, 0) in r.enabled;
    }
  }

  /** STOP costs 0, so no step running it meets the gas gate. */
  lemma StopBreaksGasGate(p: Field.Modulus, ns: string, top: int, s1: int, pc: Field.U64, gas: Field.U64)
    requires Field.Wide(p) && Field.Elem(p, top) && Field.Elem(p, s1) && pc < Field.MaxU64
    ensures !RegionSatisfies(p, Gates, ExecuteRegion(p, ns, Byte(Stop), top, s1, pc, gas))
  {
    ExecuteSatisfiedIff(p, Gates, ns, Byte(Stop), top, s1, pc, gas);
  }

  /**
   * MUL costs 5, so a step running it breaks the gas gate (the ignored MUL
   * test) unless exactly 3 gas is left: then the saturating subtraction gives
   * 0, which is also 3 less than the gas.
   */
  lemma MulBreaksGasGate(p: Field.Modulus, ns: string, top: int, s1: int, pc: Field.U64, gas: Field.U64)
    requires Field.Wide(p) && Field.Elem(p, top) && Field.Elem(p, s1) && pc < Field.MaxU64
    ensures RegionSatisfies(p, Gates, ExecuteRegion(p, ns, Byte(Mul), top, s1, pc, gas)) <==> gas == 3
  {
    ExecuteSatisfiedIff(p, Gates, ns, Byte(Mul), top, s1, pc, gas);
  }

  /** Every opcode costing 3 (ADD, SUB, PUSH1, ...) is accepted whenever the gas covers it. */
  lemma CostThreeAccepted(p: Field.Modulus, ns: string, op: OpCode, top: int, s1: int,
                          pc: Field.U64, gas: Field.U64)
    requires Field.Wide(p) && Field.Elem(p, top) && Field.Elem(p, s1) && pc < Field.MaxU64
    requires GasCost(op) == 3 && gas >= 3
    ensures RegionSatisfies(p, Gates, ExecuteRegion(p, ns, Byte(op), top, s1, pc, gas))
  {
    ExecuteSatisfiedIff(p, Gates, ns, Byte(op), top, s1, pc, gas);
  }

  /**
   * The chip's own circuit tests, all at pc 0 with 21000 gas: ADD 10 + 20,
   * ADD 0 + 0, ADD 42 + 58 and SUB 20 - 8 are accepted; the ignored MUL 5 * 7
   * test is not.
   */
  lemma ChipTestOutcomes(p: Field.Modulus)
    requires Field.Wide(p)
    ensures RegionSatisfies(p, Gates, ExecuteRegion(p, "execute", Byte(Add), 10, 20, 0, 21000))
    ensures RegionSatisfies(p, Gates, ExecuteRegion(p, "execute", Byte(Add), 0, 0, 0, 21000))
    ensures RegionSatisfies(p, Gates, ExecuteRegion(p, "execute", Byte(Add), 42, 58, 0, 21000))
    ensures RegionSatisfies(p, Gates, ExecuteRegion(p, "execute", Byte(Sub), 20, 8, 0, 21000))
    ensures !RegionSatisfies(p, Gates, ExecuteRegion(p, "execute", Byte(Mul), 5, 7, 0, 21000))
  {
    CostThreeAccepted(p, "execute", Add, 10, 20, 0, 21000);
    CostThreeAccepted(p, "execute", Add, 0, 0, 0, 21000);
    CostThreeAccepted(p, "execute", Add, 42, 58, 0, 21000);
    CostThreeAccepted(p, "execute", Sub, 20, 8, 0, 21000);
    MulBreaksGasGate(p, "execute", 5, 7, 0, 21000);
  }

  // ---------------------------------------------------------------------------
  // check_stack_depth

  /** The one-row region `check_stack_depth` lays out. */
  function StackDepthRegion(p: Field.Modulus, ns: string, depth: Field.U64): RegionData {
    RegionData(ns, "check_stack_depth",
      map[(StackDepth, 0) := Known(Field.FromU64(p, depth))],
      {(SStackCheck, 0)})
  }

  /** `check_stack_depth`: enables the depth selector on row 0 and writes the depth. */
  method CheckStackDepth(p: Field.Modulus, layouter: Layouter, ns: string, depth: Field.U64)
    returns (cell: AssignedCell)
    modifies layouter
    ensures layouter.regions == old(layouter.regions) + [StackDepthRegion(p, ns, depth)]
    ensures layouter.bindings == old(layouter.bindings)
    ensures cell == AssignedCell(Known(Field.FromU64(p, depth)), |old(layouter.regions)|, StackDepth, 0)
  {
    var region := layouter.AssignRegion(ns, "check_stack_depth");
    region.Enable(SStackCheck, 0);
    var depthField := U64ToField(p, depth);
    cell := region.AssignAdvice(StackDepth, 0, Known(depthField));
    assert region.Data() == StackDepthRegion(p, ns, depth);
    layouter.Commit(region);
  }

  /** The depth gate `s * depth` accepts exactly the depths that vanish in the field: only 0 when p is wider than u64. */
  lemma StackDepthGateIff(p: Field.Modulus, ns: string, depth: Field.U64)
    ensures RegionSatisfies(p, Gates, StackDepthRegion(p, ns, depth)) <==> depth % p == 0
    ensures Field.Wide(p) ==> (RegionSatisfies(p, Gates, StackDepthRegion(p, ns, depth)) <==> depth == 0)
  {
    var r := StackDepthRegion(p, ns, depth);
    Field.ModOfElem(p, depth % p);
    assert GateZeroAt(p, StackDepthCheck, r, 0) <==> depth % p == 0;
    assert (SStackCheck, 0) in r.enabled && StackDepthCheck in Gates;
    if Field.Wide(p) {
      Field.SmallModZero(p, depth);
    }
  }
}
