/**
 * The arithmetic circuit: two operands and an operation code, laid out as a
 * single row of the arithmetic chip.
 */
module Arithmetic {
  import Field
  import opened Plonk
  import AddChip

  /** `ArithmeticCircuit { a, b, op }`: op 0 adds, 1 multiplies, anything else adds. */
  datatype ArithmeticCircuit = ArithmeticCircuit(a: int, b: int, op: Field.U8)

  /** `ArithmeticCircuit::new`. */
  function New(a: int, b: int, op: Field.U8): (c: ArithmeticCircuit)
    ensures c.a == a && c.b == b && c.op == op
  {
    ArithmeticCircuit(a, b, op)
  }

  /** `ArithmeticCircuit::add`: the circuit with op 0. */
  function Add(a: int, b: int): (c: ArithmeticCircuit)
    ensures c == New(a, b, 0)
  {
    ArithmeticCircuit(a, b, 0)
  }

  /** `ArithmeticCircuit::mul`: the circuit with op 1. */
  function Mul(a: int, b: int): (c: ArithmeticCircuit)
    ensures c == New(a, b, 1)
  {
    ArithmeticCircuit(a, b, 1)
  }

  /** The region `synthesize` lays out for a circuit. */
  function Layout(p: Field.Modulus, c: ArithmeticCircuit): RegionData {
    match c.op
    case 0 => AddChip.AddRegion(p, "add", c.a, c.b)
    case 1 => AddChip.MulRegion(p, "mul", c.a, c.b)
    case _ => AddChip.AddRegion(p, "add_default", c.a, c.b)
  }

  /** `configure`: the arithmetic chip's configuration. */
  method Configure(cs: ConstraintSystem)
    modifies cs
    ensures cs.gates == old(cs.gates) + AddChip.Gates
    ensures cs.equality == old(cs.equality) + {A, B, C}
  {
    AddChip.Configure(cs);
  }

  /** `synthesize`: dispatches on `op` to one call of the chip. */
  method Synthesize(p: Field.Modulus, c: ArithmeticCircuit, layouter: Layouter)
    modifies layouter
    ensures layouter.regions == old(layouter.regions) + [Layout(p, c)]
    ensures layouter.bindings == old(layouter.bindings)
  {
    match c.op {
      case 0 =>
        var _ := AddChip.Add(p, layouter, "add", c.a, c.b);
      case 1 =>
        var _ := AddChip.Mul(p, layouter, "mul", c.a, c.b);
      case _ =>
        var _ := AddChip.Add(p, layouter, "add_default", c.a, c.b);
    }
  }

  /** What the mock prover accepts for the circuit: its one region, no public inputs. */
  predicate Accepts(p: Field.Modulus, c: ArithmeticCircuit) {
    Satisfied(p, AddChip.Gates, [Layout(p, c)], [], [])
  }

  /** The multiplication row is laid out exactly when op is 1; every other op, unsupported ones included, lays out the sum. */
  lemma DispatchOnOp(p: Field.Modulus, c: ArithmeticCircuit)
    ensures (SMul, 0) in Layout(p, c).enabled <==> c.op == 1
    ensures (SAdd, 0) in Layout(p, c).enabled <==> c.op != 1
    ensures c.op == 1 ==> Layout(p, c).cells[(C, 0)] == Known(Field.Mul(p, c.a, c.b))
    ensures c.op != 1 ==> Layout(p, c).cells[(C, 0)] == Known(Field.Add(p, c.a, c.b))
  {
  }

  /** Whatever the operands and the op code, the laid-out row meets its gate. */
  lemma AlwaysAccepted(p: Field.Modulus, c: ArithmeticCircuit)
    ensures Accepts(p, c)
  {
    match c.op
    case 0 => AddChip.AddAccepted(p, "add", c.a, c.b);
    case 1 => AddChip.MulAccepted(p, "mul", c.a, c.b);
    case _ => AddChip.AddAccepted(p, "add_default", c.a, c.b);
  }

  /** Addition gives the same output in either argument order, and adding a zero operand outputs the other operand. */
  lemma AddSymmetries(p: Field.Modulus, a: int, b: int)
    requires Field.Elem(p, a)
    ensures Layout(p, Add(a, b)).cells[(C, 0)] == Layout(p, Add(b, a)).cells[(C, 0)]
    ensures Layout(p, Add(a, 0)).cells[(C, 0)] == Known(a)
    ensures Accepts(p, Add(a, b)) && Accepts(p, Add(b, a)) && Accepts(p, Add(a, 0))
  {
    Field.ModOfElem(p, a);
    AlwaysAccepted(p, Add(a, b));
    AlwaysAccepted(p, Add(b, a));
    AlwaysAccepted(p, Add(a, 0));
  }
}
