/**
 * The arithmetic chip: one-row regions holding `a`, `b` and `c` under an
 * addition gate (`a + b - c`) or a multiplication gate (`a * b - c`).
 * Subtraction reuses the addition gate with `-b` written in column b.
 */
module AddChip {
  import Field
  import opened Plonk

  /** The gates `configure` creates, in creation order. */
  const Gates: seq<Gate> := [AddGate, MulGate]

  /** `AddChip::configure`: equality on the three columns, then the two gates. */
  method Configure(cs: ConstraintSystem)
    modifies cs
    ensures cs.gates == old(cs.gates) + Gates
    ensures cs.equality == old(cs.equality) + {A, B, C}
  {
    cs.EnableEquality(A);
    cs.EnableEquality(B);
    cs.EnableEquality(C);
    cs.CreateGate(AddGate);
    cs.CreateGate(MulGate);
  }

  /** The shape every operation of the chip lays out: one selector on row 0 and the cells a, b, c of row 0, nothing else. */
  function RowRegion(ns: string, name: string, s: Selector, a: Value, b: Value, c: Value): (r: RegionData)
    ensures r.cells.Keys == {(A, 0), (B, 0), (C, 0)} && r.enabled == {(s, 0)}
    ensures r.cells[(A, 0)] == a && r.cells[(B, 0)] == b && r.cells[(C, 0)] == c
  {
    RegionData(ns, name, map[(A, 0) := a, (B, 0) := b, (C, 0) := c], {(s, 0)})
  }

  function AddRegion(p: Field.Modulus, ns: string, a: int, b: int): RegionData {
    RowRegion(ns, "add", SAdd, Known(a), Known(b), Known(Field.Add(p, a, b)))
  }

  function AddAssignedRegion(p: Field.Modulus, ns: string, a: Value, b: Value): RegionData {
    RowRegion(ns, "add_assigned", SAdd, a, b, a.Plus(p, b))
  }

  function SubRegion(p: Field.Modulus, ns: string, a: int, b: int): RegionData {
    RowRegion(ns, "sub", SAdd, Known(a), Known(Field.Neg(p, b)), Known(Field.Sub(p, a, b)))
  }

  function MulRegion(p: Field.Modulus, ns: string, a: int, b: int): RegionData {
    RowRegion(ns, "mul", SMul, Known(a), Known(b), Known(Field.Mul(p, a, b)))
  }

  /** Opens region `name` in namespace `ns`, enables `s` on row 0 and writes a, b, c; returns the c cell. */
  method AssignRow(layouter: Layouter, ns: string, name: string, s: Selector, a: Value, b: Value, c: Value)
    returns (cell: AssignedCell)
    modifies layouter
    ensures layouter.regions == old(layouter.regions) + [RowRegion(ns, name, s, a, b, c)]
    ensures layouter.bindings == old(layouter.bindings)
    ensures cell == AssignedCell(c, |old(layouter.regions)|, C, 0)
  {
    var region := layouter.AssignRegion(ns, name);
    region.Enable(s, 0);
    var _ := region.AssignAdvice(A, 0, a);
    var _ := region.AssignAdvice(B, 0, b);
    cell := region.AssignAdvice(C, 0, c);
    assert region.Data() == RowRegion(ns, name, s, a, b, c);
    layouter.Commit(region);
  }

  /** `add`: writes (a, b, a + b) under the addition selector and returns the sum cell. */
  method Add(p: Field.Modulus, layouter: Layouter, ns: string, a: int, b: int) returns (cell: AssignedCell)
    modifies layouter
    ensures layouter.regions == old(layouter.regions) + [AddRegion(p, ns, a, b)]
    ensures layouter.bindings == old(layouter.bindings)
    ensures cell == AssignedCell(Known(Field.Add(p, a, b)), |old(layouter.regions)|, C, 0)
  {
    var c := Field.Add(p, a, b);
    cell := AssignRow(layouter, ns, "add", SAdd, Known(a), Known(b), Known(c));
  }

  /**
   * `add_assigned`: copies the values of two earlier cells into a and b and
   * writes their sum; the sum is unknown when either input is. No copy
   * constraint ties the new cells to the inputs.
   */
  method AddAssigned(p: Field.Modulus, layouter: Layouter, ns: string, a: AssignedCell, b: AssignedCell)
    returns (cell: AssignedCell)
    modifies layouter
    ensures layouter.regions == old(layouter.regions) + [AddAssignedRegion(p, ns, a.value, b.value)]
    ensures layouter.bindings == old(layouter.bindings)
    ensures cell == AssignedCell(a.value.Plus(p, b.value), |old(layouter.regions)|, C, 0)
  {
    var cVal := a.value.Plus(p, b.value);
    cell := AssignRow(layouter, ns, "add_assigned", SAdd, a.value, b.value, cVal);
  }

  /** `sub`: writes (a, -b, a - b) under the addition selector and returns the difference cell. */
  method Sub(p: Field.Modulus, layouter: Layouter, ns: string, a: int, b: int) returns (cell: AssignedCell)
    modifies layouter
    ensures layouter.regions == old(layouter.regions) + [SubRegion(p, ns, a, b)]
    ensures layouter.bindings == old(layouter.bindings)
    ensures cell == AssignedCell(Known(Field.Sub(p, a, b)), |old(layouter.regions)|, C, 0)
  {
    var c := Field.Sub(p, a, b);
    cell := AssignRow(layouter, ns, "sub", SAdd, Known(a), Known(Field.Neg(p, b)), Known(c));
  }

  /** `mul`: writes (a, b, a * b) under the multiplication selector and returns the product cell. */
  method Mul(p: Field.Modulus, layouter: Layouter, ns: string, a: int, b: int) returns (cell: AssignedCell)
    modifies layouter
    ensures layouter.regions == old(layouter.regions) + [MulRegion(p, ns, a, b)]
    ensures layouter.bindings == old(layouter.bindings)
    ensures cell == AssignedCell(Known(Field.Mul(p, a, b)), |old(layouter.regions)|, C, 0)
  {
    var c := Field.Mul(p, a, b);
    cell := AssignRow(layouter, ns, "mul", SMul, Known(a), Known(b), Known(c));
  }

  // ---------------------------------------------------------------------------
  // What the gates accept

  /** On a row with known a and b, the addition gate accepts exactly the c that is a + b in the field. */
  lemma AddGateIff(p: Field.Modulus, ns: string, name: string, a: int, b: int, c: int)
    requires Field.Elem(p, c)
    ensures RegionSatisfies(p, Gates, RowRegion(ns, name, SAdd, Known(a), Known(b), Known(c)))
            <==> c == Field.Add(p, a, b)
  {
    var r := RowRegion(ns, name, SAdd, Known(a), Known(b), Known(c));
    Field.VanishesIff(p, a + b, c);
    assert GateZeroAt(p, AddGate, r, 0) <==> (a + b - c) % p == 0;
    assert (SAdd, 0) in r.enabled && AddGate in Gates;
  }

  /** On a row with known a and b, the multiplication gate accepts exactly the c that is a * b in the field. */
  lemma MulGateIff(p: Field.Modulus, ns: string, name: string, a: int, b: int, c: int)
    requires Field.Elem(p, c)
    ensures RegionSatisfies(p, Gates, RowRegion(ns, name, SMul, Known(a), Known(b), Known(c)))
            <==> c == Field.Mul(p, a, b)
  {
    var r := RowRegion(ns, name, SMul, Known(a), Known(b), Known(c));
    Field.VanishesIff(p, a * b, c);
    assert GateZeroAt(p, MulGate, r, 0) <==> (a * b - c) % p == 0;
    assert (SMul, 0) in r.enabled && MulGate in Gates;
  }

  /** Every `add` row is accepted. */
  lemma AddAccepted(p: Field.Modulus, ns: string, a: int, b: int)
    ensures RegionSatisfies(p, Gates, AddRegion(p, ns, a, b))
  {
    AddGateIff(p, ns, "add", a, b, Field.Add(p, a, b));
  }

  /** Every `mul` row is accepted. */
  lemma MulAccepted(p: Field.Modulus, ns: string, a: int, b: int)
    ensures RegionSatisfies(p, Gates, MulRegion(p, ns, a, b))
  {
    MulGateIff(p, ns, "mul", a, b, Field.Mul(p, a, b));
  }

  /** Every `sub` row is accepted: a + (-b) - (a - b) vanishes in the field. */
  lemma SubAccepted(p: Field.Modulus, ns: string, a: int, b: int)
    ensures RegionSatisfies(p, Gates, SubRegion(p, ns, a, b))
  {
    var nb := Field.Neg(p, b);
    AddGateIff(p, ns, "sub", a, nb, Field.Sub(p, a, b));
    assert Field.Add(p, a, nb) == Field.Sub(p, a, b) by {
      Field.ModDiff(p, -b, 0, a);
    }
  }

  /** An `add_assigned` row is accepted exactly when both input values are known. */
  lemma AddAssignedAcceptedIff(p: Field.Modulus, ns: string, a: Value, b: Value)
    ensures RegionSatisfies(p, Gates, AddAssignedRegion(p, ns, a, b)) <==> a.Known? && b.Known?
  {
    var r := AddAssignedRegion(p, ns, a, b);
    if a.Known? && b.Known? {
      AddGateIff(p, ns, "add_assigned", a.v, b.v, Field.Add(p, a.v, b.v));
    } else {
      assert !GateZeroAt(p, AddGate, r, 0);
      assert (SAdd, 0) in r.enabled && AddGate in Gates;
    }
  }

  /** The chip's unit test: add(5, 3) is accepted and its output cell holds 8. */
  lemma AddFiveThree(p: Field.Modulus)
    requires p > 8
    ensures RegionSatisfies(p, Gates, AddRegion(p, "add", 5, 3))
    ensures Field.Add(p, 5, 3) == 8
  {
    AddAccepted(p, "add", 5, 3);
    Field.ModOfElem(p, 8);
  }
}
