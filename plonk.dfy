/**
 * The part of the Halo2 proving library that the chips and circuits touch,
 * reduced to what decides whether a witness is accepted:
 *
 *  - a Region is a grid of written cells, keyed by (column, row relative to the
 *    region's first row), plus the set of (selector, row) pairs switched on;
 *  - a Layouter collects regions in the order they are assigned and records which
 *    advice cells are tied to rows of the instance (public input) column;
 *  - a ConstraintSystem collects the gates a chip's `configure` creates and the
 *    columns it enables equality on;
 *  - a gate is a polynomial over the cells of the enabling row and the next one;
 *    a layout is accepted when every gate is zero (mod p) on every row its
 *    selector is enabled, every cell it queries has been assigned, and every
 *    instance binding holds.
 *
 * Floor planning (where regions land in absolute rows) and the permutation
 * argument are library internals and are not modelled.
 */
module Plonk {
  import opened Field

  /** The advice and instance columns of every chip and circuit of the prover. */
  datatype Column =
    | Opcode | Stack0 | Stack1 | Stack2 | Pc | Gas | StackDepth  // opcode chip
    | A | B | C                                                   // arithmetic chip
    | Key | OldValue | NewValue                                   // storage circuit
    | PublicInput                                                 // instance column

  datatype Selector = SOpcode | SStackCheck | SAdd | SMul | SStorage

  /** `halo2_proofs::circuit::Value`: a witness value, unknown while only the shape is synthesised. */
  datatype Value = Known(v: int) | Unknown {
    /** `Value + Value`: known only when both sides are. */
    function Plus(p: Modulus, other: Value): Value {
      if Known? && other.Known? then Known(Add(p, v, other.v)) else Unknown
    }
  }

  datatype RegionData = RegionData(
    namespace: string,
    name: string,
    cells: map<(Column, nat), Value>,
    enabled: set<(Selector, nat)>)

  /** A written cell: its value and where it lives (region index in assignment order, column, row). */
  datatype AssignedCell = AssignedCell(value: Value, region: nat, column: Column, row: nat)

  /** `constrain_instance`: the cell (region, column, row) must equal row `instanceRow` of the public input. */
  datatype InstanceBinding = InstanceBinding(region: nat, column: Column, row: nat, instanceRow: nat)

  /** Every gate created by a `configure` in the prover. */
  datatype Gate = PcIncrement | GasMetering | StackDepthCheck | AddGate | MulGate | StorageUpdateGate

  function GateSelector(g: Gate): Selector {
    match g
    case PcIncrement => SOpcode
    case GasMetering => SOpcode
    case StackDepthCheck => SStackCheck
    case AddGate => SAdd
    case MulGate => SMul
    case StorageUpdateGate => SStorage
  }

  predicate Has(r: RegionData, col: Column, row: nat) {
    (col, row) in r.cells && r.cells[(col, row)].Known?
  }

  function Val(r: RegionData, col: Column, row: nat): int
    requires Has(r, col, row)
  {
    r.cells[(col, row)].v
  }

  /**
   * The gate `g` evaluated at `row` of region `r`: every cell it queries is
   * assigned and its polynomial is zero in the field.
   */
  predicate GateZeroAt(p: Modulus, g: Gate, r: RegionData, row: nat) {
    match g
    case PcIncrement =>
      // s * (pc_next - pc_cur - 1)
      Has(r, Pc, row) && Has(r, Pc, row + 1) &&
      (Val(r, Pc, row + 1) - Val(r, Pc, row) - 1) % p == 0
    case GasMetering =>
      // s * (gas_next - gas_cur + 3); the opcode cell is queried but unused
      Has(r, Gas, row) && Has(r, Gas, row + 1) && Has(r, Opcode, row) &&
      (Val(r, Gas, row + 1) - Val(r, Gas, row) + 3) % p == 0
    case StackDepthCheck =>
      // s * depth
      Has(r, StackDepth, row) && Val(r, StackDepth, row) % p == 0
    case AddGate =>
      // s * (a + b - c)
      Has(r, A, row) && Has(r, B, row) && Has(r, C, row) &&
      (Val(r, A, row) + Val(r, B, row) - Val(r, C, row)) % p == 0
    case MulGate =>
      // s * (a * b - c)
      Has(r, A, row) && Has(r, B, row) && Has(r, C, row) &&
      (Val(r, A, row) * Val(r, B, row) - Val(r, C, row)) % p == 0
    case StorageUpdateGate =>
      // s * 0; key, old and new are queried but unused
      Has(r, Key, row) && Has(r, OldValue, row) && Has(r, NewValue, row)
  }

  /** Every gate of `gates` holds on every row of `r` where its selector is enabled. */
  predicate RegionSatisfies(p: Modulus, gates: seq<Gate>, r: RegionData) {
    forall en, g | en in r.enabled && g in gates && GateSelector(g) == en.0 :: GateZeroAt(p, g, r, en.1)
  }

  /** Row `row` of the instance column; rows not supplied are zero. */
  function InstanceAt(instance: seq<int>, row: nat): int {
    if row < |instance| then instance[row] else 0
  }

  predicate BindingHolds(p: Modulus, regions: seq<RegionData>, b: InstanceBinding, instance: seq<int>) {
    b.region < |regions| && Has(regions[b.region], b.column, b.row) &&
    (Val(regions[b.region], b.column, b.row) - InstanceAt(instance, b.instanceRow)) % p == 0
  }

  /** What `MockProver::verify` accepts: all gates in all regions and all instance bindings. */
  predicate Satisfied(p: Modulus, gates: seq<Gate>, regions: seq<RegionData>,
                      bindings: seq<InstanceBinding>, instance: seq<int>) {
    (forall i | 0 <= i < |regions| :: RegionSatisfies(p, gates, regions[i])) &&
    (forall b | b in bindings :: BindingHolds(p, regions, b, instance))
  }

  /** A region being filled inside `assign_region`. */
  class Region {
    const index: nat
    const namespace: string
    const name: string
    var cells: map<(Column, nat), Value>
    var enabled: set<(Selector, nat)>

    constructor (index: nat, namespace: string, name: string)
      ensures this.index == index && this.namespace == namespace && this.name == name
      ensures cells == map[] && enabled == {}
    {
      this.index := index;
      this.namespace := namespace;
      this.name := name;
      cells := map[];
      enabled := {};
    }

    function Data(): RegionData
      reads this
    {
      RegionData(namespace, name, cells, enabled)
    }

    /** `Selector::enable(&mut region, row)`. */
    method Enable(s: Selector, row: nat)
      modifies this
      ensures enabled == old(enabled) + {(s, row)}
      ensures cells == old(cells)
    {
      enabled := enabled + {(s, row)};
    }

    /** `region.assign_advice(.., column, row, || value)`. */
    method AssignAdvice(col: Column, row: nat, value: Value) returns (cell: AssignedCell)
      modifies this
      ensures cells == old(cells)[(col, row) := value]
      ensures enabled == old(enabled)
      ensures cell == AssignedCell(value, index, col, row)
    {
      cells := cells[(col, row) := value];
      cell := AssignedCell(value, index, col, row);
    }
  }

  /** The layouter a circuit's `synthesize` writes through. */
  class Layouter {
    var regions: seq<RegionData>
    var bindings: seq<InstanceBinding>

    constructor ()
      ensures regions == [] && bindings == []
    {
      regions := [];
      bindings := [];
    }

    /** Opens the next region, inside namespace `ns`. */
    method AssignRegion(ns: string, name: string) returns (r: Region)
      ensures fresh(r)
      ensures r.index == |regions| && r.namespace == ns && r.name == name
      ensures r.cells == map[] && r.enabled == {}
    {
      r := new Region(|regions|, ns, name);
    }

    /** Closes region `r`, which must be the one opened last. */
    method Commit(r: Region)
      requires r.index == |regions|
      modifies this
      ensures regions == old(regions) + [r.Data()]
      ensures bindings == old(bindings)
    {
      regions := regions + [r.Data()];
    }

    /** `layouter.constrain_instance(cell, column, row)`. */
    method ConstrainInstance(cell: AssignedCell, instanceRow: nat)
      modifies this
      ensures bindings == old(bindings) + [InstanceBinding(cell.region, cell.column, cell.row, instanceRow)]
      ensures regions == old(regions)
    {
      bindings := bindings + [InstanceBinding(cell.region, cell.column, cell.row, instanceRow)];
    }
  }

  /** The constraint system a circuit's `configure` fills. */
  class ConstraintSystem {
    var gates: seq<Gate>
    var equality: set<Column>

    constructor ()
      ensures gates == [] && equality == {}
    {
      gates := [];
      equality := {};
    }

    /** `meta.enable_equality(column)`: the column may take part in copy constraints. */
    method EnableEquality(col: Column)
      modifies this
      ensures equality == old(equality) + {col}
      ensures gates == old(gates)
    {
      equality := equality + {col};
    }

    /** `meta.create_gate(..)`. */
    method CreateGate(g: Gate)
      modifies this
      ensures gates == old(gates) + [g]
      ensures equality == old(equality)
    {
      gates := gates + [g];
    }
  }
}
