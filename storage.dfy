/**
 * The storage circuit: one region per storage-slot update, holding the key,
 * the old value and the new value under a placeholder gate that constrains
 * nothing.
 */
module Storage {
  import Field
  import opened Plonk
  import Text

  /** `StorageUpdate`: a slot and its value before and after. */
  datatype StorageUpdate = StorageUpdate(key: int, oldValue: int, newValue: int)

  /** `StorageCircuit::new`. */
  datatype StorageCircuit = StorageCircuit(updates: seq<StorageUpdate>)

  /** `StorageCircuit::mock_update`: slot 1 changing from 100 to 200. */
  function MockUpdate(p: Field.Modulus): (c: StorageCircuit)
    ensures |c.updates| == 1
    ensures Field.Wide(p) ==> c.updates[0] == StorageUpdate(1, 100, 200)
  {
    StorageCircuit([StorageUpdate(Field.FromU64(p, 1), Field.FromU64(p, 100), Field.FromU64(p, 200))])
  }

  /** `configure`: equality on the three columns and the `storage_update` gate. */
  method Configure(cs: ConstraintSystem)
    modifies cs
    ensures cs.gates == old(cs.gates) + [StorageUpdateGate]
    ensures cs.equality == old(cs.equality) + {Key, OldValue, NewValue}
  {
    cs.EnableEquality(Key);
    cs.EnableEquality(OldValue);
    cs.EnableEquality(NewValue);
    cs.CreateGate(StorageUpdateGate);
  }

  function RegionName(i: nat): string {
    "storage_update_" + Text.Decimal(i)
  }

  /** The region laid out for update `u` at position `i`: the selector on row 0 and the three cells of row 0, nothing else. */
  function UpdateRegion(u: StorageUpdate, i: nat): (r: RegionData)
    ensures r.cells.Keys == {(Key, 0), (OldValue, 0), (NewValue, 0)} && r.enabled == {(SStorage, 0)}
  {
    RegionData("", RegionName(i),
      map[(Key, 0) := Known(u.key), (OldValue, 0) := Known(u.oldValue), (NewValue, 0) := Known(u.newValue)],
      {(SStorage, 0)})
  }

  /** The regions for the first `n` updates, in order. */
  function Layout(updates: seq<StorageUpdate>, n: nat): (rs: seq<RegionData>)
    requires n <= |updates|
    ensures |rs| == n
  {
    seq(n, i requires 0 <= i < n => UpdateRegion(updates[i], i))
  }

  /** `synthesize`: one region per update, in order. */
  method Synthesize(c: StorageCircuit, layouter: Layouter)
    modifies layouter
    ensures layouter.regions == old(layouter.regions) + Layout(c.updates, |c.updates|)
    ensures layouter.bindings == old(layouter.bindings)
  {
    for i := 0 to |c.updates|
      invariant layouter.regions == old(layouter.regions) + Layout(c.updates, i)
      invariant layouter.bindings == old(layouter.bindings)
    {
      var u := c.updates[i];
      var region := layouter.AssignRegion("", RegionName(i));
      region.Enable(SStorage, 0);
      var _ := region.AssignAdvice(Key, 0, Known(u.key));
      var _ := region.AssignAdvice(OldValue, 0, Known(u.oldValue));
      var _ := region.AssignAdvice(NewValue, 0, Known(u.newValue));
      assert region.Data() == UpdateRegion(u, i);
      layouter.Commit(region);
      assert Layout(c.updates, i + 1) == Layout(c.updates, i) + [UpdateRegion(u, i)];
    }
  }

  /** Reads an update back from its region's three cells. */
  function ReadUpdate(r: RegionData): StorageUpdate
    requires Has(r, Key, 0) && Has(r, OldValue, 0) && Has(r, NewValue, 0)
  {
    StorageUpdate(Val(r, Key, 0), Val(r, OldValue, 0), Val(r, NewValue, 0))
  }

  /** The laid-out regions hold exactly the updates, in order, each under its own region name. */
  lemma LayoutReadsBack(updates: seq<StorageUpdate>)
    ensures var rs := Layout(updates, |updates|);
            forall i | 0 <= i < |rs| ::
              Has(rs[i], Key, 0) && Has(rs[i], OldValue, 0) && Has(rs[i], NewValue, 0) &&
              ReadUpdate(rs[i]) == updates[i]
    ensures var rs := Layout(updates, |updates|);
            forall i, j | 0 <= i < j < |rs| :: rs[i].name != rs[j].name
  {
    var rs := Layout(updates, |updates|);
    forall i, j | 0 <= i < j < |rs|
      ensures rs[i].name != rs[j].name
    {
      Text.DecimalInjective(i, j);
      assert rs[i].name[|"storage_update_"|..] == Text.Decimal(i);
      assert rs[j].name[|"storage_update_"|..] == Text.Decimal(j);
    }
  }

  /** The placeholder gate `s * 0` accepts every list of updates, whatever the values. */
  lemma AlwaysAccepted(p: Field.Modulus, updates: seq<StorageUpdate>)
    ensures Satisfied(p, [StorageUpdateGate], Layout(updates, |updates|), [], [])
  {
  }
}
