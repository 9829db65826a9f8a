/** Conversion of a decoded MATPOWER version-2 case into the 0-based `ppc`
    case: copy the case entries out of the file's layout, shift the bus
    identifiers from MATLAB's 1-based numbering to 0-based numbering, and
    replace the "no transformer" tap value 0 by the neutral tap 1. */
module FromMpc {
  import opened Tables
  import opened Payload

  /** Fixed column offsets of the MATPOWER tables that the converter edits. */
  const BusId: nat := 0    // bus table: bus number
  const FromBus: nat := 0  // branch table: "from" bus number
  const ToBus: nat := 1    // branch table: "to" bus number
  const Tap: nat := 8      // branch table: transformer tap ratio
  const GenBus: nat := 0   // gen table: number of the bus the generator is on

  /** Why a conversion stops. */
  datatype Error =
    | MissingAttribute(name: string)  // the named struct lacks a required attribute
    | MissingKey(key: string)         // `ppc` has no entry `key`
    | NotATable(key: string)          // entry `key` is not a 2-D table having the column edited

  datatype Result<T> = Success(value: T) | Failure(error: Error)

  /** Entry `key` is a table that has column `c`. */
  predicate HasColumn(entries: map<string, Value>, key: string, c: nat)
  {
    key in entries && entries[key].Matrix? && c < entries[key].m.Length1
  }

  /** The four column updates of the index shift can all run. */
  predicate Adjustable(entries: map<string, Value>)
  {
    HasColumn(entries, Bus, BusId) && HasColumn(entries, Branch, FromBus)
    && HasColumn(entries, Branch, ToBus) && HasColumn(entries, Gen, GenBus)
  }

  /** The table held under `key`, as a set: empty when there is none. */
  ghost function TableAt(entries: map<string, Value>, key: string): set<array2<real>>
  {
    if key in entries && entries[key].Matrix? then {entries[key].m} else {}
  }

  /** The tables the conversion edits in place: bus, branch and gen. */
  ghost function EditedTables(entries: map<string, Value>): set<array2<real>>
  {
    TableAt(entries, Bus) + TableAt(entries, Branch) + TableAt(entries, Gen)
  }

  /** The bus, branch and gen tables are three different arrays (each table
      of a decoded file is its own array). */
  ghost predicate DistinctTables(entries: map<string, Value>)
  {
    TableAt(entries, Bus) !! TableAt(entries, Branch)
    && TableAt(entries, Bus) !! TableAt(entries, Gen)
    && TableAt(entries, Branch) !! TableAt(entries, Gen)
  }

  /** The error a column update of entry `key`, column `c`, raises, if any. */
  function ColumnError(entries: map<string, Value>, key: string, c: nat): (r: Option<Error>)
    ensures r.None? <==> HasColumn(entries, key, c)
    ensures r.Some? && key !in entries ==> r.value == MissingKey(key)
    ensures r.Some? && key in entries ==> r.value == NotATable(key)
  {
    if key !in entries then Some(MissingKey(key))
    else if HasColumn(entries, key, c) then None
    else Some(NotATable(key))
  }

  /** The error the index shift raises, if any: that of the first of its
      four column updates (bus, branch "from", branch "to", gen) that
      cannot run. */
  function AdjustError(entries: map<string, Value>): (r: Option<Error>)
    ensures r.None? <==> Adjustable(entries)
    ensures Bus !in entries ==> r == Some(MissingKey(Bus))
    ensures r.Some? && r.value.MissingKey? ==> r.value.key in RequiredKeys && r.value.key !in entries
    ensures r.Some? && r.value.NotATable? ==> r.value.key in RequiredKeys && r.value.key in entries
    ensures r.Some? ==> !r.value.MissingAttribute? && r.value.key in {Bus, Branch, Gen}
    // the error of the first of the four column updates that cannot run
    ensures !HasColumn(entries, Bus, BusId) ==> r == ColumnError(entries, Bus, BusId)
    ensures HasColumn(entries, Bus, BusId) && !HasColumn(entries, Branch, FromBus) ==>
              r == ColumnError(entries, Branch, FromBus)
    ensures HasColumn(entries, Bus, BusId) && HasColumn(entries, Branch, FromBus)
            && !HasColumn(entries, Branch, ToBus) ==>
              r == ColumnError(entries, Branch, ToBus)
    ensures HasColumn(entries, Bus, BusId) && HasColumn(entries, Branch, FromBus)
            && HasColumn(entries, Branch, ToBus) && !HasColumn(entries, Gen, GenBus) ==>
              r == ColumnError(entries, Gen, GenBus)
    // an error names a table only when an update of an earlier table could run
    ensures r.Some? && r.value.key == Branch ==> HasColumn(entries, Bus, BusId)
    ensures r.Some? && r.value.key == Gen ==>
              HasColumn(entries, Bus, BusId) && HasColumn(entries, Branch, FromBus)
              && HasColumn(entries, Branch, ToBus)
  {
    var bus := ColumnError(entries, Bus, BusId);
    var from := ColumnError(entries, Branch, FromBus);
    var to := ColumnError(entries, Branch, ToBus);
    var gen := ColumnError(entries, Gen, GenBus);
    if bus.Some? then bus
    else if from.Some? then from
    else if to.Some? then to
    else gen
  }

  /** Writing one more entry after a union is writing it into the right operand. */
  lemma UpdateUnion<K, V>(m: map<K, V>, w: map<K, V>, k: K, v: V)
    ensures (m + w)[k := v] == m + w[k := v]
  {
  }

  /** The converter's `ppc` dictionary. The tables it holds are shared with
      the decoded file: the in-place steps edit those arrays. */
  class Ppc {
    var entries: map<string, Value>

    /** A fresh, empty `ppc`. */
    constructor ()
      ensures entries == map[]
    {
      entries := map[];
    }

    /** The table held under `key`. */
    function Table(key: string): array2<real>
      reads this
      requires key in entries && entries[key].Matrix?
    {
      entries[key].m
    }

    /** Named layout: copies the required attributes of struct `s` one by
        one, in order, stopping at the first one `s` lacks (those before it
        stay written), then `gencost` if `s` has it. */
    method CopyNamedStruct(s: Value) returns (report: CopyReport)
      modifies this
      ensures entries == old(entries) + CopyNamed(s).written
      ensures report == CopyNamed(s).report
    {
      var e := entries;
      ghost var w: map<string, Value> := map[];
      assert e == old(entries) + w;
      var a := Attribute(s, Version);
      if a.None? {
        assert CopyNamed(s) == Extraction(w, AttributeMissing(Version));
        entries := e;
        return AttributeMissing(Version);
      }
      UpdateUnion(old(entries), w, Version, a.value);
      e, w := e[Version := a.value], w[Version := a.value];
      a := Attribute(s, BaseMVA);
      if a.None? {
        assert CopyNamed(s) == Extraction(w, AttributeMissing(BaseMVA));
        entries := e;
        return AttributeMissing(BaseMVA);
      }
      UpdateUnion(old(entries), w, BaseMVA, a.value);
      e, w := e[BaseMVA := a.value], w[BaseMVA := a.value];
      a := Attribute(s, Bus);
      if a.None? {
        assert CopyNamed(s) == Extraction(w, AttributeMissing(Bus));
        entries := e;
        return AttributeMissing(Bus);
      }
      UpdateUnion(old(entries), w, Bus, a.value);
      e, w := e[Bus := a.value], w[Bus := a.value];
      a := Attribute(s, Gen);
      if a.None? {
        assert CopyNamed(s) == Extraction(w, AttributeMissing(Gen));
        entries := e;
        return AttributeMissing(Gen);
      }
      UpdateUnion(old(entries), w, Gen, a.value);
      e, w := e[Gen := a.value], w[Gen := a.value];
      a := Attribute(s, Branch);
      if a.None? {
        assert CopyNamed(s) == Extraction(w, AttributeMissing(Branch));
        entries := e;
        return AttributeMissing(Branch);
      }
      UpdateUnion(old(entries), w, Branch, a.value);
      e, w := e[Branch := a.value], w[Branch := a.value];
      a := Attribute(s, Gencost);
      if a.Some? {
        UpdateUnion(old(entries), w, Gencost, a.value);
        e, w := e[Gencost := a.value], w[Gencost := a.value];
      }
      assert CopyNamed(s) == Extraction(w, Copied(NamedStruct, a.None?));
      entries := e;
      report := Copied(NamedStruct, a.None?);
    }

    /** Flat layout: copies the five required top-level entries, then
        `gencost` if the file has it. */
    method CopyFlatEntries(mpc: Mpc) returns (report: CopyReport)
      requires HasFlatLayout(mpc)
      modifies this
      ensures entries == old(entries) + CopyFlat(mpc).written
      ensures report == CopyFlat(mpc).report
    {
      var e := entries;
      ghost var w: map<string, Value> := map[];
      assert e == old(entries) + w;
      UpdateUnion(old(entries), w, Version, mpc[Version]);
      e, w := e[Version := mpc[Version]], w[Version := mpc[Version]];
      UpdateUnion(old(entries), w, BaseMVA, mpc[BaseMVA]);
      e, w := e[BaseMVA := mpc[BaseMVA]], w[BaseMVA := mpc[BaseMVA]];
      UpdateUnion(old(entries), w, Bus, mpc[Bus]);
      e, w := e[Bus := mpc[Bus]], w[Bus := mpc[Bus]];
      UpdateUnion(old(entries), w, Gen, mpc[Gen]);
      e, w := e[Gen := mpc[Gen]], w[Gen := mpc[Gen]];
      UpdateUnion(old(entries), w, Branch, mpc[Branch]);
      e, w := e[Branch := mpc[Branch]], w[Branch := mpc[Branch]];
      if Gencost in mpc {
        UpdateUnion(old(entries), w, Gencost, mpc[Gencost]);
        e, w := e[Gencost := mpc[Gencost]], w[Gencost := mpc[Gencost]];
        report := Copied(FlatMapping, false);
      } else {
        report := Copied(FlatMapping, true);
      }
      assert w == CopyFlat(mpc).written;
      entries := e;
    }

    /** Copies the case entries of the decoded file into `ppc`, from the
        struct stored under `caseName` if there is one, else from the
        top-level entries if all five required ones are there; otherwise
        writes nothing and reports the invalid structure. */
    method CopyDataFromMpc(mpc: Mpc, caseName: string) returns (report: CopyReport)
      modifies this
      ensures entries == old(entries) + Extract(mpc, caseName).written
      ensures report == Extract(mpc, caseName).report
    {
      if caseName in mpc {
        report := CopyNamedStruct(mpc[caseName]);
      } else if HasFlatLayout(mpc) {
        report := CopyFlatEntries(mpc);
      } else {
        report := NoValidStructure;
      }
    }

    /** Shifts the bus numbers of the bus, branch ("from" and "to") and gen
        tables down by one, in place. When one of the four column updates
        cannot run, raises its error instead and changes nothing. */
    method AdjustIndices() returns (err: Option<Error>)
      requires DistinctTables(entries)
      modifies if Adjustable(entries) then {Table(Bus), Table(Branch), Table(Gen)} else {}
      ensures err == AdjustError(entries)
      ensures err.None? ==>
                && Cells(Table(Bus)) == OffsetColumn(old(Cells(Table(Bus))), BusId, -1.0)
                && Cells(Table(Branch)) == OffsetColumn(OffsetColumn(old(Cells(Table(Branch))), FromBus, -1.0), ToBus, -1.0)
                && Cells(Table(Gen)) == OffsetColumn(old(Cells(Table(Gen))), GenBus, -1.0)
    {
      err := AdjustError(entries);
      if err.Some? {
        return;
      }
      OffsetColumnInPlace(Table(Bus), BusId, -1.0);
      OffsetColumnInPlace(Table(Branch), FromBus, -1.0);
      OffsetColumnInPlace(Table(Branch), ToBus, -1.0);
      OffsetColumnInPlace(Table(Gen), GenBus, -1.0);
    }

    /** Replaces every tap value 0 of the branch table by 1, in place. When
        there is no branch table with a tap column, raises that error instead
        and changes nothing. */
    method ChangeTapValue() returns (err: Option<Error>)
      modifies if HasColumn(entries, Branch, Tap) then {Table(Branch)} else {}
      ensures err == ColumnError(entries, Branch, Tap)
      ensures err.None? ==> Cells(Table(Branch)) == RepairTaps(old(Cells(Table(Branch))), Tap)
    {
      err := ColumnError(entries, Branch, Tap);
      if err.Some? {
        return;
      }
      RepairTapsInPlace(Table(Branch), Tap);
    }

    /** The two in-place steps after the copy: the index shift, then the tap
        repair. The first error stops the sequence: an error of the index
        shift leaves every table as it was; an error of the tap repair comes
        after the shift, which stays done. */
    method Normalize() returns (err: Option<Error>)
      requires DistinctTables(entries)
      modifies EditedTables(entries)
      ensures err == (if AdjustError(entries).Some? then AdjustError(entries) else ColumnError(entries, Branch, Tap))
      ensures !Adjustable(entries) ==> unchanged(EditedTables(entries))
      ensures Adjustable(entries) ==>
                && Cells(Table(Bus)) == NormalizedBus(old(Cells(Table(Bus))))
                && Cells(Table(Gen)) == NormalizedGen(old(Cells(Table(Gen))))
      ensures Adjustable(entries) && err.Some? ==>
                Cells(Table(Branch)) == OffsetColumn(OffsetColumn(old(Cells(Table(Branch))), FromBus, -1.0), ToBus, -1.0)
      ensures err.None? ==>
                && Cells(Table(Bus)) == NormalizedBus(old(Cells(Table(Bus))))
                && Cells(Table(Branch)) == NormalizedBranch(old(Cells(Table(Branch))))
                && Cells(Table(Gen)) == NormalizedGen(old(Cells(Table(Gen))))
    {
      err := AdjustIndices();
      if err.Some? {
        return;
      }
      ghost var branch := Cells(Table(Branch));
      err := ChangeTapValue();
      if err.None? {
        assert Cells(Table(Branch)) == RepairTaps(branch, Tap);
      }
    }
  }

  // -----------------------------------------------------------------------
  // The whole conversion
  // -----------------------------------------------------------------------

  /** The raw bus table as the conversion leaves it. */
  function NormalizedBus(raw: Grid): Grid
  {
    OffsetColumn(raw, BusId, -1.0)
  }

  /** The raw branch table as the conversion leaves it. */
  function NormalizedBranch(raw: Grid): Grid
  {
    RepairTaps(OffsetColumn(OffsetColumn(raw, FromBus, -1.0), ToBus, -1.0), Tap)
  }

  /** The raw gen table as the conversion leaves it. */
  function NormalizedGen(raw: Grid): Grid
  {
    OffsetColumn(raw, GenBus, -1.0)
  }

  /** Cell by cell, the normalised branch table is the raw one with the
      "from" and "to" bus numbers lowered by one and the "no transformer"
      taps set to the neutral tap; nothing else changes. */
  lemma NormalizedBranchCells(raw: Grid)
    ensures |NormalizedBranch(raw)| == |raw|
    ensures forall i :: 0 <= i < |raw| ==> |NormalizedBranch(raw)[i]| == |raw[i]|
    ensures forall i, j :: 0 <= i < |raw| && 0 <= j < |raw[i]| ==>
              NormalizedBranch(raw)[i][j] ==
                if j == FromBus || j == ToBus then raw[i][j] - 1.0
                else if j == Tap && raw[i][j] == NoTap then NeutralTap
                else raw[i][j]
  {
    var once := OffsetColumn(raw, FromBus, -1.0);
    OffsetColumnCells(raw, FromBus, -1.0);
    OffsetColumnCells(once, ToBus, -1.0);
    RepairTapsCells(OffsetColumn(once, ToBus, -1.0), Tap);
  }

  /** Repairing the taps before or after the index shift gives the same
      branch table. */
  lemma NormalizationOrderIrrelevant(raw: Grid)
    ensures NormalizedBranch(raw) == OffsetColumn(OffsetColumn(RepairTaps(raw, Tap), FromBus, -1.0), ToBus, -1.0)
  {
    var shifted := OffsetColumn(raw, FromBus, -1.0);
    RepairCommutesWithOffset(shifted, ToBus, Tap, -1.0);
    RepairCommutesWithOffset(raw, FromBus, Tap, -1.0);
  }

  /** A normalised branch table is already repaired: repairing it again
      changes nothing. */
  lemma NormalizedBranchRepaired(raw: Grid)
    ensures RepairTaps(NormalizedBranch(raw), Tap) == NormalizedBranch(raw)
  {
    RepairTapsIdempotent(OffsetColumn(OffsetColumn(raw, FromBus, -1.0), ToBus, -1.0), Tap);
  }

  /** The shift keeps the tables consistent: a branch end or a generator
      refers to a bus after the conversion exactly when it did before. */
  lemma BusReferencesPreserved(bus: Grid, branch: Grid, gen: Grid, b: nat, l: nat, g: nat)
    requires b < |bus| && BusId < |bus[b]|
    requires l < |branch| && ToBus < |branch[l]|
    requires g < |gen| && GenBus < |gen[g]|
    ensures b < |NormalizedBus(bus)| && BusId < |NormalizedBus(bus)[b]|
    ensures l < |NormalizedBranch(branch)| && ToBus < |NormalizedBranch(branch)[l]|
    ensures g < |NormalizedGen(gen)| && GenBus < |NormalizedGen(gen)[g]|
    ensures (NormalizedBranch(branch)[l][FromBus] == NormalizedBus(bus)[b][BusId])
              == (branch[l][FromBus] == bus[b][BusId])
    ensures (NormalizedBranch(branch)[l][ToBus] == NormalizedBus(bus)[b][BusId])
              == (branch[l][ToBus] == bus[b][BusId])
    ensures (NormalizedGen(gen)[g][GenBus] == NormalizedBus(bus)[b][BusId])
              == (gen[g][GenBus] == bus[b][BusId])
  {
    NormalizedBranchCells(branch);
    OffsetColumnCells(bus, BusId, -1.0);
    OffsetColumnCells(gen, GenBus, -1.0);
  }

  /** A three-bus case: bus numbers 1, 2, 3 become 0, 1, 2; the branches
      1-2 (no transformer) and 2-3 (tap 0.98) become 0-1 with tap 1 and 1-2
      with tap 0.98; the generator at bus 1 is then at bus 0. */
  lemma ThreeBusExample()
    ensures NormalizedBus([[1.0, 3.0], [2.0, 1.0], [3.0, 1.0]]) == [[0.0, 3.0], [1.0, 1.0], [2.0, 1.0]]
    ensures NormalizedBranch([[1.0, 2.0, 0.01, 0.085, 0.176, 250.0, 250.0, 250.0, 0.0],
                              [2.0, 3.0, 0.017, 0.092, 0.158, 250.0, 250.0, 250.0, 0.98]])
         == [[0.0, 1.0, 0.01, 0.085, 0.176, 250.0, 250.0, 250.0, 1.0],
             [1.0, 2.0, 0.017, 0.092, 0.158, 250.0, 250.0, 250.0, 0.98]]
    ensures NormalizedGen([[1.0, 72.3]]) == [[0.0, 72.3]]
  {
    var bus := [[1.0, 3.0], [2.0, 1.0], [3.0, 1.0]];
    OffsetColumnCells(bus, BusId, -1.0);
    assert NormalizedBus(bus)[0] == [0.0, 3.0];
    assert NormalizedBus(bus)[1] == [1.0, 1.0];
    assert NormalizedBus(bus)[2] == [2.0, 1.0];
    var branch := [[1.0, 2.0, 0.01, 0.085, 0.176, 250.0, 250.0, 250.0, 0.0],
                   [2.0, 3.0, 0.017, 0.092, 0.158, 250.0, 250.0, 250.0, 0.98]];
    NormalizedBranchCells(branch);
    assert NormalizedBranch(branch)[0] == [0.0, 1.0, 0.01, 0.085, 0.176, 250.0, 250.0, 250.0, 1.0];
    assert NormalizedBranch(branch)[1] == [1.0, 2.0, 0.017, 0.092, 0.158, 250.0, 250.0, 250.0, 0.98];
    OffsetColumnCells([[1.0, 72.3]], GenBus, -1.0);
    assert NormalizedGen([[1.0, 72.3]])[0] == [0.0, 72.3];
  }

  /** The error the conversion of `mpc` stops with, if any: a missing
      attribute of the named struct, then the index shift's error (on an
      invalid structure `ppc` is empty, so that is the missing bus entry),
      then the tap repair's error. */
  function ConversionError(mpc: Mpc, caseName: string): (r: Option<Error>)
    ensures Extract(mpc, caseName).report.AttributeMissing? ==>
              r == Some(MissingAttribute(Extract(mpc, caseName).report.name))
    ensures Extract(mpc, caseName).report.NoValidStructure? ==> r == Some(MissingKey(Bus))
    ensures r.None? <==>
              Extract(mpc, caseName).report.Copied? && Adjustable(Extract(mpc, caseName).written)
              && HasColumn(Extract(mpc, caseName).written, Branch, Tap)
    ensures Extract(mpc, caseName).report.Copied? && !Adjustable(Extract(mpc, caseName).written) ==>
              r == AdjustError(Extract(mpc, caseName).written)
    ensures Extract(mpc, caseName).report.Copied? && Adjustable(Extract(mpc, caseName).written) ==>
              r == ColumnError(Extract(mpc, caseName).written, Branch, Tap)
  {
    var x := Extract(mpc, caseName);
    if x.report.AttributeMissing? then Some(MissingAttribute(x.report.name))
    else if AdjustError(x.written).Some? then AdjustError(x.written)
    else ColumnError(x.written, Branch, Tap)
  }

  /** Converts a decoded file: a fresh `ppc`, then the copy, the index
      shift and the tap repair, in that order; the first error stops the
      conversion. The tables of the result are the file's own arrays,
      edited in place. */
  method Mpc2Ppc(mpc: Mpc, caseName: string) returns (r: Result<Ppc>)
    requires DistinctTables(Extract(mpc, caseName).written)
    modifies EditedTables(Extract(mpc, caseName).written)
    ensures r.Failure? <==> ConversionError(mpc, caseName).Some?
    ensures r.Failure? ==> r.error == ConversionError(mpc, caseName).value
    ensures r.Success? ==> fresh(r.value) && r.value.entries == Extract(mpc, caseName).written
    ensures r.Success? ==>
              var w := Extract(mpc, caseName).written;
              && Cells(w[Bus].m) == NormalizedBus(old(Cells(w[Bus].m)))
              && Cells(w[Branch].m) == NormalizedBranch(old(Cells(w[Branch].m)))
              && Cells(w[Gen].m) == NormalizedGen(old(Cells(w[Gen].m)))
  {
    ghost var w := Extract(mpc, caseName).written;
    var ppc := new Ppc();
    var report := ppc.CopyDataFromMpc(mpc, caseName);
    assert map[] + w == w;
    assert ppc.entries == w;
    if report.AttributeMissing? {
      return Failure(MissingAttribute(report.name));
    }
    var err := ppc.Normalize();
    if err.Some? {
      return Failure(err.value);
    }
    return Success(ppc);
  }
}
