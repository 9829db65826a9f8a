/** Column-wise edits on the numeric case tables (bus, branch, gen).
    A table is a 2-D array of reals; its contents are read as a `Grid`,
    a sequence of rows. The specification functions describe a whole-column
    edit on a grid; the methods perform it in place on the array, one row
    at a time, as the bulk column assignments of the converter do. */
module Tables {

  type Grid = seq<seq<real>>

  /** Tap value the raw format uses for "no transformer on this branch". */
  const NoTap: real := 0.0
  /** Neutral tap ratio the network builder expects instead. */
  const NeutralTap: real := 1.0

  /** The contents of a table, row by row. */
  ghost function Cells(a: array2<real>): Grid
    reads a
  {
    seq(a.Length0, i requires 0 <= i < a.Length0 reads a =>
      seq(a.Length1, j requires 0 <= j < a.Length1 reads a => a[i, j]))
  }

  /** `Cells(a)` has the shape of `a`, and its cells are those of `a`. */
  lemma CellsOf(a: array2<real>)
    ensures |Cells(a)| == a.Length0
    ensures forall i :: 0 <= i < a.Length0 ==> |Cells(a)[i]| == a.Length1
    ensures forall i, j :: 0 <= i < a.Length0 && 0 <= j < a.Length1 ==> Cells(a)[i][j] == a[i, j]
  {
  }

  // ---------------------------------------------------------------------
  // Adding a constant to one column (the index shift uses delta = -1)
  // ---------------------------------------------------------------------

  /** One row with `delta` added to its cell `c`; a row too short to have
      cell `c` is left as it is. */
  function OffsetRow(row: seq<real>, c: nat, delta: real): (r: seq<real>)
    ensures |r| == |row|
    ensures forall j :: 0 <= j < |row| ==> r[j] == (if j == c then row[j] + delta else row[j])
  {
    if c < |row| then row[c := row[c] + delta] else row
  }

  /** The grid with `delta` added to column `c` of every row. */
  function OffsetColumn(g: Grid, c: nat, delta: real): Grid
  {
    if g == [] then [] else [OffsetRow(g[0], c, delta)] + OffsetColumn(g[1..], c, delta)
  }

  /** Cell by cell: the shape is kept, column `c` gains `delta`, every
      other cell is unchanged. */
  lemma {:induction false} OffsetColumnCells(g: Grid, c: nat, delta: real)
    ensures |OffsetColumn(g, c, delta)| == |g|
    ensures forall i :: 0 <= i < |g| ==> |OffsetColumn(g, c, delta)[i]| == |g[i]|
    ensures forall i, j :: 0 <= i < |g| && 0 <= j < |g[i]| ==>
              OffsetColumn(g, c, delta)[i][j] == (if j == c then g[i][j] + delta else g[i][j])
  {
    if g != [] {
      OffsetColumnCells(g[1..], c, delta);
    }
  }

  /** Shifting a column by `a` and then by `b` is shifting it by `a + b`. */
  lemma {:induction false} OffsetColumnTwice(g: Grid, c: nat, a: real, b: real)
    ensures OffsetColumn(OffsetColumn(g, c, a), c, b) == OffsetColumn(g, c, a + b)
  {
    if g != [] {
      OffsetColumnTwice(g[1..], c, a, b);
      var row := g[0];
      assert OffsetRow(OffsetRow(row, c, a), c, b) == OffsetRow(row, c, a + b);
      assert OffsetColumn(g, c, a)[1..] == OffsetColumn(g[1..], c, a);
    }
  }

  /** Decrementing a column is not idempotent: as soon as one row has the
      column, decrementing twice differs from decrementing once. */
  lemma DecrementNotIdempotent(g: Grid, c: nat, i: nat)
    requires i < |g| && c < |g[i]|
    ensures OffsetColumn(OffsetColumn(g, c, -1.0), c, -1.0) != OffsetColumn(g, c, -1.0)
    ensures OffsetColumn(OffsetColumn(g, c, -1.0), c, -1.0) == OffsetColumn(g, c, -2.0)
  {
    OffsetColumnTwice(g, c, -1.0, -1.0);
    OffsetColumnCells(g, c, -2.0);
    OffsetColumnCells(g, c, -1.0);
    assert OffsetColumn(g, c, -2.0)[i][c] == g[i][c] - 2.0;
    assert OffsetColumn(g, c, -1.0)[i][c] == g[i][c] - 1.0;
  }

  /** Adds `delta` to column `c` of every row of `a`, in place.
      Column `c` must exist (the bulk column update fails otherwise). */
  method OffsetColumnInPlace(a: array2<real>, c: nat, delta: real)
    requires c < a.Length1
    modifies a
    ensures Cells(a) == OffsetColumn(old(Cells(a)), c, delta)
  {
    CellsOf(a);
    ghost var before := Cells(a);
    var i := 0;
    while i < a.Length0
      invariant 0 <= i <= a.Length0
      invariant forall r, j :: 0 <= r < a.Length0 && 0 <= j < a.Length1 ==>
                  a[r, j] == (if r < i && j == c then before[r][j] + delta else before[r][j])
    {
      a[i, c] := a[i, c] + delta;
      i := i + 1;
    }
    CellsOf(a);
    ghost var after, want := Cells(a), OffsetColumn(before, c, delta);
    OffsetColumnCells(before, c, delta);
    forall r | 0 <= r < a.Length0
      ensures after[r] == want[r]
    {
      assert forall j :: 0 <= j < a.Length1 ==> after[r][j] == want[r][j];
    }
  }

  // ---------------------------------------------------------------------
  // Replacing the "no transformer" tap value by the neutral one
  // ---------------------------------------------------------------------

  /** One row with cell `c` set to the neutral tap when it holds the
      "no transformer" value; every other cell, and a row too short to have
      cell `c`, is left as it is. */
  function RepairRow(row: seq<real>, c: nat): (r: seq<real>)
    ensures |r| == |row|
    ensures forall j :: 0 <= j < |row| ==>
              r[j] == (if j == c && row[j] == NoTap then NeutralTap else row[j])
  {
    if c < |row| && row[c] == NoTap then row[c := NeutralTap] else row
  }

  /** The grid with every "no transformer" tap in column `c` replaced. */
  function RepairTaps(g: Grid, c: nat): Grid
  {
    if g == [] then [] else [RepairRow(g[0], c)] + RepairTaps(g[1..], c)
  }

  /** Cell by cell: the shape is kept, a "no transformer" tap in column `c`
      becomes the neutral tap, every other cell is unchanged; so no row
      keeps a "no transformer" tap. */
  lemma {:induction false} RepairTapsCells(g: Grid, c: nat)
    ensures |RepairTaps(g, c)| == |g|
    ensures forall i :: 0 <= i < |g| ==> |RepairTaps(g, c)[i]| == |g[i]|
    ensures forall i, j :: 0 <= i < |g| && 0 <= j < |g[i]| ==>
              RepairTaps(g, c)[i][j] == (if j == c && g[i][c] == NoTap then NeutralTap else g[i][j])
    ensures forall i :: 0 <= i < |g| && c < |g[i]| ==> RepairTaps(g, c)[i][c] != NoTap
  {
    if g != [] {
      RepairTapsCells(g[1..], c);
    }
  }

  /** Repairing the taps a second time changes nothing. */
  lemma {:induction false} RepairTapsIdempotent(g: Grid, c: nat)
    ensures RepairTaps(RepairTaps(g, c), c) == RepairTaps(g, c)
  {
    if g != [] {
      RepairTapsIdempotent(g[1..], c);
      assert RepairRow(RepairRow(g[0], c), c) == RepairRow(g[0], c);
      assert RepairTaps(g, c)[1..] == RepairTaps(g[1..], c);
    }
  }

  /** Shifting another column and repairing the taps commute, so the taps
      of a normalised table are the raw taps repaired, whatever the order. */
  lemma {:induction false} RepairCommutesWithOffset(g: Grid, c: nat, t: nat, delta: real)
    requires c != t
    ensures RepairTaps(OffsetColumn(g, c, delta), t) == OffsetColumn(RepairTaps(g, t), c, delta)
  {
    if g != [] {
      RepairCommutesWithOffset(g[1..], c, t, delta);
      assert RepairRow(OffsetRow(g[0], c, delta), t) == OffsetRow(RepairRow(g[0], t), c, delta);
      assert OffsetColumn(g, c, delta)[1..] == OffsetColumn(g[1..], c, delta);
      assert RepairTaps(g, t)[1..] == RepairTaps(g[1..], t);
    }
  }

  /** Sets every cell of column `c` of `a` that holds the "no transformer"
      tap to the neutral tap, in place. Column `c` must exist. */
  method RepairTapsInPlace(a: array2<real>, c: nat)
    requires c < a.Length1
    modifies a
    ensures Cells(a) == RepairTaps(old(Cells(a)), c)
  {
    CellsOf(a);
    ghost var before := Cells(a);
    var i := 0;
    while i < a.Length0
      invariant 0 <= i <= a.Length0
      invariant forall r, j :: 0 <= r < a.Length0 && 0 <= j < a.Length1 ==>
                  a[r, j] == (if r < i && j == c && before[r][c] == NoTap then NeutralTap else before[r][j])
    {
      if a[i, c] == NoTap {
        a[i, c] := NeutralTap;
      }
      i := i + 1;
    }
    CellsOf(a);
    ghost var after, want := Cells(a), RepairTaps(before, c);
    RepairTapsCells(before, c);
    forall r | 0 <= r < a.Length0
      ensures after[r] == want[r]
    {
      assert forall j :: 0 <= j < a.Length1 ==> after[r][j] == want[r][j];
    }
  }
}
