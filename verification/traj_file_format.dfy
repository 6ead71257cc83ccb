/**
 The trajectory format unifier, `file_format` of the format script (lines
 76-130): it takes a raw numeric table and the caller's column indices and
 returns the canonical table `id, frame, x, y, z`, sorted by id and frame.
 */
module TrajFileFormat {
  import opened Wrappers
  import opened Tables
  import opened StableSort
  import opened FrameSynthesis

  /** A raw numeric table: `width` columns (an empty table still has a width) and its rows. */
  datatype Table = Table(width: nat, rows: seq<Row>)

  /** A numpy 2-D array: every row has exactly `width` cells. */
  predicate Rectangular(t: Table) {
    forall r :: r in t.rows ==> |r| == t.width
  }

  /** The caller's column indices; `None` is Python's `None` (not given). */
  datatype Selector = Selector(id: Option<nat>, frame: Option<nat>, x: Option<nat>, y: Option<nat>, z: Option<nat>)

  datatype FormatError =
    | MissingId                     // ValueError: no pedestrian id column
    | MissingX                      // ValueError: no x column
    | MissingY                      // ValueError: no y column
    | ColumnOutOfRange(index: nat)  // numpy IndexError for `traj_data[:, index]`

  /** Positions of the canonical output columns (line 125). */
  const IdOut: nat := 0
  const FrameOut: nat := 1
  const XOut: nat := 2
  const YOut: nat := 3
  const ZOut: nat := 4

  predicate InRange(c: Option<nat>, width: nat) {
    c.None? || c.value < width
  }

  /** The selector names id, x and y, and every index it gives is a column of the table. */
  predicate Selects(sel: Selector, width: nat) {
    && sel.id.Some? && sel.x.Some? && sel.y.Some?
    && InRange(sel.id, width) && InRange(sel.frame, width) && InRange(sel.x, width)
    && InRange(sel.y, width) && InRange(sel.z, width)
  }

  /**
   `order` is the iteration order of `set(traj_data[:, id])` (line 111): it
   lists every id of the table once and nothing else.
   */
  predicate IdOrder(t: Table, sel: Selector, order: seq<real>)
    requires Rectangular(t)
  {
    sel.id.Some? && sel.id.value < t.width ==>
      Enumerates(order, Column(t.rows, sel.id.value))
  }

  /** A column of zeros: `np.zeros(n)`. */
  function Zeros(n: nat): seq<real> {
    seq(n, _ => 0.0)
  }

  /**
   First pass (lines 100-107): the same rows, ascending by id and then by x,
   rows with equal id and x in their input order.
   */
  function FirstPass(t: Table, sel: Selector): (sorted: seq<Row>)
    requires Rectangular(t) && Selects(sel, t.width)
    ensures multiset(sorted) == multiset(t.rows)
    ensures |sorted| == |t.rows| && forall r :: r in sorted ==> |r| == t.width
    ensures Keyed(sorted, sel.id.value, sel.x.value) && Sorted(sorted, sel.id.value, sel.x.value)
  {
    var sorted := SortBy(t.rows, sel.id.value, sel.x.value);
    assert forall r :: r in sorted ==> r in multiset(t.rows);
    sorted
  }

  /**
   The frame vector of lines 109-117: synthesised per pedestrian when no
   frame index is given, otherwise the frame column of the sorted rows.
   */
  function Frames(t: Table, sel: Selector, order: seq<real>): (f: seq<real>)
    requires Rectangular(t) && Selects(sel, t.width) && IdOrder(t, sel, order)
    ensures |f| == |t.rows|
  {
    var sorted := FirstPass(t, sel);
    if sel.frame.None? then
      ColumnPermutation(t.rows, sorted, sel.id.value);
      var ids := Column(sorted, sel.id.value);
      assert Covers(order, ids) by {
        forall v | v in ids
          ensures v in order
        {
          assert v in multiset(Column(t.rows, sel.id.value));
        }
      }
      FramesLength(ids, order);
      SynthFrames(ids, order)
    else
      Column(sorted, sel.frame.value)
  }

  /**
   The z vector of lines 119-122: the z column of the sorted rows when a z
   index is given, zeros otherwise.
   */
  function ZColumn(t: Table, sel: Selector): (z: seq<real>)
    requires Rectangular(t) && Selects(sel, t.width)
    ensures |z| == |t.rows|
  {
    var sorted := FirstPass(t, sel);
    if sel.z.None? then Zeros(|sorted|) else Column(sorted, sel.z.value)
  }

  /**
   The frame vector as it stands at line 125: line 122 rebinds `frames` to
   the z column whenever a z index is given, so the frame vector of lines
   109-117 survives only when z is absent.
   */
  function FrameColumn(t: Table, sel: Selector, order: seq<real>): (f: seq<real>)
    requires Rectangular(t) && Selects(sel, t.width) && IdOrder(t, sel, order)
    ensures |f| == |t.rows|
  {
    if sel.z.None? then Frames(t, sel, order) else ZColumn(t, sel)
  }

  /**
   The table column-stacked at line 125, before the second sort: row `k`
   is built from row `k` of the first pass and entry `k` of the frame and
   z vectors.
   */
  function Assemble(t: Table, sel: Selector, order: seq<real>): (a: seq<Row>)
    requires Rectangular(t) && Selects(sel, t.width) && IdOrder(t, sel, order)
    ensures |a| == |t.rows|
    ensures forall row :: row in a ==> |row| == 5
  {
    var sorted := FirstPass(t, sel);
    var frames := FrameColumn(t, sel, order);
    var z := ZColumn(t, sel);
    seq(|sorted|, k requires 0 <= k < |sorted| =>
      [sorted[k][sel.id.value], frames[k], sorted[k][sel.x.value], sorted[k][sel.y.value], z[k]])
  }

  /** Row `k` of the assembled table, cell by cell. */
  lemma AssembleRow(t: Table, sel: Selector, order: seq<real>, k: nat)
    requires Rectangular(t) && Selects(sel, t.width) && IdOrder(t, sel, order)
    requires k < |t.rows|
    ensures var sorted := FirstPass(t, sel);
      Assemble(t, sel, order)[k] ==
        [sorted[k][sel.id.value], FrameColumn(t, sel, order)[k], sorted[k][sel.x.value],
         sorted[k][sel.y.value], ZColumn(t, sel)[k]]
  {
  }

  /**
   Second pass (line 128): the assembled rows, ascending by id and then by
   frame, rows with equal id and frame in their assembled order.
   */
  function SecondPass(t: Table, sel: Selector, order: seq<real>): (out: seq<Row>)
    requires Rectangular(t) && Selects(sel, t.width) && IdOrder(t, sel, order)
    ensures multiset(out) == multiset(Assemble(t, sel, order))
    ensures |out| == |t.rows| && forall row :: row in out ==> |row| == 5
    ensures Keyed(out, IdOut, FrameOut) && Sorted(out, IdOut, FrameOut)
  {
    var assembled := Assemble(t, sel, order);
    var out := SortBy(assembled, IdOut, FrameOut);
    assert forall r :: r in out ==> r in multiset(assembled);
    out
  }

  /**
   `file_format`: the index checks of lines 91-98, the column reads in the
   order numpy performs them (x and id at line 104, frame at 117, z at 122,
   y at 125), then the two passes.
   */
  function FileFormat(t: Table, sel: Selector, order: seq<real>): (r: Result<seq<Row>, FormatError>)
    requires Rectangular(t) && IdOrder(t, sel, order)
    ensures sel.id.None? ==> r == Failure(MissingId)
    ensures sel.id.Some? && sel.x.None? ==> r == Failure(MissingX)
    ensures sel.id.Some? && sel.x.Some? && sel.y.None? ==> r == Failure(MissingY)
    ensures r.Success? <==> Selects(sel, t.width)
    ensures r.Failure? && r.error.ColumnOutOfRange? ==>
      r.error.index >= t.width && Some(r.error.index) in [sel.id, sel.frame, sel.x, sel.y, sel.z]
    ensures r.Success? ==> |r.value| == |t.rows| && forall row :: row in r.value ==> |row| == 5
    ensures r.Success? ==> Keyed(r.value, IdOut, FrameOut) && Sorted(r.value, IdOut, FrameOut)
  {
    if sel.id.None? then Failure(MissingId)
    else if sel.x.None? then Failure(MissingX)
    else if sel.y.None? then Failure(MissingY)
    else if sel.x.value >= t.width then Failure(ColumnOutOfRange(sel.x.value))
    else if sel.id.value >= t.width then Failure(ColumnOutOfRange(sel.id.value))
    else if sel.frame.Some? && sel.frame.value >= t.width then Failure(ColumnOutOfRange(sel.frame.value))
    else if sel.z.Some? && sel.z.value >= t.width then Failure(ColumnOutOfRange(sel.z.value))
    else if sel.y.value >= t.width then Failure(ColumnOutOfRange(sel.y.value))
    else Success(SecondPass(t, sel, order))
  }

  /** The first pass keeps rows with equal id and x in their input order. */
  lemma FirstPassStable(t: Table, sel: Selector)
    requires Rectangular(t) && Selects(sel, t.width)
    ensures forall k :: WithKey(FirstPass(t, sel), sel.id.value, sel.x.value, k) == WithKey(t.rows, sel.id.value, sel.x.value, k)
  {
  }

  /** The second pass keeps rows with equal id and frame in their assembled order. */
  lemma SecondPassStable(t: Table, sel: Selector, order: seq<real>)
    requires Rectangular(t) && Selects(sel, t.width) && IdOrder(t, sel, order)
    ensures forall k :: WithKey(SecondPass(t, sel, order), IdOut, FrameOut, k) == WithKey(Assemble(t, sel, order), IdOut, FrameOut, k)
  {
  }

  /** Once every index passes, the result is the second pass. */
  lemma Succeeds(t: Table, sel: Selector, order: seq<real>)
    requires Rectangular(t) && Selects(sel, t.width) && IdOrder(t, sel, order)
    ensures FileFormat(t, sel, order) == Success(SecondPass(t, sel, order))
  {
  }

  /**
   The output layout when no frame is synthesised, as lines 117-125 build
   it: id, then the frame source (the z column whenever a z index is given,
   since line 122 rebinds `frames`), x, y, and z or zeros.
   */
  function Layout(sel: Selector): seq<Source>
    requires sel.id.Some? && sel.x.Some? && sel.y.Some? && (sel.frame.Some? || sel.z.Some?)
  {
    var frameSource := if sel.z.Some? then Col(sel.z.value) else Col(sel.frame.value);
    var zSource := if sel.z.Some? then Col(sel.z.value) else Zero;
    [Col(sel.id.value), frameSource, Col(sel.x.value), Col(sel.y.value), zSource]
  }

  /** A row projected through `Layout`, cell by cell. */
  lemma LayoutRow(sel: Selector, r: Row)
    requires sel.id.Some? && sel.x.Some? && sel.y.Some? && (sel.frame.Some? || sel.z.Some?)
    requires Fits(Layout(sel), |r|)
    ensures ProjectRow(r, Layout(sel)) ==
      [r[sel.id.value], if sel.z.Some? then r[sel.z.value] else r[sel.frame.value],
       r[sel.x.value], r[sel.y.value], if sel.z.Some? then r[sel.z.value] else 0.0]
  {
  }

  /** Row `k` of the assembled table is row `k` of the first pass projected through `Layout`. */
  lemma AssembleRowProjects(t: Table, sel: Selector, order: seq<real>, k: nat)
    requires Rectangular(t) && Selects(sel, t.width) && IdOrder(t, sel, order)
    requires sel.frame.Some? || sel.z.Some?
    requires k < |t.rows|
    ensures Fits(Layout(sel), |FirstPass(t, sel)[k]|)
    ensures Assemble(t, sel, order)[k] == ProjectRow(FirstPass(t, sel)[k], Layout(sel))
  {
    var sorted := FirstPass(t, sel);
    assert sorted[k] in sorted;
    AssembleRow(t, sel, order, k);
    LayoutRow(sel, sorted[k]);
    if sel.z.None? {
      assert FrameColumn(t, sel, order)[k] == sorted[k][sel.frame.value];
    }
  }

  /** With a frame or z index given, the assembled table is the first-pass rows projected through `Layout`. */
  lemma AssembleProjects(t: Table, sel: Selector, order: seq<real>)
    requires Rectangular(t) && Selects(sel, t.width) && IdOrder(t, sel, order)
    requires sel.frame.Some? || sel.z.Some?
    ensures forall r :: r in FirstPass(t, sel) ==> Fits(Layout(sel), |r|)
    ensures Assemble(t, sel, order) == ProjectRows(FirstPass(t, sel), Layout(sel))
  {
    var sorted := FirstPass(t, sel);
    var cells := Layout(sel);
    assert forall r :: r in sorted ==> Fits(cells, |r|);
    var a := Assemble(t, sel, order);
    var p := ProjectRows(sorted, cells);
    forall k | 0 <= k < |a|
      ensures a[k] == p[k]
    {
      AssembleRowProjects(t, sel, order, k);
    }
  }

  /**
   With a frame or z index given, the output holds exactly the input rows
   rearranged through `Layout`, each as often as in the input; with only a
   frame index that is the frame column verbatim and a zero z column.
   */
  lemma ProjectsInput(t: Table, sel: Selector, order: seq<real>)
    requires Rectangular(t) && Selects(sel, t.width) && IdOrder(t, sel, order)
    requires sel.frame.Some? || sel.z.Some?
    ensures forall r :: r in t.rows ==> Fits(Layout(sel), |r|)
    ensures FileFormat(t, sel, order).Success?
    ensures multiset(FileFormat(t, sel, order).value) == multiset(ProjectRows(t.rows, Layout(sel)))
  {
    var sorted := FirstPass(t, sel);
    AssembleProjects(t, sel, order);
    ProjectionPermutation(sorted, t.rows, Layout(sel));
    Succeeds(t, sel, order);
  }

  /**
   With a frame index and no z index, the output rows are the input's id,
   frame, x and y read verbatim, each input row once, with z = 0.
   */
  lemma FrameVerbatim(t: Table, sel: Selector, order: seq<real>)
    requires Rectangular(t) && Selects(sel, t.width) && IdOrder(t, sel, order)
    requires sel.frame.Some? && sel.z.None?
    ensures FileFormat(t, sel, order).Success?
    ensures forall r :: r in t.rows ==> Fits([Col(sel.id.value), Col(sel.frame.value), Col(sel.x.value), Col(sel.y.value), Zero], |r|)
    ensures multiset(FileFormat(t, sel, order).value) ==
      multiset(ProjectRows(t.rows, [Col(sel.id.value), Col(sel.frame.value), Col(sel.x.value), Col(sel.y.value), Zero]))
    ensures forall row :: row in FileFormat(t, sel, order).value ==> row[ZOut] == 0.0
  {
    ProjectsInput(t, sel, order);
    var out := FileFormat(t, sel, order).value;
    var p := ProjectRows(t.rows, Layout(sel));
    forall row | row in out
      ensures row[ZOut] == 0.0
    {
      assert row in multiset(p);
      var k :| 0 <= k < |p| && p[k] == row;
      LayoutRow(sel, t.rows[k]);
    }
  }

  /** With a z index given, every row of the assembled table repeats its z value in the frame column. */
  lemma AssembleFrameIsZ(t: Table, sel: Selector, order: seq<real>)
    requires Rectangular(t) && Selects(sel, t.width) && IdOrder(t, sel, order)
    requires sel.z.Some?
    ensures forall row :: row in Assemble(t, sel, order) ==> row[FrameOut] == row[ZOut]
  {
    var a := Assemble(t, sel, order);
    forall row | row in a
      ensures row[FrameOut] == row[ZOut]
    {
      var k :| 0 <= k < |a| && a[k] == row;
      AssembleRow(t, sel, order, k);
    }
  }

  /**
   Line 122 rebinds `frames` to the z column: whenever a z index is given,
   every output row carries its z value in the frame column.
   */
  lemma ZOverwritesFrame(t: Table, sel: Selector, order: seq<real>)
    requires Rectangular(t) && Selects(sel, t.width) && IdOrder(t, sel, order)
    requires sel.z.Some?
    ensures FileFormat(t, sel, order).Success?
    ensures forall row :: row in FileFormat(t, sel, order).value ==> row[FrameOut] == row[ZOut]
  {
    Succeeds(t, sel, order);
    var out := SecondPass(t, sel, order);
    AssembleFrameIsZ(t, sel, order);
    assert forall row :: row in out ==> row in multiset(Assemble(t, sel, order));
  }

  /**
   With a z index given the frame index is read (and can fail the bounds
   check) but its values never reach the output: the result is the one
   obtained with no frame index at all.
   */
  lemma FrameIgnoredUnderZ(t: Table, sel: Selector, order: seq<real>)
    requires Rectangular(t) && Selects(sel, t.width) && IdOrder(t, sel, order)
    requires sel.z.Some?
    ensures Selects(sel.(frame := None), t.width) && IdOrder(t, sel.(frame := None), order)
    ensures FileFormat(t, sel, order) == FileFormat(t, sel.(frame := None), order)
  {
    var sel' := sel.(frame := None);
    assert FirstPass(t, sel) == FirstPass(t, sel');
    assert ZColumn(t, sel) == ZColumn(t, sel');
    assert Assemble(t, sel, order) == Assemble(t, sel', order);
    Succeeds(t, sel, order);
    Succeeds(t, sel', order);
  }

  /**
   A frame column of value 7 at index 1 and a z column of value 0 at index
   4: line 122 replaces the frame 7 by the z value, and the row comes back
   with frame 0.
   */
  const WitnessTable := Table(5, [[1.0, 7.0, 2.0, 3.0, 0.0]])
  const WitnessSelector := Selector(Some(0), Some(1), Some(2), Some(3), Some(4))

  lemma ZIndexWitness()
    ensures IdOrder(WitnessTable, WitnessSelector, [1.0])
    ensures FileFormat(WitnessTable, WitnessSelector, [1.0]) == Success([[1.0, 0.0, 2.0, 3.0, 0.0]])
  {
    var t, sel := WitnessTable, WitnessSelector;
    var row, expected := [1.0, 7.0, 2.0, 3.0, 0.0], [1.0, 0.0, 2.0, 3.0, 0.0];
    assert Column(t.rows, 0) == [1.0];
    ProjectsInput(t, sel, [1.0]);
    LayoutRow(sel, row);
    assert ProjectRows(t.rows, Layout(sel)) == [expected];
    var out := FileFormat(t, sel, [1.0]).value;
    assert |out| == 1 && out[0] in multiset(out);
    assert multiset(out) == multiset{expected};
    assert out == [out[0]];
  }

  /** The id, x and y columns of the output. */
  const OutTriple: seq<Source> := [Col(IdOut), Col(XOut), Col(YOut)]

  /** The id, x and y columns the selector names. */
  function InTriple(sel: Selector): seq<Source>
    requires sel.id.Some? && sel.x.Some? && sel.y.Some?
  {
    [Col(sel.id.value), Col(sel.x.value), Col(sel.y.value)]
  }

  /** Row `k` of the assembled table carries row `k` of the first pass's id, x and y. */
  lemma AssembleTripleRow(t: Table, sel: Selector, order: seq<real>, k: nat)
    requires Rectangular(t) && Selects(sel, t.width) && IdOrder(t, sel, order)
    requires k < |t.rows|
    ensures Fits(InTriple(sel), |FirstPass(t, sel)[k]|) && Fits(OutTriple, |Assemble(t, sel, order)[k]|)
    ensures ProjectRow(Assemble(t, sel, order)[k], OutTriple) == ProjectRow(FirstPass(t, sel)[k], InTriple(sel))
  {
    var sorted := FirstPass(t, sel);
    assert sorted[k] in sorted;
    AssembleRow(t, sel, order, k);
    var row := Assemble(t, sel, order)[k];
    ProjectTriple(row, IdOut, XOut, YOut);
    ProjectTriple(sorted[k], sel.id.value, sel.x.value, sel.y.value);
  }

  /** The assembled table's (id, x, y) triples are the first pass's, row for row. */
  lemma AssembleTriples(t: Table, sel: Selector, order: seq<real>)
    requires Rectangular(t) && Selects(sel, t.width) && IdOrder(t, sel, order)
    ensures forall r :: r in FirstPass(t, sel) ==> Fits(InTriple(sel), |r|)
    ensures forall r :: r in Assemble(t, sel, order) ==> Fits(OutTriple, |r|)
    ensures ProjectRows(Assemble(t, sel, order), OutTriple) == ProjectRows(FirstPass(t, sel), InTriple(sel))
  {
    var a := Assemble(t, sel, order);
    var sorted := FirstPass(t, sel);
    assert forall r :: r in sorted ==> Fits(InTriple(sel), |r|);
    var pa := ProjectRows(a, OutTriple);
    var ps := ProjectRows(sorted, InTriple(sel));
    forall k | 0 <= k < |a|
      ensures pa[k] == ps[k]
    {
      AssembleTripleRow(t, sel, order, k);
    }
  }

  /**
   Whatever the frame and z indices and the enumeration order, a successful
   call keeps every (id, x, y) triple of the input exactly as often as it
   occurs: no position is lost, duplicated or invented.
   */
  lemma PermutesTriples(t: Table, sel: Selector, order: seq<real>)
    requires Rectangular(t) && Selects(sel, t.width) && IdOrder(t, sel, order)
    ensures FileFormat(t, sel, order).Success?
    ensures forall r :: r in t.rows ==> Fits(InTriple(sel), |r|)
    ensures forall r :: r in FileFormat(t, sel, order).value ==> Fits(OutTriple, |r|)
    ensures multiset(ProjectRows(FileFormat(t, sel, order).value, OutTriple)) == multiset(ProjectRows(t.rows, InTriple(sel)))
  {
    var a := Assemble(t, sel, order);
    var out := SecondPass(t, sel, order);
    AssembleTriples(t, sel, order);
    ProjectionPermutation(a, out, OutTriple);
    ProjectionPermutation(FirstPass(t, sel), t.rows, InTriple(sel));
    Succeeds(t, sel, order);
  }

  /**
   The rows a recording with neither frame nor z column ought to yield:
   each first-pass row as its id, the number of earlier rows of the same
   pedestrian, its x and y, and z = 0.
   */
  function Numbered(p: seq<Row>, sel: Selector): (rows: seq<Row>)
    requires sel.id.Some? && sel.x.Some? && sel.y.Some?
    requires HasColumn(p, sel.id.value) && HasColumn(p, sel.x.value) && HasColumn(p, sel.y.value)
    ensures |rows| == |p| && forall r :: r in rows ==> |r| == 5
  {
    var ids := Column(p, sel.id.value);
    seq(|p|, k requires 0 <= k < |p| =>
      [p[k][sel.id.value], Rank(ids, k) as real, p[k][sel.x.value], p[k][sel.y.value], 0.0])
  }

  /** Numbering rows sorted by id gives rows strictly ascending by (id, frame). */
  lemma NumberedStrictlySorted(p: seq<Row>, sel: Selector)
    requires sel.id.Some? && sel.x.Some? && sel.y.Some?
    requires Keyed(p, sel.id.value, sel.x.value) && HasColumn(p, sel.y.value)
    requires Sorted(p, sel.id.value, sel.x.value)
    ensures Keyed(Numbered(p, sel), IdOut, FrameOut)
    ensures StrictlySorted(Numbered(p, sel), IdOut, FrameOut)
  {
    var n := Numbered(p, sel);
    var ids := Column(p, sel.id.value);
    forall i, j | 0 <= i < j < |n|
      ensures KeyLe(KeyOf(n[i], IdOut, FrameOut), KeyOf(n[j], IdOut, FrameOut))
      ensures KeyOf(n[i], IdOut, FrameOut) != KeyOf(n[j], IdOut, FrameOut)
    {
      assert KeyLe(KeyOf(p[i], sel.id.value, sel.x.value), KeyOf(p[j], sel.id.value, sel.x.value));
      if ids[i] == ids[j] {
        RankIncreases(ids, i, j);
      }
    }
  }

  /** The ids of the first pass are ascending and enumerated by `order`. */
  lemma FirstPassIds(t: Table, sel: Selector, order: seq<real>)
    requires Rectangular(t) && Selects(sel, t.width) && IdOrder(t, sel, order)
    ensures NonDecreasing(Column(FirstPass(t, sel), sel.id.value))
    ensures Covers(order, Column(FirstPass(t, sel), sel.id.value))
  {
    var p := FirstPass(t, sel);
    var ids := Column(p, sel.id.value);
    ColumnPermutation(t.rows, p, sel.id.value);
    forall v | v in ids
      ensures v in order
    {
      assert v in multiset(Column(t.rows, sel.id.value));
    }
    forall i, j | 0 <= i < j < |ids|
      ensures ids[i] <= ids[j]
    {
      assert KeyLe(KeyOf(p[i], sel.id.value, sel.x.value), KeyOf(p[j], sel.id.value, sel.x.value));
    }
  }

  /** With no frame and no z index and ids enumerated in ascending order, the assembled table is `Numbered`. */
  lemma AssembleNumbered(t: Table, sel: Selector, order: seq<real>)
    requires Rectangular(t) && Selects(sel, t.width) && IdOrder(t, sel, order)
    requires sel.frame.None? && sel.z.None? && Ascending(order)
    ensures Assemble(t, sel, order) == Numbered(FirstPass(t, sel), sel)
  {
    var p := FirstPass(t, sel);
    var ids := Column(p, sel.id.value);
    FirstPassIds(t, sel, order);
    FramesAligned(ids, order);
    assert FrameColumn(t, sel, order) == SynthFrames(ids, order);
    var a := Assemble(t, sel, order);
    var n := Numbered(p, sel);
    forall k | 0 <= k < |a|
      ensures a[k] == n[k]
    {
      AssembleRow(t, sel, order, k);
    }
  }

  /**
   When the set of ids happens to be enumerated in ascending order, a
   recording without frame and z columns comes out with the frames `0, 1,
   ...` of each pedestrian in first-pass order, and the second sort leaves
   it as assembled.
   */
  lemma SynthesizedFramesAligned(t: Table, sel: Selector, order: seq<real>)
    requires Rectangular(t) && Selects(sel, t.width) && IdOrder(t, sel, order)
    requires sel.frame.None? && sel.z.None? && Ascending(order)
    ensures FileFormat(t, sel, order) == Success(Numbered(FirstPass(t, sel), sel))
  {
    var p := FirstPass(t, sel);
    AssembleNumbered(t, sel, order);
    NumberedStrictlySorted(p, sel);
    SortedFixpoint(Assemble(t, sel, order), IdOut, FrameOut);
    Succeeds(t, sel, order);
  }

  /** The selector that reads a table already in the output layout, without a z index. */
  const Canonical := Selector(Some(IdOut), Some(FrameOut), Some(XOut), Some(YOut), None)

  /** A row in the output layout with z = 0 is its own projection through the canonical layout. */
  lemma CanonicalRow(r: Row)
    requires |r| == 5 && r[ZOut] == 0.0
    ensures Fits(Layout(Canonical), |r|)
    ensures ProjectRow(r, Layout(Canonical)) == r
  {
    LayoutRow(Canonical, r);
    assert r == [r[0], r[1], r[2], r[3], r[4]];
  }

  /** On a table in the output layout, the assembled table is the first pass itself. */
  lemma CanonicalAssemble(t: Table, order: seq<real>)
    requires Rectangular(t) && t.width == 5
    requires forall r :: r in t.rows ==> r[ZOut] == 0.0
    requires IdOrder(t, Canonical, order)
    ensures Assemble(t, Canonical, order) == FirstPass(t, Canonical)
  {
    var p := FirstPass(t, Canonical);
    AssembleProjects(t, Canonical, order);
    var q := ProjectRows(p, Layout(Canonical));
    forall k | 0 <= k < |p|
      ensures q[k] == p[k]
    {
      assert p[k] in multiset(t.rows);
      CanonicalRow(p[k]);
    }
  }

  /**
   Formatting an already formatted table (distinct (id, frame) pairs,
   ascending, z = 0) with the indices of the output layout and no z index
   returns it unchanged.
   */
  lemma IdempotentOnCanonical(t: Table, order: seq<real>)
    requires Rectangular(t) && t.width == 5
    requires StrictlySorted(t.rows, IdOut, FrameOut)
    requires forall r :: r in t.rows ==> r[ZOut] == 0.0
    requires IdOrder(t, Canonical, order)
    ensures FileFormat(t, Canonical, order) == Success(t.rows)
  {
    CanonicalAssemble(t, order);
    var out := SecondPass(t, Canonical, order);
    StrictlySortedUnique(out, t.rows, IdOut, FrameOut);
    Succeeds(t, Canonical, order);
  }

  // The scenario lemmas take their constants as parameters fixed by `requires`:
  // given literal arguments, the verifier unfolds the sort eagerly and runs out of resource.
  const ScenarioTable := Table(3, [[1.0, 0.0, 5.0], [1.0, 0.0, 3.0], [2.0, 0.0, 9.0]])
  const ScenarioSelector := Selector(Some(0), None, Some(1), Some(2), None)
  const ScenarioOutput: seq<Row> := [[1.0, 0.0, 0.0, 5.0, 0.0], [1.0, 1.0, 0.0, 3.0, 0.0], [2.0, 0.0, 0.0, 9.0, 0.0]]

  /**
   Two rows of pedestrian 1 tied on (id, x) and one row of pedestrian 2, no
   frame and no z column, ids enumerated as `1, 2`: the tied rows keep their
   order and are numbered 0 and 1, pedestrian 2 starts at 0.
   */
  lemma ScenarioExample(t: Table, sel: Selector, order: seq<real>)
    requires t == ScenarioTable && sel == ScenarioSelector && order == [1.0, 2.0]
    ensures IdOrder(t, sel, order)
    ensures FileFormat(t, sel, order) == Success(ScenarioOutput)
  {
    ScenarioIds(t.rows, order);
    ScenarioFirstPass(t, sel);
    ScenarioNumbered(t.rows, sel);
    SynthesizedFramesAligned(t, sel, order);
  }

  /** The scenario's id column and its enumeration `1, 2`. */
  lemma ScenarioIds(rows: seq<Row>, order: seq<real>)
    requires rows == ScenarioTable.rows && order == [1.0, 2.0]
    ensures HasColumn(rows, 0) && Enumerates(order, Column(rows, 0)) && Ascending(order)
  {
    var ids := Column(rows, 0);
    assert ids == [1.0, 1.0, 2.0];
    assert ids[2] == 2.0 && ids[0] == 1.0;
  }

  /** The scenario's rows are already ascending by (id, x), so the first pass keeps them. */
  lemma ScenarioFirstPass(t: Table, sel: Selector)
    requires t == ScenarioTable && sel == ScenarioSelector
    ensures FirstPass(t, sel) == t.rows
  {
    assert Sorted(t.rows, 0, 1);
    SortedFixpoint(t.rows, 0, 1);
  }

  lemma ScenarioNumbered(rows: seq<Row>, sel: Selector)
    requires rows == ScenarioTable.rows && sel == ScenarioSelector
    ensures Numbered(rows, sel) == ScenarioOutput
  {
    var ids := Column(rows, 0);
    assert ids == [1.0, 1.0, 2.0];
    assert ids[..1] == [1.0] && ids[..2] == [1.0, 1.0];
    var n := Numbered(rows, sel);
    assert n[0] == ScenarioOutput[0] by { assert Rank(ids, 0) == 0; }
    assert n[1] == ScenarioOutput[1] by { assert Rank(ids, 1) == 1; }
    assert n[2] == ScenarioOutput[2] by { assert Rank(ids, 2) == 0; }
  }
}
