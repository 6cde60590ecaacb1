/** The flow field of sketch.js: the cell sizes from initializeFlowField and
    the per-frame refresh of updateFlowfield, given as specification functions
    and the lemmas that say what a refresh leaves in the field. The field is a
    map from slot to vector; the slot of cell (x, y) is x + y * scly, the
    formula the sketch writes with and the particles read with. */
module FlowField {
  import opened P5
  import opened Config

  /** floor(extent / cells): the pixel size of one cell along an axis. */
  function CellSize(extent: nat, cells: nat): (size: nat)
    requires 1 <= cells
    ensures size * cells <= extent < (size + 1) * cells
  {
    extent / cells
  }

  /** The slot of cell (x, y). scly is the cell height in pixels, not the
      number of columns, so two cells can share a slot (see ShortCellsCollide). */
  function Index(x: int, y: int, scly: int): int { x + y * scly }

  /** Cell j of an axis of len cells lies in the first half: j < len / 2,
      compared as numbers. */
  predicate FirstHalf(j: nat, len: nat) { (j as real) < (len as real) / 2.0 }

  /** The noise offset used at cell n of an axis of len cells: starting from 0,
      each earlier cell adds inc if it lies in the first half of the axis and
      subtracts inc otherwise. */
  function Offset(n: nat, len: nat, inc: real): real
  {
    if n == 0 then 0.0
    else Offset(n - 1, len, inc) + (if FirstHalf(n - 1, len) then inc else -inc)
  }

  /** The number of cells of an axis of len cells that lie in its first half. */
  function Half(len: nat): nat { (len + 1) / 2 }

  function Min(a: int, b: int): int { if a <= b then a else b }

  /** The cells before cell n that lie in the first half, and those that do not. */
  function FirstHalfBefore(n: nat, len: nat): set<nat> { set j: nat | j < n && FirstHalf(j, len) }
  function SecondHalfBefore(n: nat, len: nat): set<nat> { set j: nat | j < n && !FirstHalf(j, len) }

  lemma HalfCounts(j: nat, len: nat)
    ensures FirstHalf(j, len) <==> j < Half(len)
  {
    if j < Half(len) {
      assert 2 * j < len;
      assert (2 * j) as real < len as real;
    } else {
      assert len <= 2 * j;
      assert len as real <= (2 * j) as real;
    }
  }

  /** The cell numbers a .. b-1. */
  function Range(a: nat, b: nat): set<nat>
    decreases b
  {
    if b <= a then {} else Range(a, b - 1) + {b - 1}
  }

  lemma {:induction false} RangeFacts(a: nat, b: nat)
    ensures forall j: nat :: j in Range(a, b) <==> a <= j < b
    ensures a <= b ==> |Range(a, b)| == b - a
    decreases b
  {
    if a < b {
      RangeFacts(a, b - 1);
    }
  }

  /** The two halves before cell n are ranges of cell numbers. */
  lemma HalvesBefore(n: nat, len: nat)
    ensures |FirstHalfBefore(n, len)| == Min(n, Half(len))
    ensures |SecondHalfBefore(n, len)| == n - Min(n, Half(len))
  {
    var h := Min(n, Half(len));
    forall j: nat
      ensures FirstHalf(j, len) <==> j < Half(len)
    {
      HalfCounts(j, len);
    }
    RangeFacts(0, h);
    RangeFacts(h, n);
    assert FirstHalfBefore(n, len) == Range(0, h);
    assert SecondHalfBefore(n, len) == Range(h, n);
  }

  lemma {:induction false} OffsetClosedForm(n: nat, len: nat, inc: real)
    ensures Offset(n, len, inc) == inc * ((2 * Min(n, Half(len)) - n) as real)
  {
    if n > 0 {
      OffsetClosedForm(n - 1, len, inc);
      HalfCounts(n - 1, len);
      var before := 2 * Min(n - 1, Half(len)) - (n - 1);
      if n - 1 < Half(len) {
        assert 2 * Min(n, Half(len)) - n == before + 1;
        assert inc * ((before + 1) as real) == inc * (before as real) + inc;
      } else {
        assert 2 * Min(n, Half(len)) - n == before - 1;
        assert inc * ((before - 1) as real) == inc * (before as real) - inc;
      }
    }
  }

  /** The offset at cell n is inc times the number of first-half cells before n
      minus the number of second-half cells before n. */
  lemma OffsetCounts(n: nat, len: nat, inc: real)
    ensures Offset(n, len, inc)
         == inc * ((|FirstHalfBefore(n, len)| - |SecondHalfBefore(n, len)|) as real)
  {
    OffsetClosedForm(n, len, inc);
    HalvesBefore(n, len);
  }

  /** Every offset sampled along an axis is non-negative when the increment is. */
  lemma OffsetNonNegative(n: nat, len: nat, inc: real)
    requires 0.0 <= inc && n <= len
    ensures 0.0 <= Offset(n, len, inc)
  {
    OffsetClosedForm(n, len, inc);
    assert 0 <= 2 * Min(n, Half(len)) - n;
  }

  /** Every offset is at most inc times the first half's length: the offset
      climbs through the first half and falls back through the second. */
  lemma OffsetBounded(n: nat, len: nat, inc: real)
    requires 0.0 <= inc
    ensures Offset(n, len, inc) <= inc * (Half(len) as real)
  {
    OffsetClosedForm(n, len, inc);
    var c := 2 * Min(n, Half(len)) - n;
    assert Offset(n, len, inc) == inc * (c as real);
    assert c as real <= Half(len) as real;
    ScaleMonotone(inc, c as real, Half(len) as real);
  }

  lemma ScaleMonotone(k: real, a: real, b: real)
    requires 0.0 <= k && a <= b
    ensures k * a <= k * b
  {
    assert k * b - k * a == k * (b - a);
  }

  /** After the whole axis the offset is back at 0, or at inc for an odd length. */
  lemma OffsetAtEnd(len: nat, inc: real)
    ensures Offset(len, len, inc) == if len % 2 == 0 then 0.0 else inc
  {
    OffsetClosedForm(len, len, inc);
    assert Min(len, Half(len)) == Half(len);
    if len % 2 == 0 {
      assert 2 * Half(len) - len == 0;
    } else {
      assert 2 * Half(len) - len == 1;
    }
  }

  /** The vector updateFlowfield stores for cell (x, y) in the pass that uses
      noise time zoff: fromAngle(noise(xoff, yoff, zoff) * TWO_PI * 2). */
  function CellVector(lib: Library, s: Settings, zoff: real, x: nat, y: nat): Vec
  {
    var xoff := Offset(x, s.columns, s.xyIncrement);
    var yoff := Offset(y, s.rows, s.xyIncrement);
    lib.fromAngle(lib.noise(s.octaves, s.falloff, xoff, yoff, zoff) * TWO_PI * 2.0)
  }

  /** The field after the inner loop has written columns 0 .. n-1 of row y. */
  function WriteRow(f: map<int, Vec>, s: Settings, scly: nat, zoff: real, lib: Library, y: nat, n: nat): map<int, Vec>
  {
    if n == 0 then f
    else WriteRow(f, s, scly, zoff, lib, y, n - 1)[Index(n - 1, y, scly) := CellVector(lib, s, zoff, n - 1, y)]
  }

  /** The field after the outer loop has written rows 0 .. m-1. */
  function WriteGrid(f: map<int, Vec>, s: Settings, scly: nat, zoff: real, lib: Library, m: nat): map<int, Vec>
  {
    if m == 0 then f
    else WriteRow(WriteGrid(f, s, scly, zoff, lib, m - 1), s, scly, zoff, lib, m - 1, s.columns)
  }

  /** The field after one call of updateFlowfield. */
  function Refresh(f: map<int, Vec>, s: Settings, scly: nat, zoff: real, lib: Library): map<int, Vec>
  {
    WriteGrid(f, s, scly, zoff, lib, s.rows)
  }

  /** The slots of columns 0 .. n-1 of row y, and of all columns of rows 0 .. m-1. */
  function RowSlots(y: nat, n: nat, scly: nat): set<int> { set x: nat | x < n :: Index(x, y, scly) }
  function GridSlots(columns: nat, m: nat, scly: nat): set<int>
  {
    set x: nat, y: nat | x < columns && y < m :: Index(x, y, scly)
  }

  /** No cell of a later row (before row m) shares the slot of cell (x, y).
      Cells of one row never share a slot, so this says that the write of
      (x, y) is the last write to its slot. */
  ghost predicate NotOverwritten(x: nat, y: nat, m: nat, columns: nat, scly: nat)
  {
    forall x2: nat, y2: nat :: x2 < columns && y < y2 < m ==> Index(x2, y2, scly) != Index(x, y, scly)
  }

  /** Cell (x, y) of the grid is the last one, in the loops' row-major order,
      to write its slot. */
  ghost predicate LastWriter(x: nat, y: nat, s: Settings, scly: nat)
  {
    x < s.columns && y < s.rows && NotOverwritten(x, y, s.rows, s.columns, scly)
  }

  lemma {:induction false} WriteRowFacts(f: map<int, Vec>, s: Settings, scly: nat, zoff: real, lib: Library, y: nat, n: nat)
    ensures forall k :: k in WriteRow(f, s, scly, zoff, lib, y, n) <==> k in f || k in RowSlots(y, n, scly)
    ensures forall x: nat :: x < n ==>
      Index(x, y, scly) in WriteRow(f, s, scly, zoff, lib, y, n) &&
      WriteRow(f, s, scly, zoff, lib, y, n)[Index(x, y, scly)] == CellVector(lib, s, zoff, x, y)
    ensures forall k :: k in f && k !in RowSlots(y, n, scly) ==> WriteRow(f, s, scly, zoff, lib, y, n)[k] == f[k]
  {
    if n == 0 {
      assert RowSlots(y, n, scly) == {};
    } else {
      WriteRowFacts(f, s, scly, zoff, lib, y, n - 1);
      assert RowSlots(y, n, scly) == RowSlots(y, n - 1, scly) + {Index(n - 1, y, scly)};
    }
  }

  lemma {:induction false} WriteGridFrame(f: map<int, Vec>, s: Settings, scly: nat, zoff: real, lib: Library, m: nat)
    ensures forall k :: k in WriteGrid(f, s, scly, zoff, lib, m) <==> k in f || k in GridSlots(s.columns, m, scly)
    ensures forall k :: k in f && k !in GridSlots(s.columns, m, scly) ==> WriteGrid(f, s, scly, zoff, lib, m)[k] == f[k]
  {
    if m == 0 {
      assert GridSlots(s.columns, m, scly) == {};
    } else {
      var g := WriteGrid(f, s, scly, zoff, lib, m - 1);
      WriteGridFrame(f, s, scly, zoff, lib, m - 1);
      WriteRowFacts(g, s, scly, zoff, lib, m - 1, s.columns);
      assert GridSlots(s.columns, m, scly) == GridSlots(s.columns, m - 1, scly) + RowSlots(m - 1, s.columns, scly);
    }
  }

  lemma {:induction false} WriteGridLast(f: map<int, Vec>, s: Settings, scly: nat, zoff: real, lib: Library, m: nat, x: nat, y: nat)
    requires x < s.columns && y < m
    requires NotOverwritten(x, y, m, s.columns, scly)
    ensures Index(x, y, scly) in WriteGrid(f, s, scly, zoff, lib, m)
    ensures WriteGrid(f, s, scly, zoff, lib, m)[Index(x, y, scly)] == CellVector(lib, s, zoff, x, y)
  {
    var g := WriteGrid(f, s, scly, zoff, lib, m - 1);
    WriteRowFacts(g, s, scly, zoff, lib, m - 1, s.columns);
    if y == m - 1 {
      assert Index(x, y, scly) in RowSlots(m - 1, s.columns, scly);
    } else {
      WriteGridLast(f, s, scly, zoff, lib, m - 1, x, y);
      WriteGridFrame(f, s, scly, zoff, lib, m - 1);
      assert Index(x, y, scly) in GridSlots(s.columns, m - 1, scly);
      assert Index(x, y, scly) !in RowSlots(m - 1, s.columns, scly);
    }
  }

  lemma {:induction false} WriteGridRebuildsAt(f1: map<int, Vec>, f2: map<int, Vec>, s: Settings, scly: nat, zoff: real, lib: Library, m: nat, k: int)
    requires k in GridSlots(s.columns, m, scly)
    ensures k in WriteGrid(f1, s, scly, zoff, lib, m) && k in WriteGrid(f2, s, scly, zoff, lib, m)
    ensures WriteGrid(f1, s, scly, zoff, lib, m)[k] == WriteGrid(f2, s, scly, zoff, lib, m)[k]
  {
    var x: nat, y: nat :| x < s.columns && y < m && Index(x, y, scly) == k;
    var g1 := WriteGrid(f1, s, scly, zoff, lib, m - 1);
    var g2 := WriteGrid(f2, s, scly, zoff, lib, m - 1);
    WriteRowFacts(g1, s, scly, zoff, lib, m - 1, s.columns);
    WriteRowFacts(g2, s, scly, zoff, lib, m - 1, s.columns);
    assert WriteGrid(f1, s, scly, zoff, lib, m) == WriteRow(g1, s, scly, zoff, lib, m - 1, s.columns);
    assert WriteGrid(f2, s, scly, zoff, lib, m) == WriteRow(g2, s, scly, zoff, lib, m - 1, s.columns);
    if y == m - 1 {
      assert k in RowSlots(m - 1, s.columns, scly);
      assert WriteRow(g1, s, scly, zoff, lib, m - 1, s.columns)[k] == CellVector(lib, s, zoff, x, y);
      assert WriteRow(g2, s, scly, zoff, lib, m - 1, s.columns)[k] == CellVector(lib, s, zoff, x, y);
    } else if k in RowSlots(m - 1, s.columns, scly) {
      var x1: nat :| x1 < s.columns && Index(x1, m - 1, scly) == k;
      assert WriteRow(g1, s, scly, zoff, lib, m - 1, s.columns)[k] == CellVector(lib, s, zoff, x1, m - 1);
      assert WriteRow(g2, s, scly, zoff, lib, m - 1, s.columns)[k] == CellVector(lib, s, zoff, x1, m - 1);
    } else {
      assert k in GridSlots(s.columns, m - 1, scly);
      WriteGridRebuildsAt(f1, f2, s, scly, zoff, lib, m - 1, k);
    }
  }

  /** A refresh writes a vector at the slot of every grid cell and at no other
      slot: every other slot keeps what it held before. */
  lemma RefreshFrame(f: map<int, Vec>, s: Settings, scly: nat, zoff: real, lib: Library)
    ensures forall x: nat, y: nat :: x < s.columns && y < s.rows ==> Index(x, y, scly) in Refresh(f, s, scly, zoff, lib)
    ensures Refresh(f, s, scly, zoff, lib).Keys == f.Keys + GridSlots(s.columns, s.rows, scly)
    ensures forall k :: k in f && k !in GridSlots(s.columns, s.rows, scly) ==> Refresh(f, s, scly, zoff, lib)[k] == f[k]
  {
    WriteGridFrame(f, s, scly, zoff, lib, s.rows);
    var r := Refresh(f, s, scly, zoff, lib);
    assert forall k :: k in r.Keys <==> k in f.Keys + GridSlots(s.columns, s.rows, scly);
    forall x: nat, y: nat | x < s.columns && y < s.rows
      ensures Index(x, y, scly) in Refresh(f, s, scly, zoff, lib)
    {
      assert Index(x, y, scly) in GridSlots(s.columns, s.rows, scly);
    }
  }

  /** The slot of a cell that no later cell overwrites holds that cell's vector. */
  lemma RefreshLastWriter(f: map<int, Vec>, s: Settings, scly: nat, zoff: real, lib: Library, x: nat, y: nat)
    requires LastWriter(x, y, s, scly)
    ensures Index(x, y, scly) in Refresh(f, s, scly, zoff, lib)
    ensures Refresh(f, s, scly, zoff, lib)[Index(x, y, scly)] == CellVector(lib, s, zoff, x, y)
  {
    WriteGridLast(f, s, scly, zoff, lib, s.rows, x, y);
    RefreshFrame(f, s, scly, zoff, lib);
  }

  /** The grid slots are rebuilt from scratch: what they held before a refresh
      does not matter. */
  lemma RefreshRebuilds(f1: map<int, Vec>, f2: map<int, Vec>, s: Settings, scly: nat, zoff: real, lib: Library)
    ensures forall k :: k in GridSlots(s.columns, s.rows, scly) ==>
      k in Refresh(f1, s, scly, zoff, lib) && k in Refresh(f2, s, scly, zoff, lib) &&
      Refresh(f1, s, scly, zoff, lib)[k] == Refresh(f2, s, scly, zoff, lib)[k]
  {
    forall k | k in GridSlots(s.columns, s.rows, scly)
      ensures k in Refresh(f1, s, scly, zoff, lib) && k in Refresh(f2, s, scly, zoff, lib)
      ensures Refresh(f1, s, scly, zoff, lib)[k] == Refresh(f2, s, scly, zoff, lib)[k]
    {
      WriteGridRebuildsAt(f1, f2, s, scly, zoff, lib, s.rows, k);
    }
  }

  /** A grid with no columns or no rows is not rejected: the loops write
      nothing and the field stays as it was. */
  lemma {:induction false} EmptyGridWritesNothing(f: map<int, Vec>, s: Settings, scly: nat, zoff: real, lib: Library, m: nat)
    requires s.columns == 0 || s.rows == 0
    requires m <= s.rows
    ensures WriteGrid(f, s, scly, zoff, lib, m) == f
  {
    if m > 0 {
      EmptyGridWritesNothing(f, s, scly, zoff, lib, m - 1);
    }
  }

  lemma EmptyGridRefresh(f: map<int, Vec>, s: Settings, scly: nat, zoff: real, lib: Library)
    requires s.columns == 0 || s.rows == 0
    ensures Refresh(f, s, scly, zoff, lib) == f
  {
    EmptyGridWritesNothing(f, s, scly, zoff, lib, s.rows);
  }

  /** A cell of a later row lies at a later slot when x < scly. */
  lemma LaterRowLaterSlot(x: nat, y: nat, x2: nat, y2: nat, scly: nat)
    requires x < scly && y < y2
    ensures Index(x, y, scly) < Index(x2, y2, scly)
  {
    var d := y2 - y;
    assert y2 * scly == y * scly + d * scly;
    assert d * scly == scly + (d - 1) * scly;
  }

  /** When a cell is at least as many pixels high as there are columns, no two
      cells share a slot, so every cell's slot holds its own vector. */
  lemma TallCellsNeverCollide(f: map<int, Vec>, s: Settings, scly: nat, zoff: real, lib: Library)
    requires s.columns <= scly
    ensures forall x: nat, y: nat :: x < s.columns && y < s.rows ==>
      Index(x, y, scly) in Refresh(f, s, scly, zoff, lib) &&
      Refresh(f, s, scly, zoff, lib)[Index(x, y, scly)] == CellVector(lib, s, zoff, x, y)
  {
    forall x: nat, y: nat | x < s.columns && y < s.rows
      ensures Index(x, y, scly) in Refresh(f, s, scly, zoff, lib)
      ensures Refresh(f, s, scly, zoff, lib)[Index(x, y, scly)] == CellVector(lib, s, zoff, x, y)
    {
      forall x2: nat, y2: nat | x2 < s.columns && y < y2 < s.rows
        ensures Index(x2, y2, scly) != Index(x, y, scly)
      {
        LaterRowLaterSlot(x, y, x2, y2, scly);
      }
      RefreshLastWriter(f, s, scly, zoff, lib, x, y);
    }
  }

  /** When a cell is fewer pixels high than there are columns, cell (scly, 0)
      and cell (0, 1) share a slot, and the vector of (scly, 0) is lost. */
  lemma ShortCellsCollide(s: Settings, scly: nat)
    requires scly < s.columns && 2 <= s.rows
    ensures Index(scly, 0, scly) == Index(0, 1, scly)
    ensures !LastWriter(scly, 0, s, scly)
  {
    assert Index(0, 1, scly) == Index(scly, 0, scly);
  }
}
