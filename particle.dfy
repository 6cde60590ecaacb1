/** particle.js: a particle's look-up of its steering vector in the flow
    field, its velocity update with the speed cap, its move and its re-entry at
    the canvas edges. Step is the whole update as a function of the particle's
    state; class Particle performs it in place, as the source does. */
module Particles {
  import opened P5
  import opened Config
  import opened FlowField

  /** The state of one particle. */
  datatype PState = PState(position: Vec, velocity: Vec, maxSpeed: real, size: real)

  /** floor(p / scl): the grid coordinate of pixel coordinate p for cells scl
      pixels wide. */
  function CellCoord(p: real, scl: nat): int
    requires 0 < scl
  {
    (p / scl as real).Floor
  }

  /** follow: the vector stored at the slot of the position's cell, read with
      the same formula updateFlowfield writes with. A zero cell size makes the
      division non-finite, so the index is not a number and nothing is read. */
  function Follow(field: map<int, Vec>, position: Vec, sclx: nat, scly: nat): (r: Option<Vec>)
    ensures r.Some? ==> r.value in field.Values
  {
    if sclx == 0 || scly == 0 then None
    else
      var index := Index(CellCoord(position.x, sclx), CellCoord(position.y, scly), scly);
      if index in field then Some(field[index]) else None
  }

  /** A coordinate inside the first cells * scl pixels falls in one of the cells. */
  lemma CellCoordInRange(p: real, scl: nat, cells: nat)
    requires 0 < scl
    requires 0.0 <= p < (cells * scl) as real
    ensures 0 <= CellCoord(p, scl) < cells
  {
    var q := p / scl as real;
    assert q * scl as real == p;
    assert q < cells as real;
  }

  /** A negative coordinate falls in a negative cell. */
  lemma CellCoordNegative(p: real, scl: nat)
    requires 0 < scl && p < 0.0
    ensures CellCoord(p, scl) < 0
  {
    var q := p / scl as real;
    assert q * scl as real == p;
  }

  /** The cell coordinate is not clamped: a coordinate at or past the last
      whole cell falls outside the grid, though it may still lie on the
      canvas (sclx * columns can be less than the canvas width). */
  lemma CellCoordBeyondGrid(p: real, scl: nat, cells: nat)
    requires 0 < scl
    requires (cells * scl) as real <= p
    ensures cells <= CellCoord(p, scl)
  {
    var q := p / scl as real;
    assert q * scl as real == p;
    assert cells as real <= q;
  }

  /** On a canvas 20 pixels wide with 3 columns the cells are 6 pixels wide,
      and pixel 19 lies in column 3, outside the grid. */
  lemma CanvasEdgeOutsideGrid()
    ensures CellSize(20, 3) == 6
    ensures CellCoord(19.0, 6) == 3
  {
    CellCoordInRange(19.0, 6, 4);
    CellCoordBeyondGrid(19.0, 6, 3);
  }

  /** For a position inside the grid's pixel area, follow reads the slot of a
      grid cell after a refresh, and when that cell is the last to write its
      slot it reads exactly that cell's vector. */
  lemma FollowReadsRefreshedCell(f: map<int, Vec>, s: Settings, sclx: nat, scly: nat, zoff: real, lib: Library, position: Vec)
    requires 0 < sclx && 0 < scly
    requires 0.0 <= position.x < (s.columns * sclx) as real
    requires 0.0 <= position.y < (s.rows * scly) as real
    ensures 0 <= CellCoord(position.x, sclx) < s.columns
    ensures 0 <= CellCoord(position.y, scly) < s.rows
    ensures Follow(Refresh(f, s, scly, zoff, lib), position, sclx, scly).Some?
    ensures LastWriter(CellCoord(position.x, sclx) as nat, CellCoord(position.y, scly) as nat, s, scly) ==>
      Follow(Refresh(f, s, scly, zoff, lib), position, sclx, scly)
        == Some(CellVector(lib, s, zoff, CellCoord(position.x, sclx) as nat, CellCoord(position.y, scly) as nat))
  {
    CellCoordInRange(position.x, sclx, s.columns);
    CellCoordInRange(position.y, scly, s.rows);
    var cx: nat, cy: nat := CellCoord(position.x, sclx), CellCoord(position.y, scly);
    RefreshFrame(f, s, scly, zoff, lib);
    assert Index(cx, cy, scly) in Refresh(f, s, scly, zoff, lib);
    if LastWriter(cx, cy, s, scly) {
      RefreshLastWriter(f, s, scly, zoff, lib, cx, cy);
    }
  }

  /** A coordinate in the cell-wide margin left of the canvas falls in cell -1. */
  lemma CellCoordLeftMargin(p: real, scl: nat)
    requires 0 < scl
    requires -(scl as real) <= p < 0.0
    ensures CellCoord(p, scl) == -1
  {
    var q := p / scl as real;
    assert q * scl as real == p;
    assert -1.0 <= q < 0.0;
  }

  /** A particle in the margin left of the canvas (one cell wide, so it holds
      every position down to -size when size <= sclx) on row cy >= 1 reads
      slot cy * scly - 1. When scly <= columns a refresh writes that slot from
      cell (scly - 1, cy - 1) of the row above, and nothing overwrites it, so
      the particle steers by that cell's vector. */
  lemma FollowLeftMargin(f: map<int, Vec>, s: Settings, sclx: nat, scly: nat, zoff: real, lib: Library, position: Vec)
    requires 0 < sclx && 0 < scly && scly <= s.columns
    requires -(sclx as real) <= position.x < 0.0
    requires (scly as real) <= position.y < (s.rows * scly) as real
    ensures 1 <= CellCoord(position.y, scly) < s.rows
    ensures Follow(Refresh(f, s, scly, zoff, lib), position, sclx, scly)
      == Some(CellVector(lib, s, zoff, scly - 1, CellCoord(position.y, scly) - 1))
  {
    CellCoordLeftMargin(position.x, sclx);
    CellCoordBeyondGrid(position.y, scly, 1);
    CellCoordInRange(position.y, scly, s.rows);
    var cy := CellCoord(position.y, scly);
    var x1: nat, y1: nat := scly - 1, cy - 1;
    assert Index(-1, cy, scly) == Index(x1, y1, scly) by {
      assert cy * scly == y1 * scly + scly;
    }
    forall x2: nat, y2: nat | x2 < s.columns && y1 < y2 < s.rows
      ensures Index(x2, y2, scly) != Index(x1, y1, scly)
    {
      LaterRowLaterSlot(x1, y1, x2, y2, scly);
    }
    RefreshLastWriter(f, s, scly, zoff, lib, x1, y1);
  }

  /** With 15 columns, 2 rows and 10-pixel cells, a particle at (-1, 15) reads
      the vector of cell (9, 0). */
  lemma LeftMarginScenario(f: map<int, Vec>, s: Settings, zoff: real, lib: Library)
    requires s.columns == 15 && s.rows == 2
    ensures Follow(Refresh(f, s, 10, zoff, lib), Vec(-1.0, 15.0), 10, 10) == Some(CellVector(lib, s, zoff, 9, 0))
  {
    FollowLeftMargin(f, s, 10, 10, zoff, lib, Vec(-1.0, 15.0));
    assert CellCoord(15.0, 10) == 1;
  }

  /** A position above and to the left of the canvas reads nothing from a field
      whose slots are all non-negative, as are those of a field that only
      refreshes have written. */
  lemma FollowAboveLeftMisses(field: map<int, Vec>, position: Vec, sclx: nat, scly: nat)
    requires forall k :: k in field ==> 0 <= k
    requires position.x < 0.0 && position.y < 0.0
    ensures Follow(field, position, sclx, scly) == None
  {
    if 0 < sclx && 0 < scly {
      CellCoordNegative(position.x, sclx);
      CellCoordNegative(position.y, scly);
      var cy := CellCoord(position.y, scly);
      assert cy * scly <= 0;
    }
  }

  /** wraparoundIfNeeded along one axis of the canvas, extent pixels long. */
  function WrapAxis(c: real, size: real, extent: real): (r: real)
    ensures c < -size ==> r == extent - size * 5.0
    ensures -size <= c && extent + size < c ==> r == size * 5.0
    ensures -size <= c <= extent + size ==> r == c
    ensures 0.0 <= size && 4.0 * size <= extent ==> -size <= r <= extent + size
  {
    if c < -size then extent - size * 5.0
    else if c > extent + size then size * 5.0
    else c
  }

  /** On a canvas at least four sizes across, wrapping twice is wrapping once. */
  lemma WrapIdempotent(c: real, size: real, extent: real)
    requires 0.0 <= size && 4.0 * size <= extent
    ensures WrapAxis(WrapAxis(c, size, extent), size, extent) == WrapAxis(c, size, extent)
  {
  }

  lemma SquaresOrdered(a: real, b: real)
    requires 0.0 <= a && 0.0 < b
    ensures a <= b <==> a * a <= b * b
  {
    if a <= b {
      assert a * a <= b * a;
      assert b * a <= b * b;
    } else {
      assert a * a > b * a;
      assert b * a > b * b;
    }
  }

  /** velocity.mag() / maxSpeed, the brightness and stroke alpha of a particle. */
  function NormalizedSpeed(velocity: Vec, maxSpeed: real, sqrt: real -> real): (r: real)
    requires 0.0 < maxSpeed
    requires IsRoot(sqrt(MagSq(velocity)), MagSq(velocity))
    ensures 0.0 <= r
    ensures r <= 1.0 <==> MagSq(velocity) <= maxSpeed * maxSpeed
  {
    var m := sqrt(MagSq(velocity));
    SquaresOrdered(m, maxSpeed);
    assert (m / maxSpeed) * maxSpeed == m;
    m / maxSpeed
  }

  /** update: steer by the cell's vector, cap the speed at maxSpeed, move by
      the new velocity, then wrap around the canvas. */
  function Step(p: PState, field: map<int, Vec>, sclx: nat, scly: nat, width: real, height: real, lib: Library): (r: PState)
    requires Follow(field, p.position, sclx, scly).Some?
    requires lib.ExactSqrt()
    ensures r.maxSpeed == p.maxSpeed && r.size == p.size
    ensures MagSq(r.velocity) <= p.maxSpeed * p.maxSpeed
    ensures var sum := Add(p.velocity, Follow(field, p.position, sclx, scly).value);
      && (MagSq(sum) <= p.maxSpeed * p.maxSpeed ==> r.velocity == sum)
      && (MagSq(sum) > p.maxSpeed * p.maxSpeed && 0.0 < p.maxSpeed ==>
            exists k: real :: 0.0 < k && r.velocity == Scale(sum, k))
    ensures r.position == Vec(WrapAxis(p.position.x + r.velocity.x, p.size, width),
                              WrapAxis(p.position.y + r.velocity.y, p.size, height))
  {
    var steering := Follow(field, p.position, sclx, scly).value;
    var velocity := Limit(Add(p.velocity, steering), p.maxSpeed, lib.sqrt);
    var moved := Add(p.position, velocity);
    PState(Vec(WrapAxis(moved.x, p.size, width), WrapAxis(moved.y, p.size, height)), velocity, p.maxSpeed, p.size)
  }

  /** After any update the normalised speed lies in [0, 1]. */
  lemma StepNormalizedSpeed(p: PState, field: map<int, Vec>, sclx: nat, scly: nat, width: real, height: real, lib: Library)
    requires Follow(field, p.position, sclx, scly).Some?
    requires lib.ExactSqrt()
    requires 0.0 < p.maxSpeed
    ensures var v := Step(p, field, sclx, scly, width, height, lib).velocity;
      0.0 <= NormalizedSpeed(v, p.maxSpeed, lib.sqrt) <= 1.0
  {
    var v := Step(p, field, sclx, scly, width, height, lib).velocity;
    assert IsRoot(lib.sqrt(MagSq(v)), MagSq(v));
  }

  /** After any update on a canvas at least four sizes across in each
      direction, the particle lies within one size of the canvas. */
  lemma StepStaysNearCanvas(p: PState, field: map<int, Vec>, sclx: nat, scly: nat, width: real, height: real, lib: Library)
    requires Follow(field, p.position, sclx, scly).Some?
    requires lib.ExactSqrt()
    requires 0.0 <= p.size && 4.0 * p.size <= width && 4.0 * p.size <= height
    ensures var q := Step(p, field, sclx, scly, width, height, lib).position;
      -p.size <= q.x <= width + p.size && -p.size <= q.y <= height + p.size
  {
  }

  /** A particle at rest at (0, 0) with maxSpeed 5 and steering (3, 4) reaches
      the cap exactly: its velocity becomes (3, 4) and so does its position. */
  lemma StepAtCapScenario(lib: Library)
    requires lib.ExactSqrt()
    ensures var field := map[0 := Vec(3.0, 4.0)];
      var p := PState(Vec(0.0, 0.0), Vec(0.0, 0.0), 5.0, 3.0);
      Follow(field, p.position, 10, 10) == Some(Vec(3.0, 4.0)) &&
      Step(p, field, 10, 10, 100.0, 100.0, lib) == PState(Vec(3.0, 4.0), Vec(3.0, 4.0), 5.0, 3.0)
  {
    var field := map[0 := Vec(3.0, 4.0)];
    var p := PState(Vec(0.0, 0.0), Vec(0.0, 0.0), 5.0, 3.0);
    assert CellCoord(0.0, 10) == 0;
    assert Follow(field, p.position, 10, 10) == Some(Vec(3.0, 4.0));
  }

  /** A particle one pixel past the right edge re-enters at 5 * size; one pixel
      past the left edge re-enters at width - 5 * size. */
  lemma WrapScenario(size: real, width: real)
    requires 0.0 <= size && 0.0 <= width
    ensures WrapAxis(width + size + 1.0, size, width) == size * 5.0
    ensures WrapAxis(-size - 1.0, size, width) == width - size * 5.0
  {
  }

  class Particle {
    var position: Vec
    var velocity: Vec
    var maxSpeed: real
    var size: real

    /** The particle's state as a value. */
    function State(): PState
      reads this
    {
      PState(position, velocity, maxSpeed, size)
    }

    /** What holds of every particle the sketch creates: maxSpeed was drawn
        from random(2, 7) and the size is 3. The speed cap is a property of
        every update (Step), not of construction. */
    ghost predicate Valid()
      reads this
    {
      2.0 <= maxSpeed < 7.0 && size == 3.0
    }

    /** new Particle(x, y); maxSpeed is the value random(2, 7) returned. */
    constructor (x: real, y: real, maxSpeed: real)
      requires 2.0 <= maxSpeed < 7.0
      ensures Valid()
      ensures position == Vec(x, y) && velocity == Vec(0.0, 0.0)
      ensures this.maxSpeed == maxSpeed && size == 3.0
    {
      position := Vec(x, y);
      velocity := Vec(0.0, 0.0);
      this.maxSpeed := maxSpeed;
      size := 3.0;
    }

    /** update(vectors, sclx, scly) on a canvas width by height pixels. */
    method Update(vectors: map<int, Vec>, sclx: nat, scly: nat, width: real, height: real, lib: Library)
      requires Follow(vectors, position, sclx, scly).Some?
      requires lib.ExactSqrt()
      modifies this`position, this`velocity
      ensures State() == Step(old(State()), vectors, sclx, scly, width, height, lib)
      ensures old(Valid()) ==> Valid()
    {
      var steering := Follow(vectors, position, sclx, scly).value;
      velocity := Add(velocity, steering);
      velocity := Limit(velocity, maxSpeed, lib.sqrt);
      position := Add(position, velocity);
      WraparoundIfNeeded(width, height);
      assert State() == Step(old(State()), vectors, sclx, scly, width, height, lib);
    }

    /** wraparoundIfNeeded, each axis on its own. */
    method WraparoundIfNeeded(width: real, height: real)
      modifies this`position
      ensures position == Vec(WrapAxis(old(position).x, size, width), WrapAxis(old(position).y, size, height))
    {
      if position.x < -size {
        position := position.(x := width - size * 5.0);
      } else if position.x > width + size {
        position := position.(x := size * 5.0);
      }

      if position.y < -size {
        position := position.(y := height - size * 5.0);
      } else if position.y > height + size {
        position := position.(y := size * 5.0);
      }
    }
  }
}
