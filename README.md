# flowfields-p5 in Dafny

A model of the simulation core of flowfields-p5, a p5.js sketch in which a
few hundred particles drift through a flow field. Each frame the sketch
writes one vector, `fromAngle` of a noise value, for every grid cell into a
slot computed from the cell's coordinates (two cells can share a slot, see
below). The vectors come from Perlin noise, and the
noise's time coordinate `zoff` advances by a small step, so the field evolves
slowly. Each particle looks up the vector of the cell it is in and adds it to
its velocity. It then caps its speed at its own `maxSpeed`, moves, and
re-enters from the opposite edge when it leaves the canvas.

Modules:

- **P5** (`p5.dfy`): the p5 pieces the core uses.
  - 2D vectors, with `add`, `mult` and `magSq` written as values.
  - `Limit`, which is `p5.Vector.limit`.
  - The foreign numerics, bundled as a `Library` value: `noise` (results in
    [0, 1]), `p5.Vector.fromAngle`, and the `Math.sqrt` used inside `limit`
    and `mag`.
- **Config** (`config.dfy`): the `Settings` object and its initial values.
- **FlowField** (`flowfield.dfy`):
  - the cell sizes (`floor(width / columns)`, `floor(height / rows)`);
  - the slot formula `x + y * scly`, kept exactly as the sketch writes it;
  - the noise offsets with their sign rule (add in the first half of an axis,
    subtract in the second);
  - `Refresh`, the field one `updateFlowfield` call leaves, specified by
    recursion over rows and columns;
  - lemmas on which slots a refresh writes and what each one holds.
- **Particles** (`particle.js`'s model, in `particle.dfy`):
  - `follow`, as an `Option`, since a slot may never have been written;
  - the per-axis wraparound rule;
  - `Step`, the whole `update` as a function of the particle's state;
  - class `Particle`, whose `Update` performs that step in place and is
    proved equal to `Step`.
- **Sketch** (`sketch.dfy`): class `Simulation` holds the sketch's globals.
  - Its methods mirror `initializeFlowField`, `initializeParticles`,
    `updateFlowfield`, `updateParticles`, the `animate` branch of `draw`, and
    `mouseDragged`.
  - Each method's contract is tied to the specification functions above.

### Behaviour of the slot formula and the lookup

- **Shared slots.** The slot of cell (x, y) is `x + y * scly`. Here `scly` is
  the cell height in pixels, not the number of columns.
  - When `scly >= columns`, no two cells share a slot
    (`TallCellsNeverCollide`).
  - When `scly < columns` and there are at least two rows, cell (scly, 0)
    and cell (0, 1) share a slot, and the later write, from (0, 1), wins
    (`ShortCellsCollide`).
  - `follow` reads with the same formula. For a position inside the grid's
    pixel area it reads the slot the refresh wrote for that position's cell,
    and that cell's own vector when the cell is its slot's last writer
    (`FollowReadsRefreshedCell`).
- **Cell coordinates are not clamped.**
  - A position at or beyond `columns * sclx` (which can be less than the
    canvas width) falls in a cell outside the grid (`CellCoordBeyondGrid`,
    `CanvasEdgeOutsideGrid`).
  - A position above and left of the canvas (both coordinates negative)
    reads nothing from a field whose slots are non-negative
    (`FollowAboveLeftMisses`).
  - A position in the one-cell margin left of the canvas, on row cy >= 1,
    reads slot `cy * scly - 1`. When `scly <= columns` that is the slot of
    cell (scly - 1, cy - 1) of the row above, so the particle steers by that
    cell's vector (`FollowLeftMargin`, `LeftMarginScenario`).
- **A zero-size grid is not rejected.** With no rows or no columns the
  refresh loops write nothing (`EmptyGridRefresh`). The rest of the model
  keeps at least one row and one column as an invariant (`ValidSettings`),
  because the GUI sliders start at 1 and `floor(width / 0)` is not a
  number of pixels.

## Model

| member | source | states |
|---|---|---|
| P5.Limit | particle.js:35 | the result's squared magnitude is at most max²; a vector within the cap is returned unchanged; a longer one ends exactly at the cap and is a positive multiple of the input, so its direction is kept |
| Config.DefaultSettings | sketch.js:3-15 | the initial settings form a valid grid: animation is on, the grid is 15 by 15, and there are 300 particles |
| FlowField.Index | sketch.js:124 | definition, no contract: the slot x + y·scly, the formula of sketch.js:124, sketch.js:147 and particle.js:44; its properties are stated by LaterRowLaterSlot, TallCellsNeverCollide and ShortCellsCollide |
| FlowField.Offset | sketch.js:120-133 | definition, no contract: the xoff/yoff accumulated before cell n, starting at 0 and adding inc in the first half of the axis and subtracting it in the second; its properties are stated by OffsetClosedForm, OffsetCounts, OffsetNonNegative, OffsetBounded and OffsetAtEnd |
| FlowField.CellVector | sketch.js:125-127 | definition, no contract: fromAngle(noise(xoff, yoff, zoff)·TWO_PI·2) for cell (x, y); RefreshLastWriter and TallCellsNeverCollide state where it ends up |
| FlowField.WriteRow | sketch.js:123-130 | definition, no contract: the field after the inner loop has written the first n columns of row y, in column order; its properties are stated by WriteRowFacts |
| FlowField.WriteGrid | sketch.js:121-133 | definition, no contract: the field after the outer loop has written the first m rows, in row order; its properties are stated by WriteGridFrame, WriteGridLast and WriteGridRebuildsAt |
| FlowField.Refresh | sketch.js:119-136 | definition, no contract: the field one updateFlowfield call leaves; its properties are stated by RefreshFrame, RefreshLastWriter, RefreshRebuilds and EmptyGridRefresh |
| FlowField.EmptyGridWritesNothing | sketch.js:121-123 | with no columns or no rows, the first m rows of the loops write nothing |
| FlowField.EmptyGridRefresh | sketch.js:119-136 | with no columns or no rows, a refresh leaves the field as it was: a zero-size grid is not rejected |
| FlowField.CellSize | sketch.js:40-41 | the cell size s along an axis of an extent of E pixels and n cells satisfies s·n ≤ E < (s+1)·n |
| FlowField.HalfCounts | sketch.js:129 | cell j is in the first half (j < len/2 as numbers) exactly when j < ⌈len/2⌉ |
| FlowField.HalvesBefore | sketch.js:129 | among the cells before n, min(n, ⌈len/2⌉) lie in the first half and the rest in the second |
| FlowField.OffsetClosedForm | sketch.js:120-133 | the offset accumulated before cell n equals inc·(2·min(n, ⌈len/2⌉) − n) |
| FlowField.OffsetCounts | sketch.js:125-132 | the offset sampled at cell n equals inc·(#first-half cells before n − #second-half cells before n) |
| FlowField.OffsetNonNegative | sketch.js:125-132 | with inc ≥ 0, every offset sampled along an axis is non-negative |
| FlowField.OffsetBounded | sketch.js:125-132 | with inc ≥ 0, no offset exceeds inc·⌈len/2⌉ |
| FlowField.OffsetAtEnd | sketch.js:129-132 | after a whole axis the offset is back at 0 for an even length and at inc for an odd one |
| FlowField.WriteRowFacts | sketch.js:123-130 | after the inner loop's first n columns, a slot is defined exactly when it was before or is the slot of one of those cells; each such cell's slot holds its vector; every other slot is unchanged |
| FlowField.WriteGridFrame | sketch.js:121-133 | after the first m rows, a slot is defined exactly when it was before or is the slot of a cell in those rows; every other slot is unchanged |
| FlowField.WriteGridLast | sketch.js:121-133 | the slot of a cell that no later row overwrites holds that cell's noise vector |
| FlowField.WriteGridRebuildsAt | sketch.js:121-133 | the value left at any written slot does not depend on the field before the loops |
| FlowField.RefreshFrame | sketch.js:119-136 | after updateFlowfield every grid cell's slot is defined, the defined slots are exactly the old ones plus the grid's slots, and no other slot changes |
| FlowField.RefreshLastWriter | sketch.js:121-127 | after a refresh, the slot of a cell that is the last writer of its slot holds fromAngle(noise(xoff, yoff, zoff)·4π) for that cell |
| FlowField.RefreshRebuilds | sketch.js:119-136 | two refreshes at the same zoff agree on every grid slot, whatever the fields held before |
| FlowField.LaterRowLaterSlot | sketch.js:124 | for x < scly, every cell of a later row has a larger slot |
| FlowField.TallCellsNeverCollide | sketch.js:124 | when scly ≥ columns, every grid cell's slot holds that cell's own vector after a refresh |
| FlowField.ShortCellsCollide | sketch.js:124 | when scly < columns and there are at least two rows, cells (scly, 0) and (0, 1) share a slot and (scly, 0) is not its last writer |
| Particles.CellCoord | particle.js:42-43 | definition, no contract: floor(p / scl); its properties are stated by CellCoordInRange, CellCoordNegative, CellCoordLeftMargin and CellCoordBeyondGrid |
| Particles.CellCoordLeftMargin | particle.js:42-43 | a coordinate in [−scl, 0) lies in cell −1 |
| Particles.FollowLeftMargin | particle.js:41-48 | a position in the one-cell margin left of the canvas on row cy ≥ 1 reads, after a refresh with scly ≤ columns, the vector of cell (scly − 1, cy − 1) |
| Particles.LeftMarginScenario | particle.js:41-48 | with 15 columns, 2 rows and 10-pixel cells, a particle at (−1, 15) reads the vector of cell (9, 0) |
| Particles.Follow | particle.js:41-48 | a vector follow returns is one stored in the field |
| Particles.CellCoordInRange | particle.js:42-43 | a coordinate in [0, cells·scl) lies in a cell in [0, cells) |
| Particles.CellCoordNegative | particle.js:42-43 | a negative coordinate lies in a negative cell |
| Particles.CellCoordBeyondGrid | particle.js:42-43 | a coordinate at or beyond cells·scl lies in a cell ≥ cells: nothing is clamped |
| Particles.CanvasEdgeOutsideGrid | particle.js:42-43 | with 3 columns on a 20-pixel canvas the cells are 6 pixels wide, and pixel 19 lies in column 3 |
| Particles.FollowReadsRefreshedCell | particle.js:41-48 | for a position inside the grid's pixel area, the cell is in the grid, follow finds a vector in a refreshed field, and it finds exactly that cell's vector when the cell is its slot's last writer |
| Particles.FollowAboveLeftMisses | particle.js:41-48 | a position above and left of the canvas finds nothing in a field whose slots are non-negative |
| Particles.WrapAxis | particle.js:50-59 | a coordinate below −size re-enters at extent − 5·size, one beyond extent + size re-enters at 5·size, any other stays; on an axis at least 4·size long the result lies in [−size, extent + size] |
| Particles.WrapIdempotent | particle.js:50-59 | on an axis at least 4·size long, wrapping a wrapped coordinate changes nothing |
| Particles.WrapScenario | particle.js:51-54 | one pixel past the right edge re-enters at 5·size, and one pixel past the left edge at width − 5·size |
| Particles.NormalizedSpeed | particle.js:18 | the normalised speed is non-negative, and it is at most 1 exactly when the speed is within the cap |
| Particles.Step | particle.js:31-39 | an update keeps maxSpeed and size and caps the new velocity at maxSpeed²; a velocity-plus-steering within the cap is kept exactly, a longer one is replaced by a positive multiple of it; the new position is the old position plus the new velocity, wrapped per axis |
| Particles.StepNormalizedSpeed | particle.js:18 | after any update the normalised speed lies in [0, 1] |
| Particles.StepStaysNearCanvas | particle.js:36-38 | on a canvas at least 4·size wide and high, the updated position lies within size of the canvas |
| Particles.StepAtCapScenario | particle.js:31-39 | a particle at rest at (0, 0) with maxSpeed 5 that steers by (3, 4) ends with velocity (3, 4) and position (3, 4) |
| Particles.Particle.constructor | particle.js:4-9 | a new particle sits at the given position with zero velocity, size 3, and the drawn maxSpeed in [2, 7) |
| Particles.Particle.Update | particle.js:31-39 | the in-place update leaves the particle in exactly the state Step computes, and keeps it valid |
| Particles.Particle.WraparoundIfNeeded | particle.js:50-60 | each coordinate of the position is replaced by WrapAxis of it against width and height respectively |
| Sketch.Simulation.constructor | sketch.js:19-37 | the globals start at their initial values, and setup leaves floor-division cell sizes, an empty field, and one fresh particle per random draw |
| Sketch.Simulation.InitializeFlowField | sketch.js:39-44 | sclx·columns ≤ width < (sclx+1)·columns, likewise for scly and rows, and the field is empty |
| Sketch.Simulation.InitializeParticles | sketch.js:62-67 | the old array is discarded, and the new one holds exactly settings.count distinct fresh valid particles, particle i created from draw i |
| Sketch.Simulation.UpdateFlowfield | sketch.js:119-136 | the nested loops leave exactly the field Refresh describes for the old field and the old zoff; zoff rises by exactly z_increment, so it never falls when z_increment ≥ 0 |
| Sketch.Simulation.UpdateParticles | sketch.js:155-160 | every particle is updated once against the current field, ending in the state Step gives it; the simulation stays valid |
| Sketch.Simulation.Draw | sketch.js:110-113 | with animate off the field, zoff and every particle are unchanged; with it on the field is refreshed first, then every particle is stepped against the refreshed field |
| Sketch.Simulation.MouseDragged | sketch.js:73-78 | the left button appends one fresh particle at the mouse position with zero velocity, keeps the earlier ones, and raises settings.count by 1; any other button changes nothing |

## Left out

- **Rendering.** These are canvas draw calls with no state:
  - `Particle.draw`, other than the normalised speed of particle.js:18;
  - `drawFlowfield`, `drawDiagnostics`, `background` and `textFont`.
- **GUI and keyboard.** These drive dat.GUI and the keyboard, not the simulation:
  - `initializeGuiControls` and `updateControls`;
  - `keyTyped`, including its toggling of `animate` and `showDiagnostics`.
  A GUI edit of `settings.count` without the re-initialisation it triggers
  would break the invariant `|particles| == settings.count`.
- **setup and windowResized.** Canvas creation is not modelled. The
  `Simulation` constructor takes the canvas size as parameters, and a
  re-run of setup after a resize is not modelled.
- **noise and noiseDetail.**
  - `noise` is a parameter function with results in [0, 1].
  - `noiseDetail(octaves, falloff)` has no state of its own in the model.
    Instead, those two settings are passed to `noise` on every call.
  - The noise's continuity is not modelled.
- **fromAngle.** `p5.Vector.fromAngle` is an uninterpreted parameter
  function, as are `heading`, `cos`, `sin` and `atan2`.
- **sqrt.** The square root inside `limit` and `mag` is a parameter
  function. `ExactSqrt` assumes it returns exact non-negative roots.
- **Floating point.** Coordinates, offsets and `zoff` are exact reals, so
  IEEE rounding is not modelled.
- **random().** The positions and maxSpeeds from `random` are parameters,
  with the ranges `random` guarantees.
- **Vector z.** The z component of p5 vectors is always 0 in the sketch and
  is dropped.
- **Initial field.** `new Array(columns, rows)` at sketch.js:43 builds a
  two-element array holding two numbers. It is modelled as an empty field
  (no vectors), and every property of a refresh holds for any field it
  starts from.
- **Unwritten slots.** `Particles.Particle.Update`, `Particles.Step` and
  the Sketch methods that call them require `follow` to find a vector.
  What p5's `add(undefined)` does with the `undefined` that an unwritten
  slot yields is library behaviour and is not modelled.
- **Particles.Particle.Valid** covers maxSpeed and size only. The speed cap
  is stated for every update rather than as an invariant of the class: see
  `Particles.Step` and `Particles.StepNormalizedSpeed`.
- **Particles.Particle.Update** models wraparoundIfNeeded's global `width` and
  `height` as parameters, which the sketch passes as the canvas size.
- **Grid and canvas types.** Grid sizes and the canvas size are natural
  numbers. These are the values the GUI sliders and window sizes take.
