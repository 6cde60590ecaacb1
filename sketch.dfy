/** sketch.js: the globals of the sketch and the operations that build,
    refresh and step them. Class Simulation holds the globals (settings, the
    canvas size, sclx, scly, zoff, particles, flowfield); its methods are the
    sketch's functions, performing in place what the specification functions
    of FlowField and Particles describe. */
module Sketch {
  import opened P5
  import opened Config
  import opened FlowField
  import opened Particles

  /** p5's mouseButton. */
  datatype MouseButton = Left | Right | Center

  /** What the random() calls of one new particle returned: the position
      random(windowWidth), random(windowHeight) and the maxSpeed random(2, 7). */
  datatype Spawn = Spawn(x: real, y: real, maxSpeed: real)

  /** random(n) lies in [0, n) and random(2, 7) in [2, 7). */
  predicate ValidSpawn(sp: Spawn, width: real, height: real) {
    0.0 <= sp.x < width && 0.0 <= sp.y < height && 2.0 <= sp.maxSpeed < 7.0
  }

  /** The state of the particle new Particle(x, y) creates. */
  function Spawned(x: real, y: real, maxSpeed: real): PState {
    PState(Vec(x, y), Vec(0.0, 0.0), maxSpeed, 3.0)
  }

  class Simulation {
    var settings: Settings
    /** The canvas, created windowWidth by windowHeight pixels. */
    var width: nat
    var height: nat
    var sclx: nat
    var scly: nat
    var zoff: real
    var particles: seq<Particle>
    var flowfield: map<int, Vec>

    /** The cell sizes were derived from the current canvas and grid, the
        particle array holds settings.count distinct valid particles. */
    ghost predicate Valid()
      reads this, particles
    {
      && ValidSettings(settings)
      && sclx == CellSize(width, settings.columns)
      && scly == CellSize(height, settings.rows)
      && |particles| == settings.count
      && (forall i, j :: 0 <= i < j < |particles| ==> particles[i] != particles[j])
      && (forall i :: 0 <= i < |particles| ==> particles[i].Valid())
    }

    /** The globals' initial values followed by setup() on a canvas of
        width by height pixels; spawns are the random draws of
        initializeParticles. */
    constructor (width: nat, height: nat, spawns: seq<Spawn>)
      requires |spawns| == DefaultSettings().count
      requires forall i :: 0 <= i < |spawns| ==> ValidSpawn(spawns[i], width as real, height as real)
      ensures Valid()
      ensures settings == DefaultSettings() && zoff == 0.0 && flowfield == map[]
      ensures this.width == width && this.height == height
      ensures |particles| == |spawns|
      ensures forall i :: 0 <= i < |particles| ==>
        fresh(particles[i]) && particles[i].State() == Spawned(spawns[i].x, spawns[i].y, spawns[i].maxSpeed)
    {
      settings := DefaultSettings();
      zoff := 0.0;
      particles := [];
      this.width := width;
      this.height := height;
      sclx, scly := 0, 0;
      flowfield := map[];
      new;
      InitializeFlowField();
      InitializeParticles(spawns);
    }

    /** initializeFlowField: the cell sizes are the floor divisions of the
        canvas by the grid, and the field starts with no vectors. */
    method InitializeFlowField()
      requires ValidSettings(settings)
      modifies this`sclx, this`scly, this`flowfield
      ensures sclx == CellSize(width, settings.columns) && scly == CellSize(height, settings.rows)
      ensures sclx * settings.columns <= width < (sclx + 1) * settings.columns
      ensures scly * settings.rows <= height < (scly + 1) * settings.rows
      ensures flowfield == map[]
    {
      sclx := width / settings.columns;
      scly := height / settings.rows;
      flowfield := map[];
    }

    /** initializeParticles: the old array is dropped and settings.count new
        particles are created, particle i from spawns[i]. */
    method InitializeParticles(spawns: seq<Spawn>)
      requires |spawns| == settings.count
      requires forall i :: 0 <= i < |spawns| ==> ValidSpawn(spawns[i], width as real, height as real)
      modifies this`particles
      ensures |particles| == settings.count
      ensures forall i, j :: 0 <= i < j < |particles| ==> particles[i] != particles[j]
      ensures forall i :: 0 <= i < |particles| ==>
        fresh(particles[i]) && particles[i].Valid() &&
        particles[i].State() == Spawned(spawns[i].x, spawns[i].y, spawns[i].maxSpeed)
    {
      particles := [];
      for i := 0 to settings.count
        invariant |particles| == i
        invariant forall j, k :: 0 <= j < k < i ==> particles[j] != particles[k]
        invariant forall j :: 0 <= j < i ==>
          fresh(particles[j]) && particles[j].Valid() &&
          particles[j].State() == Spawned(spawns[j].x, spawns[j].y, spawns[j].maxSpeed)
      {
        var p := new Particle(spawns[i].x, spawns[i].y, spawns[i].maxSpeed);
        particles := particles + [p];
      }
    }

    /** updateFlowfield: the nested loops write the vector of every cell at
        its slot, with xoff and yoff following Offset, and zoff advances once. */
    method UpdateFlowfield(lib: Library)
      modifies this`flowfield, this`zoff
      ensures flowfield == Refresh(old(flowfield), settings, scly, old(zoff), lib)
      ensures zoff == old(zoff) + settings.zIncrement
      ensures 0.0 <= settings.zIncrement ==> old(zoff) <= zoff
    {
      var inc := settings.xyIncrement;
      var yoff := 0.0;
      for y := 0 to settings.rows
        invariant yoff == Offset(y, settings.rows, inc)
        invariant zoff == old(zoff)
        invariant flowfield == WriteGrid(old(flowfield), settings, scly, zoff, lib, y)
      {
        var xoff := 0.0;
        for x := 0 to settings.columns
          invariant xoff == Offset(x, settings.columns, inc)
          invariant zoff == old(zoff)
          invariant flowfield == WriteRow(WriteGrid(old(flowfield), settings, scly, zoff, lib, y), settings, scly, zoff, lib, y, x)
        {
          var index := x + y * scly;
          var angle := lib.noise(settings.octaves, settings.falloff, xoff, yoff, zoff) * TWO_PI * 2.0;
          var v := lib.fromAngle(angle);
          flowfield := flowfield[index := v];
          xoff := xoff + (if (x as real) < (settings.columns as real) / 2.0 then inc else -inc);
        }
        yoff := yoff + (if (y as real) < (settings.rows as real) / 2.0 then inc else -inc);
      }
      zoff := zoff + settings.zIncrement;
    }

    /** updateParticles: every particle is updated once, in array order,
        against the current field. */
    method UpdateParticles(lib: Library)
      requires Valid()
      requires lib.ExactSqrt()
      requires forall i :: 0 <= i < |particles| ==> Follow(flowfield, particles[i].position, sclx, scly).Some?
      modifies particles
      ensures Valid()
      ensures forall i :: 0 <= i < |particles| ==>
        particles[i].State() == Step(old(particles[i].State()), flowfield, sclx, scly, width as real, height as real, lib)
    {
      for i := 0 to |particles|
        invariant Valid()
        invariant forall j :: 0 <= j < i ==>
          particles[j].State() == Step(old(particles[j].State()), flowfield, sclx, scly, width as real, height as real, lib)
        invariant forall j :: i <= j < |particles| ==> particles[j].State() == old(particles[j].State())
      {
        particles[i].Update(flowfield, sclx, scly, width as real, height as real, lib);
      }
    }

    /** The state-changing part of draw(): with animate off nothing changes;
        with it on the field is refreshed and then every particle stepped
        against the refreshed field. */
    method Draw(lib: Library)
      requires Valid()
      requires lib.ExactSqrt()
      requires settings.animate ==> forall i :: 0 <= i < |particles| ==>
        Follow(Refresh(flowfield, settings, scly, zoff, lib), particles[i].position, sclx, scly).Some?
      modifies this`flowfield, this`zoff, particles
      ensures Valid()
      ensures !settings.animate ==>
        && flowfield == old(flowfield) && zoff == old(zoff)
        && forall i :: 0 <= i < |particles| ==> particles[i].State() == old(particles[i].State())
      ensures settings.animate ==>
        && flowfield == Refresh(old(flowfield), settings, scly, old(zoff), lib)
        && zoff == old(zoff) + settings.zIncrement
        && forall i :: 0 <= i < |particles| ==>
             particles[i].State() == Step(old(particles[i].State()), flowfield, sclx, scly, width as real, height as real, lib)
    {
      if settings.animate {
        UpdateFlowfield(lib);
        UpdateParticles(lib);
      }
    }

    /** mouseDragged: the left button appends a particle at the mouse
        position and counts it; any other button changes nothing. */
    method MouseDragged(button: MouseButton, mouseX: real, mouseY: real, maxSpeed: real)
      requires Valid()
      requires 2.0 <= maxSpeed < 7.0
      modifies this`particles, this`settings
      ensures Valid()
      ensures button == Left ==>
        && |particles| == |old(particles)| + 1
        && particles[..|old(particles)|] == old(particles)
        && fresh(particles[|old(particles)|])
        && particles[|old(particles)|].State() == Spawned(mouseX, mouseY, maxSpeed)
        && settings == old(settings).(count := old(settings).count + 1)
      ensures button != Left ==> particles == old(particles) && settings == old(settings)
    {
      if button == Left {
        var p := new Particle(mouseX, mouseY, maxSpeed);
        particles := particles + [p];
        settings := settings.(count := settings.count + 1);
      }
    }
  }
}
