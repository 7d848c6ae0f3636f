/**
 * The rain/snow particle pool (`createParticles`, `newParticle`,
 * `displayParticles`).
 *
 * The pool holds `MAX_PARTICLES` records. Each frame in autumn or winter draws
 * every particle, lowers it by its falling speed, and replaces the particles
 * that fell below the terrain sample they spawned over. Heights and speeds are
 * integer thousandths of a unit, so the source's `z - falling_speed < min_z`
 * is exact here. The `rand()` results a spawn consumes are parameters.
 */
module Particles {
  import opened Results
  import opened Grid
  import opened Heightmap
  import opened Colours
  import opened Drawing

  /** `MAX_PARTICLES`, the fixed size of the pool. */
  const MaxParticles: nat := 1000

  /** A particle: its position, height, falling speed and the elevation it stops at, heights in thousandths. */
  datatype Particle = Particle(x: real, y: real, z: int, fallingSpeed: int, minZ: int)

  /** The four `rand()` results one spawn consumes, in call order: column, row, height, speed. */
  datatype Draw = Draw(rx: nat, ry: nat, rz: nat, rs: nat)

  /** The slot a spawn reads: `rand_y * W + rand_x`, with `rand_x < W` and `rand_y < H`. */
  function SpawnIndex(w: nat, h: nat, d: Draw): nat
    requires w >= 1 && h >= 1
  {
    (d.ry % h) * w + d.rx % w
  }

  /** The spawn index stays inside the sample array for every image size and every draw. */
  lemma SpawnIndexBelow(w: nat, h: nat, d: Draw)
    requires w >= 1 && h >= 1
    ensures SpawnIndex(w, h, d) < w * h
  {
    MulLeq(d.ry % h, h - 1, w);
    assert (h - 1) * w + w == w * h;
  }

  /** A freshly spawned particle: height 0.3 to 0.7 in steps of 0.1, speed 0.001 to 0.010. */
  predicate Fresh(q: Particle) {
    300 <= q.z <= 700 && q.z % 100 == 0 && 1 <= q.fallingSpeed <= 10 && 0 <= q.minZ < 256
  }

  /** What every particle of the pool satisfies between frames: it is at or above its stopping elevation. */
  predicate Valid(q: Particle) {
    1 <= q.fallingSpeed <= 10 && 0 <= q.minZ <= q.z <= 700
  }

  /** `newParticle`: the particle hangs over the spawn slot's sample and stops at that sample's elevation. */
  function NewParticle(m: Mesh, d: Draw): (q: Particle)
    ensures Fresh(q) && Valid(q)
    ensures SpawnIndex(m.width, m.height, d) < |m.p|
    ensures var s := m.p[SpawnIndex(m.width, m.height, d)];
      q.x == s.x && q.y == s.y && q.minZ == s.z
  {
    var k := SpawnIndex(m.width, m.height, d);
    SpawnIndexBelow(m.width, m.height, d);
    Particle(m.p[k].x, m.p[k].y, (d.rz % 5 + 3) * 100, d.rs % 10 + 1, m.p[k].z)
  }

  /**
   * On a square terrain the spawn reads cell (rand_y, rand_x): the row draw
   * picks the column of the loader's layout. On a single column it reads
   * cell (0, rand_y).
   */
  lemma SpawnCell(img: Image, d: Draw)
    requires SafeLayout(img.width, img.height)
    ensures var w, h := img.width, img.height;
      var c := if w == h then Cell(d.ry % h, d.rx % w) else Cell(0, d.ry % h);
      InGrid(c, w, h) &&
      var q := NewParticle(BuildMesh(img), d);
      var s := CellSample(img, c);
      q.x == s.x && q.y == s.y && q.minZ == s.z
  {
    var w, h := img.width, img.height;
    var c := if w == h then Cell(d.ry % h, d.rx % w) else Cell(0, d.ry % h);
    assert CellIndex(w, c) == SpawnIndex(w, h, d);
    SamplesAtIndex(img);
  }

  /** `createParticles`: every slot of a new pool gets its own spawn. */
  function CreateParticles(m: Mesh, draws: seq<Draw>): (pool: seq<Particle>)
    requires |draws| == MaxParticles
    ensures |pool| == MaxParticles
    ensures forall k :: 0 <= k < |pool| ==> Fresh(pool[k]) && Valid(pool[k])
  {
    seq(MaxParticles, k requires 0 <= k < MaxParticles => NewParticle(m, draws[k]))
  }

  /** Every slot of a new pool hangs over the sample its own draw selects. */
  lemma CreateParticlesAnchored(m: Mesh, draws: seq<Draw>, k: nat)
    requires |draws| == MaxParticles && k < MaxParticles
    ensures SpawnIndex(m.width, m.height, draws[k]) < |m.p|
    ensures var q := CreateParticles(m, draws)[k];
      var s := m.p[SpawnIndex(m.width, m.height, draws[k])];
      q.x == s.x && q.y == s.y && q.minZ == s.z
  {
    assert CreateParticles(m, draws)[k] == NewParticle(m, draws[k]);
  }

  /** One frame of falling. */
  function Fall(q: Particle): Particle {
    q.(z := q.z - q.fallingSpeed)
  }

  /** One slot of `displayParticles`: fall, then respawn with the slot's draw if now below the stopping elevation. */
  function StepSlot(m: Mesh, q: Particle, d: Draw): (r: Particle)
    ensures Valid(q) ==> Valid(r)
  {
    var fallen := Fall(q);
    if fallen.z < fallen.minZ then NewParticle(m, d) else fallen
  }

  /** The colour of the precipitation, if the season has any: blue rain in autumn, white snow in winter. */
  function Precipitation(season: string): Option<Colour> {
    if season == Autumn then Some(Blue)
    else if season == Winter then Some(White)
    else None
  }

  /** A pool after a frame, and what the frame drew. */
  datatype Ticked = Ticked(pool: seq<Particle>, painted: Painted)

  /**
   * `displayParticles`: outside autumn and winter nothing happens. Otherwise
   * the colour is set, every particle is drawn where it is, and then every
   * slot steps. Slot `k` uses `draws[k]` if it respawns.
   */
  function Tick(m: Mesh, season: string, pool: seq<Particle>, draws: seq<Draw>, cur: Colour): (r: Ticked)
    requires |draws| == |pool|
    ensures |r.pool| == |pool|
  {
    match Precipitation(season)
    case None => Ticked(pool, Painted([], cur))
    case Some(c) =>
      var drawn := seq(|pool|, k requires 0 <= k < |pool| => Vertex(Sample(pool[k].x, pool[k].y, pool[k].z), c));
      var next := seq(|pool|, k requires 0 <= k < |pool| => StepSlot(m, pool[k], draws[k]));
      Ticked(next, Painted([Pass(Points, drawn)], c))
  }

  // ---------------------------------------------------------------------------
  // Properties of the pool

  predicate AllValid(pool: seq<Particle>) {
    forall k :: 0 <= k < |pool| ==> Valid(pool[k])
  }

  /** Only autumn and winter move or draw particles; any other season leaves the pool and the colour as they were. */
  lemma TickGate(m: Mesh, season: string, pool: seq<Particle>, draws: seq<Draw>, cur: Colour)
    requires |draws| == |pool|
    ensures var r := Tick(m, season, pool, draws, cur);
      (season == Autumn || season == Winter) <==> |r.painted.passes| == 1
    ensures var r := Tick(m, season, pool, draws, cur);
      !(season == Autumn || season == Winter) ==> r.pool == pool && r.painted == Painted([], cur)
  {
  }

  /**
   * In autumn or winter, slot `k` falls by its speed and is replaced by a new
   * particle from its own draw exactly when it ends below its stopping
   * elevation; no other slot is involved.
   */
  lemma TickSlot(m: Mesh, season: string, pool: seq<Particle>, draws: seq<Draw>, cur: Colour, k: nat)
    requires |draws| == |pool| && k < |pool|
    requires season == Autumn || season == Winter
    ensures var r := Tick(m, season, pool, draws, cur);
      var lowered := pool[k].z - pool[k].fallingSpeed;
      r.pool[k] == if lowered < pool[k].minZ then NewParticle(m, draws[k]) else pool[k].(z := lowered)
  {
  }

  /** Each drawn point is a particle as it was before the frame, in the season's colour, never below its stopping elevation. */
  lemma TickDraws(m: Mesh, season: string, pool: seq<Particle>, draws: seq<Draw>, cur: Colour)
    requires |draws| == |pool| && AllValid(pool)
    requires season == Autumn || season == Winter
    ensures var r := Tick(m, season, pool, draws, cur);
      r.painted.colour == (if season == Autumn then Blue else White) &&
      r.painted.passes[0].primitive == Points &&
      |r.painted.passes[0].vertices| == |pool| &&
      forall k :: 0 <= k < |pool| ==>
        var v := r.painted.passes[0].vertices[k];
        v.at == Sample(pool[k].x, pool[k].y, pool[k].z) && v.colour == r.painted.colour &&
        pool[k].minZ <= v.at.z <= 700
  {
  }

  /** A frame keeps every particle valid and the pool at its size, so created pools stay valid forever. */
  lemma TickPreservesValid(m: Mesh, season: string, pool: seq<Particle>, draws: seq<Draw>, cur: Colour)
    requires |draws| == |pool| && AllValid(pool)
    ensures AllValid(Tick(m, season, pool, draws, cur).pool)
  {
    var r := Tick(m, season, pool, draws, cur);
    forall k | 0 <= k < |r.pool|
      ensures Valid(r.pool[k])
    {
      if Precipitation(season).Some? {
        assert r.pool[k] == StepSlot(m, pool[k], draws[k]);
      }
    }
  }

  /** The number of frames a particle lives: it respawns on the frame its lowered height passes below `minZ`. */
  function Lifetime(z: int, minZ: int, s: int): nat
    requires s >= 1 && z >= minZ
    decreases z - minZ
  {
    if z - s < minZ then 1 else 1 + Lifetime(z - s, minZ, s)
  }

  /** Removing one divisor from a dividend removes one from the quotient. */
  lemma DivSub(a: int, s: int)
    requires s >= 1 && a >= s
    ensures (a - s) / s == a / s - 1
  {
    var q, r := a / s, a % s;
    assert a == q * s + r;
    assert a - s == (q - 1) * s + r;
    DivUnique(a - s, s, q - 1, r);
  }

  lemma DivUnique(a: int, s: int, q: int, r: int)
    requires s >= 1 && 0 <= r < s && a == q * s + r
    ensures a / s == q
  {
    var q', r' := a / s, a % s;
    assert a == q' * s + r';
    if q' < q {
      assert (q - q') * s >= s by { MulAtLeast(q - q', s); }
    } else if q' > q {
      assert (q' - q) * s >= s by { MulAtLeast(q' - q, s); }
    }
  }

  lemma MulAtLeast(n: int, s: int)
    requires n >= 1 && s >= 1
    ensures n * s >= s
  {
  }

  /** A particle `z` above its stopping elevation respawns after `(z - minZ) / s + 1` frames. */
  lemma {:induction false} LifetimeFormula(z: int, minZ: int, s: int)
    requires s >= 1 && z >= minZ
    ensures Lifetime(z, minZ, s) == (z - minZ) / s + 1
    decreases z - minZ
  {
    if z - s >= minZ {
      LifetimeFormula(z - s, minZ, s);
      DivSub(z - minZ, s);
    }
  }

  /**
   * `Lifetime` counts the frames of `StepSlot`: a particle with one frame left
   * respawns on the next step, and any other falls in place with one frame fewer.
   */
  lemma StepSlotLifetime(m: Mesh, q: Particle, d: Draw)
    requires Valid(q)
    ensures Lifetime(q.z, q.minZ, q.fallingSpeed) == 1 <==> StepSlot(m, q, d) == NewParticle(m, d) && Fall(q).z < q.minZ
    ensures Lifetime(q.z, q.minZ, q.fallingSpeed) > 1 ==>
      StepSlot(m, q, d) == Fall(q) && Valid(Fall(q)) &&
      Lifetime(Fall(q).z, q.minZ, q.fallingSpeed) == Lifetime(q.z, q.minZ, q.fallingSpeed) - 1
  {
  }

  /** A spawn starts strictly above every elevation a terrain can have, so it lives at least one frame. */
  lemma SpawnAboveTerrain(m: Mesh, d: Draw, k: nat)
    requires k < |m.p|
    ensures NewParticle(m, d).z > m.p[k].z
  {
  }
}
