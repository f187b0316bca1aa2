// Forces: gravity proportional to a material's density relative to air, then
// velocity clamping, applied in place to the next grid. Empty, wall and solid
// cells are not moved by forces.
module Forces {
  import opened Particles
  import opened Materials
  import opened Grid

  const GRAVITY: real := 0.3
  const MAX_VELOCITY_Y: real := 5.0
  const MAX_VELOCITY_X: real := 3.0
  const AIR_DENSITY: real := 1.2

  /** The two clamping statements: first against +limit, then against -limit. */
  function Clamp(v: real, limit: real): real
  {
    var a := if v > limit then limit else v;
    if a < -limit then -limit else a
  }

  /** For a non-negative limit the clamp lands in [-limit, limit], leaves a value in
      range alone, and is therefore idempotent. */
  lemma ClampProperties(v: real, limit: real)
    requires limit >= 0.0
    ensures -limit <= Clamp(v, limit) <= limit
    ensures Clamp(v, limit) == v <==> -limit <= v <= limit
    ensures Clamp(Clamp(v, limit), limit) == Clamp(v, limit)
    ensures v > limit ==> Clamp(v, limit) == limit
    ensures v < -limit ==> Clamp(v, limit) == -limit
  {
  }

  /** The vertical push of one frame: GRAVITY times the density excess over air,
      per 1000. */
  function GravityPush(t: int): real
  {
    GRAVITY * ((CppMaterial(t).density - AIR_DENSITY) / 1000.0)
  }

  /** Cells the pass skips. */
  predicate Unforced(p: Particle)
  {
    p.kind == EMPTY || p.kind == WALL || p.state == Solid
  }

  /** One cell of updateForces. */
  function Forced(p: Particle): Particle
  {
    if Unforced(p) then p
    else
      var vy := p.vy + GravityPush(p.kind);
      p.(vy := Clamp(vy, MAX_VELOCITY_Y), vx := Clamp(p.vx, MAX_VELOCITY_X))
  }

  /** A forced cell: only its velocity changes; vy is the clamped sum of the old vy and
      the push, vx only clamped (so an in-range vx is kept); both end inside the
      limits. */
  lemma ForcedCell(p: Particle)
    ensures var q := Forced(p);
      && q.(vx := p.vx, vy := p.vy) == p
      && (Unforced(p) ==> q == p)
      && (!Unforced(p) ==>
            && q.vy == Clamp(p.vy + GravityPush(p.kind), MAX_VELOCITY_Y)
            && q.vx == Clamp(p.vx, MAX_VELOCITY_X)
            && -MAX_VELOCITY_Y <= q.vy <= MAX_VELOCITY_Y
            && -MAX_VELOCITY_X <= q.vx <= MAX_VELOCITY_X
            && (-MAX_VELOCITY_X <= p.vx <= MAX_VELOCITY_X ==> q.vx == p.vx))
  {
    ClampProperties(p.vx, MAX_VELOCITY_X);
    ClampProperties(p.vy + GravityPush(p.kind), MAX_VELOCITY_Y);
  }

  /** Materials denser than air are pulled down (vy grows) and lighter ones pushed
      up (vy shrinks), unless vy already sits at the limit in that direction. */
  lemma GravityDirection(p: Particle)
    requires !Unforced(p)
    ensures CppMaterial(p.kind).density > AIR_DENSITY && p.vy < MAX_VELOCITY_Y ==> Forced(p).vy > p.vy
    ensures CppMaterial(p.kind).density < AIR_DENSITY && p.vy > -MAX_VELOCITY_Y ==> Forced(p).vy < p.vy
    ensures CppMaterial(p.kind).density == AIR_DENSITY && -MAX_VELOCITY_Y <= p.vy <= MAX_VELOCITY_Y ==>
      Forced(p).vy == p.vy
  {
    ClampProperties(p.vy + GravityPush(p.kind), MAX_VELOCITY_Y);
  }

  /** In the C++ table sand, water and ice are pulled down, steam and fire rise, and
      an empty cell would float exactly (it is skipped). */
  lemma CppPushSigns()
    ensures GravityPush(SAND) > 0.0 && GravityPush(WATER) > 0.0 && GravityPush(ICE) > 0.0
    ensures GravityPush(STEAM) < 0.0 && GravityPush(FIRE) < 0.0
    ensures GravityPush(EMPTY) == 0.0
  {
  }

  /** updateForces over the next grid s. */
  function ForcesPass(s: Cells): (t: Cells)
    requires IsGrid(s)
    ensures IsGrid(t)
    ensures forall k :: 0 <= k < GRID_SIZE ==> t[k] == Forced(s[k])
  {
    seq(GRID_SIZE, k requires 0 <= k < GRID_SIZE => Forced(s[k]))
  }

  /** The pass after its first n cells. */
  function ForcesPrefix(s: Cells, n: int): (t: Cells)
    requires IsGrid(s)
    ensures IsGrid(t)
  {
    seq(GRID_SIZE, k requires 0 <= k < GRID_SIZE => if k < n then Forced(s[k]) else s[k])
  }

  /** The loop body for cell (x, y). */
  method ForceCell(nextGrid: array<Particle>, x: int, y: int)
    requires nextGrid.Length == GRID_SIZE && InBounds(x, y)
    modifies nextGrid
    ensures nextGrid[..] == old(nextGrid[..])[GetIndex(x, y) := Forced(old(nextGrid[GetIndex(x, y)]))]
  {
    var idx := GetIndex(x, y);
    var p := nextGrid[idx];
    if p.kind == EMPTY || p.kind == WALL {
      return;
    }
    if p.state == Solid {
      return;
    }
    var mat := CppMaterial(p.kind);
    var densityRatio := (mat.density - AIR_DENSITY) / 1000.0;
    p := p.(vy := p.vy + GRAVITY * densityRatio);
    if p.vy > MAX_VELOCITY_Y { p := p.(vy := MAX_VELOCITY_Y); }
    if p.vy < -MAX_VELOCITY_Y { p := p.(vy := -MAX_VELOCITY_Y); }
    if p.vx > MAX_VELOCITY_X { p := p.(vx := MAX_VELOCITY_X); }
    if p.vx < -MAX_VELOCITY_X { p := p.(vx := -MAX_VELOCITY_X); }
    nextGrid[idx] := p;
  }

  /** updateForces: every cell of the next grid is forced. */
  method UpdateForces(nextGrid: array<Particle>)
    requires nextGrid.Length == GRID_SIZE
    modifies nextGrid
    ensures nextGrid[..] == ForcesPass(old(nextGrid[..]))
  {
    ghost var s := nextGrid[..];
    var y := 0;
    while y < HEIGHT
      invariant 0 <= y <= HEIGHT
      invariant nextGrid[..] == ForcesPrefix(s, GetIndex(0, y))
    {
      var x := 0;
      while x < WIDTH
        invariant 0 <= x <= WIDTH
        invariant nextGrid[..] == ForcesPrefix(s, GetIndex(x, y))
      {
        ForceCell(nextGrid, x, y);
        assert ForcesPrefix(s, GetIndex(x, y) + 1)
            == ForcesPrefix(s, GetIndex(x, y))[GetIndex(x, y) := Forced(s[GetIndex(x, y)])];
        x := x + 1;
      }
      y := y + 1;
    }
    assert ForcesPrefix(s, GRID_SIZE) == ForcesPass(s);
  }
}
