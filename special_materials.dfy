// The life pass, in place on the next grid: mortal cells age by one frame and
// vanish when their lifetime runs out, and fire may spread into a hot empty
// cardinal neighbour. The program's self-contained variant (simulation.cpp) also
// heats the eight neighbours of every fire cell first; `heatNeighbours` selects it.
module SpecialMaterials {
  import opened Random
  import opened Particles
  import opened Grid

  const FIRE_HEAT_STEP: real := 30.0
  const FIRE_HEAT_CAP: real := 200.0
  const SPREAD_MIN_TEMPERATURE: real := 80.0

  // ---------------------------------------------------------------------------
  // Heating the neighbours of a fire cell
  // ---------------------------------------------------------------------------

  /** A neighbour of a fire cell: 30 degrees warmer, then cut back to 200 if above. */
  function Warmed(p: Particle): Particle
  {
    var t := p.temperature + FIRE_HEAT_STEP;
    p.(temperature := if t > FIRE_HEAT_CAP then FIRE_HEAT_CAP else t)
  }

  /** Cell j is one of the eight neighbours of (x, y). */
  predicate Adjacent(j: int, x: int, y: int)
  {
    var dx := XOf(j) - x;
    var dy := YOf(j) - y;
    -1 <= dx <= 1 && -1 <= dy <= 1 && !(dx == 0 && dy == 0)
  }

  /** The heating, stated cell by cell: every in-grid neighbour warmed, nothing else. */
  function HeatedAround(s: Cells, x: int, y: int): (t: Cells)
    requires IsGrid(s)
    ensures IsGrid(t)
  {
    seq(GRID_SIZE, j requires 0 <= j < GRID_SIZE => if Adjacent(j, x, y) then Warmed(s[j]) else s[j])
  }

  /** The rest of the heating double loop from offset (dx, dy). */
  function HeatNeighboursFrom(s: Cells, x: int, y: int, dy: int, dx: int): (t: Cells)
    requires IsGrid(s) && -1 <= dy <= 2 && -1 <= dx <= 2
    ensures IsGrid(t)
    decreases 2 - dy, 2 - dx
  {
    if dy > 1 then s
    else if dx > 1 then HeatNeighboursFrom(s, x, y, dy + 1, -1)
    else if (dx == 0 && dy == 0) || !InBounds(x + dx, y + dy) then HeatNeighboursFrom(s, x, y, dy, dx + 1)
    else
      var n := GetIndex(x + dx, y + dy);
      HeatNeighboursFrom(s[n := Warmed(s[n])], x, y, dy, dx + 1)
  }

  /** A skipped offset (the centre, or off the grid) names no neighbour. */
  lemma SkippedOffset(x: int, y: int, dy: int, dx: int, j: int)
    requires -1 <= dy <= 1 && -1 <= dx <= 1 && 0 <= j < GRID_SIZE
    requires (dx == 0 && dy == 0) || !InBounds(x + dx, y + dy)
    ensures (Adjacent(j, x, y) && OffsetAtOrAfter(j, x, y, dy, dx))
        == (Adjacent(j, x, y) && OffsetAtOrAfter(j, x, y, dy, dx + 1))
  {
    CoordinatesRoundTrip(j);
  }

  /** Past the end of a row of offsets comes the start of the next one. */
  lemma RowOfOffsetsDone(x: int, y: int, dy: int, j: int)
    ensures (Adjacent(j, x, y) && OffsetAtOrAfter(j, x, y, dy, 2))
        == (Adjacent(j, x, y) && OffsetAtOrAfter(j, x, y, dy + 1, -1))
  {
  }

  /** A visited offset names exactly the neighbour at that offset. */
  lemma VisitedOffset(x: int, y: int, dy: int, dx: int, j: int)
    requires -1 <= dy <= 1 && -1 <= dx <= 1 && 0 <= j < GRID_SIZE
    requires !(dx == 0 && dy == 0) && InBounds(x + dx, y + dy)
    ensures j == GetIndex(x + dx, y + dy) ==>
      Adjacent(j, x, y) && OffsetAtOrAfter(j, x, y, dy, dx) && !OffsetAtOrAfter(j, x, y, dy, dx + 1)
    ensures j != GetIndex(x + dx, y + dy) ==>
      (Adjacent(j, x, y) && OffsetAtOrAfter(j, x, y, dy, dx))
      == (Adjacent(j, x, y) && OffsetAtOrAfter(j, x, y, dy, dx + 1))
  {
    IndexRoundTrip(x + dx, y + dy);
    CoordinatesRoundTrip(j);
  }

  /** What the heating loop from offset (dx, dy) leaves in cell j. */
  predicate HeatedFrom(s: Cells, x: int, y: int, dy: int, dx: int, j: int)
    requires IsGrid(s) && -1 <= dy <= 2 && -1 <= dx <= 2 && 0 <= j < GRID_SIZE
  {
    HeatNeighboursFrom(s, x, y, dy, dx)[j]
      == if Adjacent(j, x, y) && OffsetAtOrAfter(j, x, y, dy, dx) then Warmed(s[j]) else s[j]
  }

  lemma SkippedStep(s: Cells, x: int, y: int, dy: int, dx: int, j: int)
    requires IsGrid(s) && -1 <= dy <= 1 && -1 <= dx <= 1 && 0 <= j < GRID_SIZE
    requires (dx == 0 && dy == 0) || !InBounds(x + dx, y + dy)
    requires HeatedFrom(s, x, y, dy, dx + 1, j)
    ensures HeatedFrom(s, x, y, dy, dx, j)
  {
    assert HeatNeighboursFrom(s, x, y, dy, dx) == HeatNeighboursFrom(s, x, y, dy, dx + 1);
    SkippedOffset(x, y, dy, dx, j);
  }

  lemma VisitedStep(s: Cells, x: int, y: int, dy: int, dx: int, j: int)
    requires IsGrid(s) && -1 <= dy <= 1 && -1 <= dx <= 1 && 0 <= j < GRID_SIZE
    requires !(dx == 0 && dy == 0) && InBounds(x + dx, y + dy)
    requires var n := GetIndex(x + dx, y + dy); HeatedFrom(s[n := Warmed(s[n])], x, y, dy, dx + 1, j)
    ensures HeatedFrom(s, x, y, dy, dx, j)
  {
    var n := GetIndex(x + dx, y + dy);
    assert HeatNeighboursFrom(s, x, y, dy, dx) == HeatNeighboursFrom(s[n := Warmed(s[n])], x, y, dy, dx + 1);
    VisitedOffset(x, y, dy, dx, j);
  }

  lemma {:induction false} HeatNeighboursFromCell(s: Cells, x: int, y: int, dy: int, dx: int, j: int)
    requires IsGrid(s) && -1 <= dy <= 2 && -1 <= dx <= 2 && 0 <= j < GRID_SIZE
    ensures HeatedFrom(s, x, y, dy, dx, j)
    decreases 2 - dy, 2 - dx
  {
    if dy > 1 {
    } else if dx > 1 {
      HeatNeighboursFromCell(s, x, y, dy + 1, -1, j);
      RowOfOffsetsDone(x, y, dy, j);
    } else if (dx == 0 && dy == 0) || !InBounds(x + dx, y + dy) {
      HeatNeighboursFromCell(s, x, y, dy, dx + 1, j);
      SkippedStep(s, x, y, dy, dx, j);
    } else {
      var n := GetIndex(x + dx, y + dy);
      HeatNeighboursFromCell(s[n := Warmed(s[n])], x, y, dy, dx + 1, j);
      VisitedStep(s, x, y, dy, dx, j);
    }
  }

  /** The heating loop warms exactly the in-grid eight neighbours, each once. */
  lemma HeatNeighboursSpec(s: Cells, x: int, y: int)
    requires IsGrid(s)
    ensures HeatNeighboursFrom(s, x, y, -1, -1) == HeatedAround(s, x, y)
  {
    forall j | 0 <= j < GRID_SIZE
      ensures HeatNeighboursFrom(s, x, y, -1, -1)[j] == HeatedAround(s, x, y)[j]
    {
      HeatNeighboursFromCell(s, x, y, -1, -1, j);
    }
  }

  /** A warmed neighbour ends at most at 200 and gains at most 30 degrees; one that
      was above 170 ends at exactly 200 (even one that was hotter). */
  lemma WarmedBounds(p: Particle)
    ensures Warmed(p).temperature <= FIRE_HEAT_CAP
    ensures Warmed(p).temperature <= p.temperature + FIRE_HEAT_STEP
    ensures p.temperature > FIRE_HEAT_CAP - FIRE_HEAT_STEP ==> Warmed(p).temperature == FIRE_HEAT_CAP
    ensures Warmed(p).(temperature := p.temperature) == p
  {
  }

  // ---------------------------------------------------------------------------
  // Fire spread and the per-cell step
  // ---------------------------------------------------------------------------

  /** The cardinal offset of a drawn direction 0..3: left, right, up, down. */
  function SpreadDX(dir: int): int
  {
    if dir == 0 then -1 else if dir == 1 then 1 else 0
  }

  function SpreadDY(dir: int): int
  {
    if dir == 2 then -1 else if dir == 3 then 1 else 0
  }

  /** Fire spread from (x, y), whose fire has `life` frames left: with a one-in-three
      draw and a life above 10, a drawn cardinal neighbour that is in bounds, empty and
      hotter than 80 becomes fire with life - 5 - (a draw below 6), if that is positive. */
  function Spread(s: Cells, x: int, y: int, life: int, src: Source, pos: nat): Drawn<Cells>
    requires IsGrid(s)
  {
    if !(Below(src, pos, 3) == 0 && life > 10) then Drawn(s, pos + 1)
    else
      var dir := Below(src, pos + 1, 4);
      var nx := x + SpreadDX(dir);
      var ny := y + SpreadDY(dir);
      if !InBounds(nx, ny) then Drawn(s, pos + 2)
      else
        var n := GetIndex(nx, ny);
        if !(s[n].kind == EMPTY && s[n].temperature > SPREAD_MIN_TEMPERATURE) then Drawn(s, pos + 2)
        else
          var newLife := life - 5 - Below(src, pos + 2, 6);
          if newLife > 0 then Drawn(s[n := s[n].(kind := FIRE, state := Gas, life := newLife)], pos + 3)
          else Drawn(s, pos + 3)
  }

  /** What a spread can do: nothing, or turn one empty cardinal neighbour hotter than
      80 into gaseous fire with a life of 1..life-5 within ten frames of the parent's,
      keeping that cell's other fields. */
  lemma SpreadOutcome(s: Cells, x: int, y: int, life: int, src: Source, pos: nat)
    requires IsGrid(s) && InBounds(x, y)
    ensures var d := Spread(s, x, y, life, src, pos);
      && IsGrid(d.value)
      && pos + 1 <= d.next <= pos + 3
      && (d.value == s ||
          exists n :: (0 <= n < GRID_SIZE
            && (XOf(n) - x == -1 || XOf(n) - x == 1) != (YOf(n) - y == -1 || YOf(n) - y == 1)
            && -1 <= XOf(n) - x <= 1 && -1 <= YOf(n) - y <= 1
            && s[n].kind == EMPTY && s[n].temperature > SPREAD_MIN_TEMPERATURE
            && life > 10
            && d.value == s[n := s[n].(kind := FIRE, state := Gas, life := d.value[n].life)]
            && 0 < d.value[n].life && life - 10 <= d.value[n].life <= life - 5))
  {
    var d := Spread(s, x, y, life, src, pos);
    if Below(src, pos, 3) == 0 && life > 10 {
      var dir := Below(src, pos + 1, 4);
      var nx := x + SpreadDX(dir);
      var ny := y + SpreadDY(dir);
      if InBounds(nx, ny) {
        var n := GetIndex(nx, ny);
        IndexRoundTrip(nx, ny);
        if d.value != s {
          assert d.value == s[n := s[n].(kind := FIRE, state := Gas, life := d.value[n].life)];
        }
      }
    }
  }

  /** The body of the pass for cell (x, y) of the next grid s. */
  function LifeStep(s: Cells, x: int, y: int, heatNeighbours: bool, src: Source, pos: nat): (d: Drawn<Cells>)
    requires IsGrid(s) && InBounds(x, y)
    ensures IsGrid(d.value)
  {
    var idx := GetIndex(x, y);
    var p := s[idx];
    if p.kind == EMPTY || p.kind == WALL then Drawn(s, pos)
    else
      var aged := if p.life > 0 then p.(life := p.life - 1) else p;
      if p.life > 0 && aged.life == 0 then Drawn(s[idx := aged.(kind := EMPTY, state := Gas)], pos)
      else
        var s1 := s[idx := aged];
        if aged.kind != FIRE then Drawn(s1, pos)
        else
          var s2 := if heatNeighbours then HeatNeighboursFrom(s1, x, y, -1, -1) else s1;
          var d := Spread(s2, x, y, aged.life, src, pos);
          SpreadOutcome(s2, x, y, aged.life, src, pos);
          d
  }

  /** The step's effect on its own cell: empty and wall cells are skipped; a positive
      life drops by exactly one, and a cell whose life reaches 0 becomes empty gas; a
      life of 0 or below (-1: immortal) is kept; nothing else of the cell changes. */
  lemma LifeStepOwnCell(s: Cells, x: int, y: int, heatNeighbours: bool, src: Source, pos: nat)
    requires IsGrid(s) && InBounds(x, y)
    ensures var p := s[GetIndex(x, y)];
      var d := LifeStep(s, x, y, heatNeighbours, src, pos);
      var q := d.value[GetIndex(x, y)];
      && (p.kind == EMPTY || p.kind == WALL ==> d == Drawn(s, pos))
      && (p.kind != EMPTY && p.kind != WALL ==>
            && (p.life == 1 ==> q == p.(kind := EMPTY, state := Gas, life := 0) && d.next == pos)
            && (p.life > 1 ==> q == p.(life := p.life - 1))
            && (p.life <= 0 ==> q == p)
            && (p.kind != FIRE ==> d.next == pos))
  {
    var idx := GetIndex(x, y);
    var p := s[idx];
    if p.kind != EMPTY && p.kind != WALL {
      var aged := if p.life > 0 then p.(life := p.life - 1) else p;
      if !(p.life > 0 && aged.life == 0) && aged.kind == FIRE {
        var s1 := s[idx := aged];
        var s2 := if heatNeighbours then HeatNeighboursFrom(s1, x, y, -1, -1) else s1;
        if heatNeighbours {
          HeatingSparesCentre(s1, x, y);
        }
        SpreadSparesCentre(s2, x, y, aged.life, src, pos);
      }
    }
  }

  /** The heating leaves the fire cell itself as it was. */
  lemma HeatingSparesCentre(s: Cells, x: int, y: int)
    requires IsGrid(s) && InBounds(x, y)
    ensures HeatNeighboursFrom(s, x, y, -1, -1)[GetIndex(x, y)] == s[GetIndex(x, y)]
  {
    HeatNeighboursFromCell(s, x, y, -1, -1, GetIndex(x, y));
    IndexRoundTrip(x, y);
  }

  /** A spread only ever writes a neighbour, never the fire cell itself. */
  lemma SpreadSparesCentre(s: Cells, x: int, y: int, life: int, src: Source, pos: nat)
    requires IsGrid(s) && InBounds(x, y)
    ensures Spread(s, x, y, life, src, pos).value[GetIndex(x, y)] == s[GetIndex(x, y)]
  {
    if Below(src, pos, 3) == 0 && life > 10 {
      var dir := Below(src, pos + 1, 4);
      var nx := x + SpreadDX(dir);
      var ny := y + SpreadDY(dir);
      if InBounds(nx, ny) {
        IndexInjective(nx, ny, x, y);
      }
    }
  }

  /** The rest of the pass from cell (x, y), rows outer, columns inner. */
  function LifeFrom(s: Cells, y: int, x: int, heatNeighbours: bool, src: Source, pos: nat): (d: Drawn<Cells>)
    requires IsGrid(s) && 0 <= y <= HEIGHT && 0 <= x <= WIDTH
    ensures IsGrid(d.value)
    decreases HEIGHT - y, WIDTH - x
  {
    if y == HEIGHT then Drawn(s, pos)
    else if x == WIDTH then LifeFrom(s, y + 1, 0, heatNeighbours, src, pos)
    else
      var d := LifeStep(s, x, y, heatNeighbours, src, pos);
      LifeFrom(d.value, y, x + 1, heatNeighbours, src, d.next)
  }

  /** updateLifeAndSpecialMaterials over the next grid s. */
  function LifePass(s: Cells, heatNeighbours: bool, src: Source, pos: nat): (d: Drawn<Cells>)
    requires IsGrid(s)
    ensures IsGrid(d.value)
  {
    LifeFrom(s, 0, 0, heatNeighbours, src, pos)
  }

  // ---------------------------------------------------------------------------
  // Properties of the whole pass
  // ---------------------------------------------------------------------------

  /** Cells nothing in the pass may touch: present, not mortal. */
  predicate Durable(p: Particle)
  {
    p.kind != EMPTY && p.life <= 0
  }

  lemma LifeStepKeepsWalls(s: Cells, x: int, y: int, heatNeighbours: bool, src: Source, pos: nat)
    requires IsGrid(s) && InBounds(x, y)
    ensures SameWalls(s, LifeStep(s, x, y, heatNeighbours, src, pos).value)
  {
    var idx := GetIndex(x, y);
    var p := s[idx];
    LifeStepOwnCell(s, x, y, heatNeighbours, src, pos);
    if p.kind != EMPTY && p.kind != WALL {
      var aged := if p.life > 0 then p.(life := p.life - 1) else p;
      if !(p.life > 0 && aged.life == 0) && aged.kind == FIRE {
        var s1 := s[idx := aged];
        var s2 := if heatNeighbours then HeatNeighboursFrom(s1, x, y, -1, -1) else s1;
        if heatNeighbours {
          HeatNeighboursSpec(s1, x, y);
        }
        assert SameWalls(s, s2);
        SpreadOutcome(s2, x, y, aged.life, src, pos);
      }
    }
  }

  /** Without the neighbour heating, a step leaves every durable cell other than its
      own exactly as it was. */
  lemma LifeStepKeepsDurable(s: Cells, x: int, y: int, src: Source, pos: nat, k: int)
    requires IsGrid(s) && InBounds(x, y) && 0 <= k < GRID_SIZE && Durable(s[k])
    ensures LifeStep(s, x, y, false, src, pos).value[k] == s[k]
  {
    var idx := GetIndex(x, y);
    var p := s[idx];
    LifeStepOwnCell(s, x, y, false, src, pos);
    if k != idx && p.kind != EMPTY && p.kind != WALL {
      var aged := if p.life > 0 then p.(life := p.life - 1) else p;
      if !(p.life > 0 && aged.life == 0) && aged.kind == FIRE {
        SpreadOutcome(s[idx := aged], x, y, aged.life, src, pos);
      }
    }
  }

  lemma {:induction false} LifeFromKeepsWalls(s: Cells, y: int, x: int, heatNeighbours: bool, src: Source, pos: nat)
    requires IsGrid(s) && 0 <= y <= HEIGHT && 0 <= x <= WIDTH
    ensures SameWalls(s, LifeFrom(s, y, x, heatNeighbours, src, pos).value)
    decreases HEIGHT - y, WIDTH - x
  {
    if y == HEIGHT {
    } else if x == WIDTH {
      LifeFromKeepsWalls(s, y + 1, 0, heatNeighbours, src, pos);
    } else {
      var d := LifeStep(s, x, y, heatNeighbours, src, pos);
      LifeStepKeepsWalls(s, x, y, heatNeighbours, src, pos);
      LifeFromKeepsWalls(d.value, y, x + 1, heatNeighbours, src, d.next);
    }
  }

  lemma {:induction false} LifeFromKeepsDurable(s: Cells, y: int, x: int, src: Source, pos: nat, k: int)
    requires IsGrid(s) && 0 <= y <= HEIGHT && 0 <= x <= WIDTH && 0 <= k < GRID_SIZE && Durable(s[k])
    ensures LifeFrom(s, y, x, false, src, pos).value[k] == s[k]
    decreases HEIGHT - y, WIDTH - x
  {
    if y == HEIGHT {
    } else if x == WIDTH {
      LifeFromKeepsDurable(s, y + 1, 0, src, pos, k);
    } else {
      var d := LifeStep(s, x, y, false, src, pos);
      LifeStepKeepsDurable(s, x, y, src, pos, k);
      LifeFromKeepsDurable(d.value, y, x + 1, src, d.next, k);
    }
  }

  /** The pass never creates, moves or removes a wall. Without the neighbour heating
      it also leaves every present immortal cell (life -1, or any life <= 0) exactly
      as it was: fire spreads only into empty cells. */
  lemma LifePassFrame(s: Cells, heatNeighbours: bool, src: Source, pos: nat)
    requires IsGrid(s)
    ensures SameWalls(s, LifePass(s, heatNeighbours, src, pos).value)
    ensures !heatNeighbours ==>
      forall k :: 0 <= k < GRID_SIZE && Durable(s[k]) ==> LifePass(s, heatNeighbours, src, pos).value[k] == s[k]
  {
    LifeFromKeepsWalls(s, 0, 0, heatNeighbours, src, pos);
    if !heatNeighbours {
      forall k | 0 <= k < GRID_SIZE && Durable(s[k])
        ensures LifePass(s, heatNeighbours, src, pos).value[k] == s[k]
      {
        LifeFromKeepsDurable(s, 0, 0, src, pos, k);
      }
    }
  }

  /** No cell present. */
  predicate Vacant(s: Cells)
  {
    forall k :: 0 <= k < |s| ==> s[k].kind == EMPTY
  }

  lemma {:induction false} LifeFromVacant(s: Cells, y: int, x: int, heatNeighbours: bool, src: Source, pos: nat)
    requires IsGrid(s) && 0 <= y <= HEIGHT && 0 <= x <= WIDTH && Vacant(s)
    ensures LifeFrom(s, y, x, heatNeighbours, src, pos) == Drawn(s, pos)
    decreases HEIGHT - y, WIDTH - x
  {
    if y == HEIGHT {
    } else if x == WIDTH {
      LifeFromVacant(s, y + 1, 0, heatNeighbours, src, pos);
    } else {
      assert s[GetIndex(x, y)].kind == EMPTY;
      LifeFromVacant(s, y, x + 1, heatNeighbours, src, pos);
    }
  }

  /** On a grid with no cell present the pass changes nothing and draws nothing. */
  lemma LifePassVacant(s: Cells, heatNeighbours: bool, src: Source, pos: nat)
    requires IsGrid(s) && Vacant(s)
    ensures LifePass(s, heatNeighbours, src, pos) == Drawn(s, pos)
  {
    LifeFromVacant(s, 0, 0, heatNeighbours, src, pos);
  }

  // ---------------------------------------------------------------------------
  // The imperative pass
  // ---------------------------------------------------------------------------

  /** The heating double loop around the fire cell (x, y). */
  method HeatNeighbours(nextGrid: array<Particle>, x: int, y: int)
    requires nextGrid.Length == GRID_SIZE
    modifies nextGrid
    ensures nextGrid[..] == HeatNeighboursFrom(old(nextGrid[..]), x, y, -1, -1)
  {
    ghost var goal := HeatNeighboursFrom(nextGrid[..], x, y, -1, -1);
    var dy := -1;
    while dy <= 1
      invariant -1 <= dy <= 2
      invariant HeatNeighboursFrom(nextGrid[..], x, y, dy, -1) == goal
    {
      HeatRow(nextGrid, x, y, dy);
      dy := dy + 1;
    }
  }

  /** The inner loop of the heating, over the offsets of row dy. */
  method HeatRow(nextGrid: array<Particle>, x: int, y: int, dy: int)
    requires nextGrid.Length == GRID_SIZE && -1 <= dy <= 1
    modifies nextGrid
    ensures HeatNeighboursFrom(nextGrid[..], x, y, dy + 1, -1) == HeatNeighboursFrom(old(nextGrid[..]), x, y, dy, -1)
  {
    ghost var goal := HeatNeighboursFrom(nextGrid[..], x, y, dy, -1);
    var dx := -1;
    while dx <= 1
      invariant -1 <= dx <= 2
      invariant HeatNeighboursFrom(nextGrid[..], x, y, dy, dx) == goal
    {
      HeatOffset(nextGrid, x, y, dy, dx);
      dx := dx + 1;
    }
    assert HeatNeighboursFrom(nextGrid[..], x, y, dy, dx) == HeatNeighboursFrom(nextGrid[..], x, y, dy + 1, -1);
  }

  /** One pass of the inner loop: the centre and off-grid offsets are skipped. */
  method HeatOffset(nextGrid: array<Particle>, x: int, y: int, dy: int, dx: int)
    requires nextGrid.Length == GRID_SIZE && -1 <= dy <= 1 && -1 <= dx <= 1
    modifies nextGrid
    ensures HeatNeighboursFrom(nextGrid[..], x, y, dy, dx + 1) == HeatNeighboursFrom(old(nextGrid[..]), x, y, dy, dx)
  {
    if dx == 0 && dy == 0 {
      return;
    }
    var nx := x + dx;
    var ny := y + dy;
    if InBounds(nx, ny) {
      WarmCell(nextGrid, GetIndex(nx, ny));
    }
  }

  /** The body of the heating loop for one in-grid neighbour. */
  method WarmCell(nextGrid: array<Particle>, nIdx: int)
    requires nextGrid.Length == GRID_SIZE && 0 <= nIdx < GRID_SIZE
    modifies nextGrid
    ensures nextGrid[..] == old(nextGrid[..])[nIdx := Warmed(old(nextGrid[nIdx]))]
  {
    var neighbour := nextGrid[nIdx];
    neighbour := neighbour.(temperature := neighbour.temperature + FIRE_HEAT_STEP);
    if neighbour.temperature > FIRE_HEAT_CAP {
      neighbour := neighbour.(temperature := FIRE_HEAT_CAP);
    }
    nextGrid[nIdx] := neighbour;
  }

  /** The spread attempt of the fire cell (x, y), whose life is now `life`. */
  method SpreadFire(nextGrid: array<Particle>, x: int, y: int, life: int, src: Source, pos: nat)
    returns (next: nat)
    requires nextGrid.Length == GRID_SIZE
    modifies nextGrid
    ensures Drawn(nextGrid[..], next) == Spread(old(nextGrid[..]), x, y, life, src, pos)
  {
    var spreadDraw := Below(src, pos, 3);
    next := pos + 1;
    if !(spreadDraw == 0 && life > 10) {
      return;
    }
    var dir := Below(src, next, 4);
    next := next + 1;
    var nx := x + (if dir == 0 then -1 else if dir == 1 then 1 else 0);
    var ny := y + (if dir == 2 then -1 else if dir == 3 then 1 else 0);
    if !InBounds(nx, ny) {
      return;
    }
    var nIdx := GetIndex(nx, ny);
    if nextGrid[nIdx].kind == EMPTY && nextGrid[nIdx].temperature > SPREAD_MIN_TEMPERATURE {
      var newLife := life - 5 - Below(src, next, 6);
      next := next + 1;
      if newLife > 0 {
        nextGrid[nIdx] := nextGrid[nIdx].(kind := FIRE, state := Gas, life := newLife);
      }
    }
  }

  /** The loop body for cell (x, y). */
  method LifeCell(nextGrid: array<Particle>, x: int, y: int, heatNeighbours: bool, src: Source, pos: nat)
    returns (next: nat)
    requires nextGrid.Length == GRID_SIZE && InBounds(x, y)
    modifies nextGrid
    ensures Drawn(nextGrid[..], next) == LifeStep(old(nextGrid[..]), x, y, heatNeighbours, src, pos)
  {
    next := pos;
    var idx := GetIndex(x, y);
    var p := nextGrid[idx];
    if p.kind == EMPTY || p.kind == WALL {
      return;
    }
    if p.life > 0 {
      p := p.(life := p.life - 1);
      if p.life == 0 {
        nextGrid[idx] := p.(kind := EMPTY, state := Gas);
        return;
      }
    }
    nextGrid[idx] := p;
    if p.kind == FIRE {
      if heatNeighbours {
        HeatNeighbours(nextGrid, x, y);
      }
      next := SpreadFire(nextGrid, x, y, p.life, src, next);
    }
  }

  /** updateLifeAndSpecialMaterials over the next grid. */
  method UpdateLifeAndSpecialMaterials(nextGrid: array<Particle>, heatNeighbours: bool, src: Source, pos: nat)
    returns (next: nat)
    requires nextGrid.Length == GRID_SIZE
    modifies nextGrid
    ensures Drawn(nextGrid[..], next) == LifePass(old(nextGrid[..]), heatNeighbours, src, pos)
  {
    ghost var goal := LifePass(nextGrid[..], heatNeighbours, src, pos);
    next := pos;
    var y := 0;
    while y < HEIGHT
      invariant 0 <= y <= HEIGHT
      invariant LifeFrom(nextGrid[..], y, 0, heatNeighbours, src, next) == goal
    {
      next := LifeRow(nextGrid, y, heatNeighbours, src, next);
      y := y + 1;
    }
  }

  /** The inner loop of the pass, over the cells of row y. */
  method LifeRow(nextGrid: array<Particle>, y: int, heatNeighbours: bool, src: Source, pos: nat)
    returns (next: nat)
    requires nextGrid.Length == GRID_SIZE && 0 <= y < HEIGHT
    modifies nextGrid
    ensures LifeFrom(nextGrid[..], y + 1, 0, heatNeighbours, src, next)
         == LifeFrom(old(nextGrid[..]), y, 0, heatNeighbours, src, pos)
  {
    ghost var goal := LifeFrom(nextGrid[..], y, 0, heatNeighbours, src, pos);
    next := pos;
    var x := 0;
    while x < WIDTH
      invariant 0 <= x <= WIDTH
      invariant LifeFrom(nextGrid[..], y, x, heatNeighbours, src, next) == goal
    {
      next := LifeCell(nextGrid, x, y, heatNeighbours, src, next);
      x := x + 1;
    }
  }
}
