// Heat conduction: every cell's temperature moves towards the mean of its
// in-bounds up/down/left/right neighbours, at a rate inversely proportional to
// its material's specific heat. The pass reads the current grid and writes only
// the temperatures of the next grid.
module HeatConduction {
  import opened Particles
  import opened Materials
  import opened Grid

  const HEAT_CONDUCTION_BASE: real := 0.05

  /** Temperatures of the in-bounds neighbours of (x, y) in `cur`, in the order up,
      down, left, right. */
  function NeighbourTemps(cur: Cells, x: int, y: int): seq<real>
    requires IsGrid(cur)
  {
    (if InBounds(x, y - 1) then [cur[GetIndex(x, y - 1)].temperature] else [])
    + (if InBounds(x, y + 1) then [cur[GetIndex(x, y + 1)].temperature] else [])
    + (if InBounds(x - 1, y) then [cur[GetIndex(x - 1, y)].temperature] else [])
    + (if InBounds(x + 1, y) then [cur[GetIndex(x + 1, y)].temperature] else [])
  }

  /** An inner cell has four neighbours, an edge cell three and a corner cell two;
      no cell of the grid has none. */
  lemma NeighbourCount(cur: Cells, x: int, y: int)
    requires IsGrid(cur) && InBounds(x, y)
    ensures 2 <= |NeighbourTemps(cur, x, y)| <= 4
    ensures |NeighbourTemps(cur, x, y)| == 4 <==> 0 < x < WIDTH - 1 && 0 < y < HEIGHT - 1
    ensures |NeighbourTemps(cur, x, y)| == 2 <==> (x == 0 || x == WIDTH - 1) && (y == 0 || y == HEIGHT - 1)
  {
  }

  /** Left-to-right sum, the order of the accumulation loop. */
  function Sum(ts: seq<real>): real
  {
    if |ts| == 0 then 0.0 else Sum(ts[..|ts| - 1]) + ts[|ts| - 1]
  }

  function Mean(ts: seq<real>): real
    requires |ts| > 0
  {
    Sum(ts) / |ts| as real
  }

  lemma {:induction false} SumBounds(ts: seq<real>, lo: real, hi: real)
    requires forall i :: 0 <= i < |ts| ==> lo <= ts[i] <= hi
    ensures |ts| as real * lo <= Sum(ts) <= |ts| as real * hi
  {
    if |ts| > 0 {
      SumBounds(ts[..|ts| - 1], lo, hi);
    }
  }

  /** The mean lies within any bounds of its terms; the mean of equal terms is that term. */
  lemma MeanBounds(ts: seq<real>, lo: real, hi: real)
    requires |ts| > 0
    requires forall i :: 0 <= i < |ts| ==> lo <= ts[i] <= hi
    ensures lo <= Mean(ts) <= hi
  {
    SumBounds(ts, lo, hi);
    var n := |ts| as real;
    assert Mean(ts) * n == Sum(ts);
  }

  lemma MeanOfEqual(ts: seq<real>, t: real)
    requires |ts| > 0
    requires forall i :: 0 <= i < |ts| ==> ts[i] == t
    ensures Mean(ts) == t
  {
    MeanBounds(ts, t, t);
  }

  /** conductionRate of a material. */
  function ConductionRate(m: Material): real
    requires m.specificHeat > 0.0
  {
    HEAT_CONDUCTION_BASE / (m.specificHeat / 1000.0)
  }

  /** Every rate of the C++ table lies strictly between 0 and 1 (the smallest specific
      heat is 830, giving 50/830). */
  lemma CppRateBounds(t: int)
    ensures 0.0 < ConductionRate(CppMaterial(t)) < 1.0
  {
    var sh := CppMaterial(t).specificHeat;
    var r := ConductionRate(CppMaterial(t));
    assert r * (sh / 1000.0) == HEAT_CONDUCTION_BASE;
  }

  /** A higher specific heat gives a strictly smaller rate: such materials change
      temperature more slowly. */
  lemma RateDecreasesWithSpecificHeat(m1: Material, m2: Material)
    requires 0.0 < m1.specificHeat < m2.specificHeat
    ensures ConductionRate(m2) < ConductionRate(m1)
  {
    var a := m1.specificHeat / 1000.0;
    var b := m2.specificHeat / 1000.0;
    assert ConductionRate(m1) * a == HEAT_CONDUCTION_BASE;
    assert ConductionRate(m2) * b == HEAT_CONDUCTION_BASE;
    assert ConductionRate(m2) * a < ConductionRate(m2) * b;
  }

  /** The new temperature: t moved towards avg by the fraction rate. */
  function Conducted(t: real, avg: real, rate: real): real
  {
    t + (avg - t) * rate
  }

  lemma TowardsAbove(t: real, avg: real, rate: real)
    requires t < avg && 0.0 < rate <= 1.0
    ensures t < Conducted(t, avg, rate) <= avg
  {
    var d := avg - t;
    assert d * (1.0 - rate) >= 0.0;
    assert d * rate > 0.0;
  }

  lemma TowardsBelow(t: real, avg: real, rate: real)
    requires avg < t && 0.0 < rate <= 1.0
    ensures avg <= Conducted(t, avg, rate) < t
  {
    var d := avg - t;
    assert d * (1.0 - rate) <= 0.0;
    assert d * rate < 0.0;
  }

  /** With a rate in (0, 1] the new temperature lies between the old one and the
      mean; it equals the old one exactly when the mean does. */
  lemma ConductedBetween(t: real, avg: real, rate: real)
    requires 0.0 < rate <= 1.0
    ensures t <= avg ==> t <= Conducted(t, avg, rate) <= avg
    ensures avg <= t ==> avg <= Conducted(t, avg, rate) <= t
    ensures Conducted(t, avg, rate) == t <==> avg == t
  {
    if avg > t {
      TowardsAbove(t, avg, rate);
    } else if avg < t {
      TowardsBelow(t, avg, rate);
    }
  }

  /** The cell k of the next grid after conduction: its temperature replaced by the
      conducted temperature of the current cell k (all other fields of the next-grid
      cell kept). */
  function Heated(cur: Cells, k: int, n: Particle): Particle
    requires IsGrid(cur) && 0 <= k < GRID_SIZE
  {
    var p := cur[k];
    var ts := NeighbourTemps(cur, XOf(k), YOf(k));
    if |ts| == 0 then n
    else n.(temperature := Conducted(p.temperature, Mean(ts), ConductionRate(CppMaterial(p.kind))))
  }

  /** updateHeatConduction over the current grid cur and the next grid s. */
  function HeatPass(cur: Cells, s: Cells): (t: Cells)
    requires IsGrid(cur) && IsGrid(s)
    ensures IsGrid(t)
  {
    seq(GRID_SIZE, k requires 0 <= k < GRID_SIZE => Heated(cur, k, s[k]))
  }

  /** What the pass does to cell k: only the temperature is written; it becomes a
      value between the current temperature and the neighbour mean (so it stays put
      when the neighbours all share it), computed from the current grid alone. */
  lemma HeatPassCell(cur: Cells, s: Cells, k: int)
    requires IsGrid(cur) && IsGrid(s) && 0 <= k < GRID_SIZE
    ensures var t := HeatPass(cur, s)[k];
      var ts := NeighbourTemps(cur, XOf(k), YOf(k));
      && |ts| > 0
      && t.(temperature := s[k].temperature) == s[k]
      && (cur[k].temperature <= Mean(ts) ==> cur[k].temperature <= t.temperature <= Mean(ts))
      && (Mean(ts) <= cur[k].temperature ==> Mean(ts) <= t.temperature <= cur[k].temperature)
      && (t.temperature == cur[k].temperature <==> Mean(ts) == cur[k].temperature)
  {
    CoordinatesRoundTrip(k);
    NeighbourCount(cur, XOf(k), YOf(k));
    var ts := NeighbourTemps(cur, XOf(k), YOf(k));
    CppRateBounds(cur[k].kind);
    ConductedBetween(cur[k].temperature, Mean(ts), ConductionRate(CppMaterial(cur[k].kind)));
  }

  /** A cell all of whose neighbours share its temperature keeps it. */
  lemma HeatEquilibrium(cur: Cells, s: Cells, k: int)
    requires IsGrid(cur) && IsGrid(s) && 0 <= k < GRID_SIZE
    requires var ts := NeighbourTemps(cur, XOf(k), YOf(k));
      forall i :: 0 <= i < |ts| ==> ts[i] == cur[k].temperature
    ensures HeatPass(cur, s)[k].temperature == cur[k].temperature
  {
    CoordinatesRoundTrip(k);
    NeighbourCount(cur, XOf(k), YOf(k));
    MeanOfEqual(NeighbourTemps(cur, XOf(k), YOf(k)), cur[k].temperature);
    HeatPassCell(cur, s, k);
  }

  /** The pass after its first n cells. */
  function HeatPrefix(cur: Cells, s: Cells, n: int): (t: Cells)
    requires IsGrid(cur) && IsGrid(s)
    ensures IsGrid(t)
  {
    seq(GRID_SIZE, k requires 0 <= k < GRID_SIZE => if k < n then Heated(cur, k, s[k]) else s[k])
  }

  /** The accumulation loop and the division by the count. */
  method Average(neighborTemps: seq<real>) returns (avgTemp: real)
    requires |neighborTemps| > 0
    ensures avgTemp == Mean(neighborTemps)
  {
    var count := |neighborTemps|;
    avgTemp := 0.0;
    var i := 0;
    while i < count
      invariant 0 <= i <= count
      invariant avgTemp == Sum(neighborTemps[..i])
    {
      assert neighborTemps[..i + 1][..i] == neighborTemps[..i];
      avgTemp := avgTemp + neighborTemps[i];
      i := i + 1;
    }
    assert neighborTemps[..count] == neighborTemps;
    avgTemp := avgTemp / count as real;
  }

  /** The loop body for cell (x, y): the neighbour temperatures are collected in
      order, summed, averaged, and the conducted temperature is written. */
  method ConductCell(grid: array<Particle>, nextGrid: array<Particle>, x: int, y: int)
    requires grid.Length == GRID_SIZE && nextGrid.Length == GRID_SIZE && grid != nextGrid
    requires InBounds(x, y)
    modifies nextGrid
    ensures nextGrid[..] == old(nextGrid[..])[GetIndex(x, y) := Heated(grid[..], GetIndex(x, y), old(nextGrid[GetIndex(x, y)]))]
  {
    IndexRoundTrip(x, y);
    var idx := GetIndex(x, y);
    var p := grid[idx];
    var mat := CppMaterial(p.kind);
    var neighborTemps: seq<real> := [];
    if InBounds(x, y - 1) { neighborTemps := neighborTemps + [grid[GetIndex(x, y - 1)].temperature]; }
    if InBounds(x, y + 1) { neighborTemps := neighborTemps + [grid[GetIndex(x, y + 1)].temperature]; }
    if InBounds(x - 1, y) { neighborTemps := neighborTemps + [grid[GetIndex(x - 1, y)].temperature]; }
    if InBounds(x + 1, y) { neighborTemps := neighborTemps + [grid[GetIndex(x + 1, y)].temperature]; }
    assert neighborTemps == NeighbourTemps(grid[..], x, y);
    var count := |neighborTemps|;
    if count == 0 {
      return;
    }
    var avgTemp := Average(neighborTemps);
    var conductionRate := ConductionRate(mat);
    var newTemp := Conducted(p.temperature, avgTemp, conductionRate);
    nextGrid[idx] := nextGrid[idx].(temperature := newTemp);
  }

  /** updateHeatConduction: the next grid becomes HeatPass of the current one. */
  method UpdateHeatConduction(grid: array<Particle>, nextGrid: array<Particle>)
    requires grid.Length == GRID_SIZE && nextGrid.Length == GRID_SIZE && grid != nextGrid
    modifies nextGrid
    ensures nextGrid[..] == HeatPass(grid[..], old(nextGrid[..]))
  {
    ghost var s := nextGrid[..];
    var y := 0;
    while y < HEIGHT
      invariant 0 <= y <= HEIGHT
      invariant nextGrid[..] == HeatPrefix(grid[..], s, GetIndex(0, y))
    {
      var x := 0;
      while x < WIDTH
        invariant 0 <= x <= WIDTH
        invariant nextGrid[..] == HeatPrefix(grid[..], s, GetIndex(x, y))
      {
        ConductCell(grid, nextGrid, x, y);
        assert HeatPrefix(grid[..], s, GetIndex(x, y) + 1)
            == HeatPrefix(grid[..], s, GetIndex(x, y))[GetIndex(x, y) := Heated(grid[..], GetIndex(x, y), s[GetIndex(x, y)])];
        x := x + 1;
      }
      y := y + 1;
    }
    assert HeatPrefix(grid[..], s, GRID_SIZE) == HeatPass(grid[..], s);
  }
}
