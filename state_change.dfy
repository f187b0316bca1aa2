// Phase transitions between ice, water and steam, applied in place to the next
// grid: at most one transition per cell per pass, chosen by an else-if chain.
module StateChange {
  import opened Particles
  import opened Materials
  import opened Grid

  /** The transition of one cell; only its material and state can change. */
  function PhaseTransition(p: Particle): Particle
  {
    if p.kind == EMPTY || p.kind == WALL then p
    else
      var mat := CppMaterial(p.kind);
      if p.kind == FIRE then p
      else if p.temperature > mat.meltingPoint && p.kind == ICE then p.(kind := WATER, state := Liquid)
      else if p.temperature >= mat.boilingPoint && p.kind == WATER then p.(kind := STEAM, state := Gas)
      else if p.temperature <= mat.meltingPoint && p.kind == WATER then p.(kind := ICE, state := Solid)
      else if p.temperature < mat.boilingPoint && p.kind == STEAM then p.(kind := WATER, state := Liquid)
      else p
  }

  /** The transition table with the water family's points (melting 0, boiling 100):
      ice above 0 melts, water at 100 or above boils, water at 0 or below freezes,
      steam below 100 condenses; every other cell, and every other field, is kept. */
  lemma TransitionTable(p: Particle)
    ensures var q := PhaseTransition(p);
      && q.(kind := p.kind, state := p.state) == p
      && (p.kind != ICE && p.kind != WATER && p.kind != STEAM ==> q == p)
      && (p.kind == ICE ==> q == if p.temperature > 0.0 then p.(kind := WATER, state := Liquid) else p)
      && (p.kind == WATER ==> q == if p.temperature >= 100.0 then p.(kind := STEAM, state := Gas)
                                  else if p.temperature <= 0.0 then p.(kind := ICE, state := Solid)
                                  else p)
      && (p.kind == STEAM ==> q == if p.temperature < 100.0 then p.(kind := WATER, state := Liquid) else p)
  {
    WaterTransitionPoints();
  }

  /** A cell is left unchanged exactly when it is not due for one of the four
      transitions. */
  lemma FixedPoints(p: Particle)
    ensures PhaseTransition(p) == p <==>
      && !(p.kind == ICE && p.temperature > 0.0)
      && !(p.kind == WATER && (p.temperature >= 100.0 || p.temperature <= 0.0))
      && !(p.kind == STEAM && p.temperature < 100.0)
  {
    TransitionTable(p);
  }

  /** One pass moves a cell at most one step along ice - water - steam: ice never
      becomes steam and steam never becomes ice. Hot ice needs two passes to boil. */
  lemma OneStepPerPass(p: Particle)
    ensures p.kind == ICE ==> PhaseTransition(p).kind != STEAM
    ensures p.kind == STEAM ==> PhaseTransition(p).kind != ICE
    ensures var hot := p.(kind := ICE, temperature := 150.0);
      PhaseTransition(hot).kind == WATER && PhaseTransition(PhaseTransition(hot)).kind == STEAM
  {
    TransitionTable(p);
    TransitionTable(p.(kind := ICE, temperature := 150.0));
    TransitionTable(PhaseTransition(p.(kind := ICE, temperature := 150.0)));
  }

  /** updateStateChange over the next grid s. */
  function StateChangePass(s: Cells): (t: Cells)
    requires IsGrid(s)
    ensures IsGrid(t)
    ensures forall k :: 0 <= k < GRID_SIZE ==> t[k] == PhaseTransition(s[k])
  {
    seq(GRID_SIZE, k requires 0 <= k < GRID_SIZE => PhaseTransition(s[k]))
  }

  /** The pass after its first n cells. */
  function StateChangePrefix(s: Cells, n: int): (t: Cells)
    requires IsGrid(s)
    ensures IsGrid(t)
  {
    seq(GRID_SIZE, k requires 0 <= k < GRID_SIZE => if k < n then PhaseTransition(s[k]) else s[k])
  }

  /** The loop body for cell (x, y). */
  method ChangeStateCell(nextGrid: array<Particle>, x: int, y: int)
    requires nextGrid.Length == GRID_SIZE && InBounds(x, y)
    modifies nextGrid
    ensures nextGrid[..] == old(nextGrid[..])[GetIndex(x, y) := PhaseTransition(old(nextGrid[GetIndex(x, y)]))]
  {
    var idx := GetIndex(x, y);
    var p := nextGrid[idx];
    if p.kind == EMPTY || p.kind == WALL {
      return;
    }
    var mat := CppMaterial(p.kind);
    if p.kind == FIRE {
      return;
    }
    if p.temperature > mat.meltingPoint && p.kind == ICE {
      nextGrid[idx] := p.(kind := WATER, state := Liquid);
    } else if p.temperature >= mat.boilingPoint && p.kind == WATER {
      nextGrid[idx] := p.(kind := STEAM, state := Gas);
    } else if p.temperature <= mat.meltingPoint && p.kind == WATER {
      nextGrid[idx] := p.(kind := ICE, state := Solid);
    } else if p.temperature < mat.boilingPoint && p.kind == STEAM {
      nextGrid[idx] := p.(kind := WATER, state := Liquid);
    }
  }

  /** updateStateChange: every cell of the next grid takes its transition. */
  method UpdateStateChange(nextGrid: array<Particle>)
    requires nextGrid.Length == GRID_SIZE
    modifies nextGrid
    ensures nextGrid[..] == StateChangePass(old(nextGrid[..]))
  {
    ghost var s := nextGrid[..];
    var y := 0;
    while y < HEIGHT
      invariant 0 <= y <= HEIGHT
      invariant nextGrid[..] == StateChangePrefix(s, GetIndex(0, y))
    {
      var x := 0;
      while x < WIDTH
        invariant 0 <= x <= WIDTH
        invariant nextGrid[..] == StateChangePrefix(s, GetIndex(x, y))
      {
        ChangeStateCell(nextGrid, x, y);
        assert StateChangePrefix(s, GetIndex(x, y) + 1)
            == StateChangePrefix(s, GetIndex(x, y))[GetIndex(x, y) := PhaseTransition(s[GetIndex(x, y)])];
        x := x + 1;
      }
      y := y + 1;
    }
    assert StateChangePrefix(s, GRID_SIZE) == StateChangePass(s);
  }
}
