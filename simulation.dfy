// The C++ simulation: its four buffers (grid, next grid, render buffer, active
// chunks) and the exported init, update and addParticle. A frame copies the grid
// into the next grid, clears the moved flags, runs heat conduction, phase
// transitions, forces, life and movement on the next grid (reading the grid where a
// pass does), commits the next grid and refreshes the render buffer. The chemistry
// pass is not called by the C++ frame.
module Simulation {
  import opened Random
  import opened Particles
  import opened Materials
  import opened Grid
  import opened HeatConduction
  import opened StateChange
  import opened Forces
  import opened SpecialMaterials
  import opened Movement
  import opened MovementScan

  /** The start of a frame: the next grid is the grid with every moved flag cleared. */
  function Prepared(cur: Cells): (s: Cells)
    requires IsGrid(cur)
    ensures IsGrid(s)
  {
    seq(GRID_SIZE, k requires 0 <= k < GRID_SIZE => cur[k].(updatedThisFrame := false))
  }

  /** One C++ frame from the grid cur, drawing from position pos: the committed grid
      and the position of the next unused draw. */
  function CppFrame(cur: Cells, src: Source, pos: nat): (d: Drawn<Cells>)
    requires IsGrid(cur)
    ensures IsGrid(d.value)
  {
    var s0 := Prepared(cur);
    var s1 := HeatPass(cur, s0);
    var s2 := StateChangePass(s1);
    var s3 := ForcesPass(s2);
    var life := LifePass(s3, true, src, pos);
    MovementPass(CppRule, cur, life.value, src, life.next)
  }

  // ---------------------------------------------------------------------------
  // Properties of a frame
  // ---------------------------------------------------------------------------

  /** The passes before movement leave every wall where it was and create none. */
  lemma PassesKeepWalls(cur: Cells, src: Source, pos: nat)
    requires IsGrid(cur)
    ensures var s3 := ForcesPass(StateChangePass(HeatPass(cur, Prepared(cur))));
      SameWalls(cur, LifePass(s3, true, src, pos).value)
  {
    var s0 := Prepared(cur);
    var s1 := HeatPass(cur, s0);
    var s2 := StateChangePass(s1);
    var s3 := ForcesPass(s2);
    forall k | 0 <= k < GRID_SIZE
      ensures cur[k].kind == WALL <==> s3[k].kind == WALL
    {
      HeatPassCell(cur, s0, k);
      TransitionTable(s1[k]);
      ForcedCell(s2[k]);
    }
    LifePassFrame(s3, true, src, pos);
  }

  /** A C++ frame never creates, moves or removes a wall: walls are exactly where
      they were before the frame. */
  lemma CppFrameKeepsWalls(cur: Cells, src: Source, pos: nat)
    requires IsGrid(cur)
    ensures SameWalls(cur, CppFrame(cur, src, pos).value)
  {
    var s3 := ForcesPass(StateChangePass(HeatPass(cur, Prepared(cur))));
    var life := LifePass(s3, true, src, pos);
    PassesKeepWalls(cur, src, pos);
    MovementPassInvariants(CppRule, cur, life.value, src, life.next);
  }

  /** A frame of the freshly initialised world leaves it as it is and consumes one
      draw per row (the row directions of the movement scan) and no other. */
  lemma CppFrameOfEmptyWorld(src: Source, pos: nat)
    ensures CppFrame(EmptyCells(), src, pos) == Drawn(EmptyCells(), pos + HEIGHT)
  {
    var e := EmptyCells();
    assert Prepared(e) == e;
    forall k | 0 <= k < GRID_SIZE
      ensures HeatPass(e, e)[k] == e[k]
    {
      HeatEquilibrium(e, e, k);
      HeatPassCell(e, e, k);
    }
    assert HeatPass(e, e) == e;
    assert StateChangePass(e) == e;
    assert ForcesPass(e) == e;
    LifePassVacant(e, true, src, pos);
    MovementPassAllStay(CppRule, e, e, src, pos);
  }

  // ---------------------------------------------------------------------------
  // The program's state and its exported functions
  // ---------------------------------------------------------------------------

  class CppSimulation {
    const grid: array<Particle>
    const nextGrid: array<Particle>
    const renderBuffer: array<int>
    const activeChunks: array<bool>
    /** The rand() stream, and the position of its next unused draw. */
    const src: Source
    var pos: nat

    predicate Valid()
    {
      && grid.Length == GRID_SIZE && nextGrid.Length == GRID_SIZE
      && renderBuffer.Length == GRID_SIZE && activeChunks.Length == CHUNK_COUNT
      && grid != nextGrid
    }

    /** The program's static buffers before init: default cells, a zeroed render
        buffer and no active chunk. */
    constructor(src: Source)
      requires src.CRand?
      ensures Valid() && this.src == src && pos == 0
      ensures grid[..] == EmptyCells() && nextGrid[..] == EmptyCells()
      ensures forall i :: 0 <= i < GRID_SIZE ==> renderBuffer[i] == EMPTY
      ensures forall i :: 0 <= i < CHUNK_COUNT ==> !activeChunks[i]
      ensures fresh(grid) && fresh(nextGrid) && fresh(renderBuffer) && fresh(activeChunks)
    {
      grid := new Particle[GRID_SIZE](_ => DefaultParticle());
      nextGrid := new Particle[GRID_SIZE](_ => DefaultParticle());
      renderBuffer := new int[GRID_SIZE](_ => EMPTY);
      activeChunks := new bool[CHUNK_COUNT](_ => false);
      this.src := src;
      pos := 0;
      new;
      assert grid[..] == EmptyCells() && nextGrid[..] == EmptyCells();
    }

    /** init: both grids default, the render buffer EMPTY, every chunk active. */
    method Init()
      requires Valid()
      modifies grid, nextGrid, renderBuffer, activeChunks
      ensures grid[..] == EmptyCells() && nextGrid[..] == EmptyCells()
      ensures forall i :: 0 <= i < GRID_SIZE ==> renderBuffer[i] == EMPTY
      ensures forall i :: 0 <= i < CHUNK_COUNT ==> activeChunks[i]
    {
      InitGrid(grid, nextGrid, renderBuffer, activeChunks);
    }

    /** addParticle: out of bounds nothing happens; otherwise the cell is overwritten
        with the seeded material and its chunk marked active. */
    method AddParticle(x: int, y: int, t: int)
      requires Valid()
      modifies grid, activeChunks, this`pos
      ensures !InBounds(x, y) ==>
        grid[..] == old(grid[..]) && activeChunks[..] == old(activeChunks[..]) && pos == old(pos)
      ensures InBounds(x, y) ==>
        var d := Seeded(CPP_MATERIAL_DB, old(grid[GetIndex(x, y)]), t, src, old(pos));
        && grid[..] == old(grid[..])[GetIndex(x, y) := d.value]
        && pos == d.next
        && activeChunks[..] == old(activeChunks[..])[GetChunkIndex(x, y) := true]
    {
      pos := Grid.AddParticle(grid, activeChunks, x, y, t, src, pos);
    }

    /** update: one frame. The committed grid is the frame of the old grid, the next
        grid holds the same cells, and the render buffer shows their materials. */
    method Update()
      requires Valid()
      modifies grid, nextGrid, renderBuffer, this`pos
      ensures Drawn(grid[..], pos) == CppFrame(old(grid[..]), src, old(pos))
      ensures nextGrid[..] == grid[..]
      ensures forall i :: 0 <= i < GRID_SIZE ==> renderBuffer[i] == grid[i].kind
    {
      PrepareNextGrid(grid, nextGrid);
      pos := RunCppPasses(grid, nextGrid, src, pos);
      CommitNextGrid(grid, nextGrid);
      UpdateRenderBuffer(grid, renderBuffer);
    }
  }

  /** The copy of the grid into the next grid, then the loop clearing the moved
      flags. */
  method PrepareNextGrid(grid: array<Particle>, nextGrid: array<Particle>)
    requires grid.Length == GRID_SIZE && nextGrid.Length == GRID_SIZE && grid != nextGrid
    modifies nextGrid
    ensures nextGrid[..] == Prepared(grid[..])
  {
    forall i | 0 <= i < GRID_SIZE {
      nextGrid[i] := grid[i];
    }
    var i := 0;
    while i < GRID_SIZE
      invariant 0 <= i <= GRID_SIZE
      invariant forall j :: 0 <= j < i ==> nextGrid[j] == grid[j].(updatedThisFrame := false)
      invariant forall j :: i <= j < GRID_SIZE ==> nextGrid[j] == grid[j]
    {
      nextGrid[i] := nextGrid[i].(updatedThisFrame := false);
      i := i + 1;
    }
    assert nextGrid[..] == Prepared(grid[..]);
  }

  /** The passes of a C++ frame, in their order, on the prepared next grid. */
  method RunCppPasses(grid: array<Particle>, nextGrid: array<Particle>, src: Source, pos: nat)
    returns (next: nat)
    requires grid.Length == GRID_SIZE && nextGrid.Length == GRID_SIZE && grid != nextGrid
    requires nextGrid[..] == Prepared(grid[..])
    modifies nextGrid
    ensures Drawn(nextGrid[..], next) == CppFrame(grid[..], src, pos)
  {
    UpdateHeatConduction(grid, nextGrid);
    UpdateStateChange(nextGrid);
    UpdateForces(nextGrid);
    ghost var s3 := nextGrid[..];
    assert s3 == ForcesPass(StateChangePass(HeatPass(grid[..], Prepared(grid[..]))));
    next := UpdateLifeAndSpecialMaterials(nextGrid, true, src, pos);
    ghost var life := Drawn(nextGrid[..], next);
    assert life == LifePass(s3, true, src, pos);
    next := UpdateMovement(CppRule, grid, nextGrid, src, next);
  }

  /** The final copy of the next grid into the grid. */
  method CommitNextGrid(grid: array<Particle>, nextGrid: array<Particle>)
    requires grid.Length == GRID_SIZE && nextGrid.Length == GRID_SIZE && grid != nextGrid
    modifies grid
    ensures grid[..] == nextGrid[..]
  {
    forall i | 0 <= i < GRID_SIZE {
      grid[i] := nextGrid[i];
    }
    assert grid[..] == nextGrid[..];
  }
}
