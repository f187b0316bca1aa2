// The grid: a WIDTH x HEIGHT row-major array of cells, the next-frame copy,
// the render buffer of material ids, and the chunk activity flags.
module Grid {
  import opened Random
  import opened Particles
  import opened Materials

  const WIDTH: int := 400
  const HEIGHT: int := 300
  const GRID_SIZE: int := WIDTH * HEIGHT

  const CHUNK_SIZE: int := 16
  const CHUNK_WIDTH: int := (WIDTH + CHUNK_SIZE - 1) / CHUNK_SIZE
  const CHUNK_HEIGHT: int := (HEIGHT + CHUNK_SIZE - 1) / CHUNK_SIZE
  const CHUNK_COUNT: int := CHUNK_WIDTH * CHUNK_HEIGHT

  /** The contents of a grid buffer. */
  type Cells = seq<Particle>

  predicate IsGrid(s: Cells)
  {
    |s| == GRID_SIZE
  }

  predicate InBounds(x: int, y: int)
  {
    0 <= x < WIDTH && 0 <= y < HEIGHT
  }

  /** Row-major index of cell (x, y). */
  function GetIndex(x: int, y: int): (i: int)
    ensures InBounds(x, y) ==> 0 <= i < GRID_SIZE
  {
    y * WIDTH + x
  }

  /** Column and row of an index: the inverse of GetIndex. */
  function XOf(i: int): int
  {
    i % WIDTH
  }

  function YOf(i: int): int
  {
    i / WIDTH
  }

  /** GetIndex is a bijection between the in-bounds cells and [0, GRID_SIZE). */
  lemma IndexRoundTrip(x: int, y: int)
    requires InBounds(x, y)
    ensures XOf(GetIndex(x, y)) == x && YOf(GetIndex(x, y)) == y
  {
  }

  lemma CoordinatesRoundTrip(i: int)
    requires 0 <= i < GRID_SIZE
    ensures InBounds(XOf(i), YOf(i)) && GetIndex(XOf(i), YOf(i)) == i
  {
  }

  lemma IndexInjective(x1: int, y1: int, x2: int, y2: int)
    requires InBounds(x1, y1) && InBounds(x2, y2)
    ensures GetIndex(x1, y1) == GetIndex(x2, y2) <==> x1 == x2 && y1 == y2
  {
    IndexRoundTrip(x1, y1);
    IndexRoundTrip(x2, y2);
  }

  /** The offset of cell j from (cx, cy) comes at or after (dx, dy) in a scan of
      offsets row by row (dy outer, dx inner, both ascending). */
  predicate OffsetAtOrAfter(j: int, cx: int, cy: int, dy: int, dx: int)
  {
    var jdy := YOf(j) - cy;
    var jdx := XOf(j) - cx;
    jdy > dy || (jdy == dy && jdx >= dx)
  }

  /** Walls are in the same places in both grids. */
  predicate SameWalls(a: Cells, b: Cells)
    requires IsGrid(a) && IsGrid(b)
  {
    forall k :: 0 <= k < GRID_SIZE ==> (a[k].kind == WALL <==> b[k].kind == WALL)
  }

  /** C++ integer division, which truncates toward zero. */
  function TruncDiv(a: int, b: int): (q: int)
    requires b > 0
    ensures a >= 0 ==> q == a / b
    ensures a < 0 ==> q == -((-a) / b)
  {
    if a >= 0 then a / b else -((-a) / b)
  }

  /** getChunkIndex: the 16 x 16 chunk holding (x, y), or -1 when the truncated chunk
      coordinates fall outside the chunk grid. */
  function GetChunkIndex(x: int, y: int): (c: int)
    ensures c == -1 || 0 <= c < CHUNK_COUNT
    ensures InBounds(x, y) ==> c == (y / CHUNK_SIZE) * CHUNK_WIDTH + x / CHUNK_SIZE
  {
    var cx := TruncDiv(x, CHUNK_SIZE);
    var cy := TruncDiv(y, CHUNK_SIZE);
    if cx < 0 || cx >= CHUNK_WIDTH || cy < 0 || cy >= CHUNK_HEIGHT then -1
    else cy * CHUNK_WIDTH + cx
  }

  /** Truncating division and the rounded-up chunk rows let some cells outside the grid
      name a real chunk: column -1 shares chunk 0, and row 300 lies in the last chunk row.
      Every caller passes an in-bounds cell. */
  lemma ChunkIndexOfOffGridCells()
    ensures !InBounds(-1, 0) && GetChunkIndex(-1, 0) == 0
    ensures !InBounds(0, HEIGHT) && GetChunkIndex(0, HEIGHT) == 18 * CHUNK_WIDTH
    ensures GetChunkIndex(-16, 0) == -1 && GetChunkIndex(WIDTH, 0) == -1
  {
  }

  /** markChunkActive: sets the flag of the chunk of (x, y), if there is one. */
  method MarkChunkActive(activeChunks: array<bool>, x: int, y: int)
    requires activeChunks.Length == CHUNK_COUNT
    modifies activeChunks
    ensures var c := GetChunkIndex(x, y);
      activeChunks[..] == if c == -1 then old(activeChunks[..]) else old(activeChunks[..])[c := true]
    ensures forall i :: 0 <= i < CHUNK_COUNT && old(activeChunks[i]) ==> activeChunks[i]
    ensures (forall i :: 0 <= i < CHUNK_COUNT ==> old(activeChunks[i])) ==>
      activeChunks[..] == old(activeChunks[..])
  {
    var chunkIdx := GetChunkIndex(x, y);
    if 0 <= chunkIdx < CHUNK_COUNT {
      activeChunks[chunkIdx] := true;
    }
  }

  /** A grid of default cells. */
  function EmptyCells(): (s: Cells)
    ensures IsGrid(s)
  {
    seq(GRID_SIZE, _ => DefaultParticle())
  }

  /** initGrid / init: every cell of both buffers default, the render buffer EMPTY,
      every chunk active. */
  method InitGrid(grid: array<Particle>, nextGrid: array<Particle>, renderBuffer: array<int>,
                  activeChunks: array<bool>)
    requires grid.Length == GRID_SIZE && nextGrid.Length == GRID_SIZE
    requires renderBuffer.Length == GRID_SIZE && activeChunks.Length == CHUNK_COUNT
    requires grid != nextGrid
    modifies grid, nextGrid, renderBuffer, activeChunks
    ensures grid[..] == EmptyCells() && nextGrid[..] == EmptyCells()
    ensures forall i :: 0 <= i < GRID_SIZE ==> renderBuffer[i] == EMPTY
    ensures forall i :: 0 <= i < CHUNK_COUNT ==> activeChunks[i]
  {
    var i := 0;
    while i < GRID_SIZE
      invariant 0 <= i <= GRID_SIZE
      invariant forall j :: 0 <= j < i ==> grid[j] == DefaultParticle()
      invariant forall j :: 0 <= j < i ==> nextGrid[j] == DefaultParticle()
      invariant forall j :: 0 <= j < i ==> renderBuffer[j] == EMPTY
    {
      grid[i] := DefaultParticle();
      nextGrid[i] := grid[i];
      renderBuffer[i] := EMPTY;
      i := i + 1;
    }
    assert grid[..] == EmptyCells() && nextGrid[..] == EmptyCells();
    i := 0;
    while i < CHUNK_COUNT
      modifies activeChunks
      invariant 0 <= i <= CHUNK_COUNT
      invariant forall j :: 0 <= j < i ==> activeChunks[j]
    {
      activeChunks[i] := true;
      i := i + 1;
    }
  }

  /** updateRenderBuffer: the render buffer holds the material id of every cell. */
  method UpdateRenderBuffer(grid: array<Particle>, renderBuffer: array<int>)
    requires grid.Length == GRID_SIZE && renderBuffer.Length == GRID_SIZE
    modifies renderBuffer
    ensures forall i :: 0 <= i < GRID_SIZE ==> renderBuffer[i] == grid[i].kind
  {
    var i := 0;
    while i < GRID_SIZE
      invariant 0 <= i <= GRID_SIZE
      invariant forall j :: 0 <= j < i ==> renderBuffer[j] == grid[j].kind
    {
      renderBuffer[i] := grid[i].kind;
      i := i + 1;
    }
  }

  /** The cell addParticle leaves at the target: material t in its default state, at
      rest, with the temperature and lifetime preset of t (fire draws its lifetime). */
  function Seeded(db: seq<Material>, p: Particle, t: int, src: Source, pos: nat): Drawn<Particle>
    requires |db| > 0
  {
    var base := p.(kind := t, state := GetMaterial(db, t).defaultState);
    var preset :=
      if t == FIRE then Drawn(base.(temperature := 150.0, life := 30 + Below(src, pos, 30)), pos + 1)
      else if t == ICE then Drawn(base.(temperature := -10.0, life := INFINITE_LIFE), pos)
      else if t == STEAM then Drawn(base.(temperature := 110.0, life := INFINITE_LIFE), pos)
      else Drawn(base.(temperature := 20.0, life := INFINITE_LIFE), pos);
    Drawn(preset.value.(vx := 0.0, vy := 0.0, latentHeatStorage := 0.0), preset.next)
  }

  /** The presets addParticle applies: fire lives 30..59 frames at 150 degrees and
      consumes one draw; every other material is immortal and consumes none. The moved
      flag is left as it was. */
  lemma SeededPresets(db: seq<Material>, p: Particle, t: int, src: Source, pos: nat)
    requires |db| > 0
    ensures var d := Seeded(db, p, t, src, pos);
      && d.value.kind == t
      && d.value.state == GetMaterial(db, t).defaultState
      && d.value.vx == 0.0 && d.value.vy == 0.0 && d.value.latentHeatStorage == 0.0
      && d.value.updatedThisFrame == p.updatedThisFrame
      && (t == FIRE ==> d.value.temperature == 150.0 && 30 <= d.value.life < 60 && d.next == pos + 1)
      && (t == ICE ==> d.value.temperature == -10.0)
      && (t == STEAM ==> d.value.temperature == 110.0)
      && (t != FIRE && t != ICE && t != STEAM ==> d.value.temperature == 20.0)
      && (t != FIRE ==> d.value.life == INFINITE_LIFE && d.next == pos)
  {
  }

  /** The presets addParticle gives a cell of material t, computed on a local copy
      of the cell p. */
  method SeedCell(db: seq<Material>, p: Particle, t: int, src: Source, pos: nat) returns (q: Particle, next: nat)
    requires |db| > 0
    ensures Drawn(q, next) == Seeded(db, p, t, src, pos)
  {
    next := pos;
    q := p.(kind := t);
    var mat := GetMaterial(db, t);
    q := q.(state := mat.defaultState);
    if t == FIRE {
      q := q.(temperature := 150.0, life := 30 + Below(src, next, 30));
      next := next + 1;
    } else if t == ICE {
      q := q.(temperature := -10.0, life := INFINITE_LIFE);
    } else if t == STEAM {
      q := q.(temperature := 110.0, life := INFINITE_LIFE);
    } else {
      q := q.(temperature := 20.0, life := INFINITE_LIFE);
    }
    q := q.(vx := 0.0, vy := 0.0, latentHeatStorage := 0.0);
  }

  /** addParticle of the C++ program: overwrites the cell at (x, y) whatever it held. */
  method AddParticle(grid: array<Particle>, activeChunks: array<bool>, x: int, y: int, t: int,
                     src: Source, pos: nat) returns (next: nat)
    requires grid.Length == GRID_SIZE && activeChunks.Length == CHUNK_COUNT
    modifies grid, activeChunks
    ensures !InBounds(x, y) ==>
      grid[..] == old(grid[..]) && activeChunks[..] == old(activeChunks[..]) && next == pos
    ensures InBounds(x, y) ==>
      var d := Seeded(CPP_MATERIAL_DB, old(grid[GetIndex(x, y)]), t, src, pos);
      && grid[..] == old(grid[..])[GetIndex(x, y) := d.value]
      && next == d.next
      && activeChunks[..] == old(activeChunks[..])[GetChunkIndex(x, y) := true]
  {
    next := pos;
    if !InBounds(x, y) {
      return;
    }
    next := PlaceParticle(CPP_MATERIAL_DB, grid, activeChunks, x, y, t, src, pos);
  }

  /** The part of addParticle shared by both programs, for an in-bounds (x, y): the
      cell seeded with material t of the table db, and its chunk marked active. */
  method PlaceParticle(db: seq<Material>, grid: array<Particle>, activeChunks: array<bool>, x: int, y: int, t: int,
                       src: Source, pos: nat) returns (next: nat)
    requires |db| > 0 && grid.Length == GRID_SIZE && activeChunks.Length == CHUNK_COUNT && InBounds(x, y)
    modifies grid, activeChunks
    ensures var d := Seeded(db, old(grid[GetIndex(x, y)]), t, src, pos);
      && grid[..] == old(grid[..])[GetIndex(x, y) := d.value]
      && next == d.next
    ensures activeChunks[..] == old(activeChunks[..])[GetChunkIndex(x, y) := true]
  {
    var idx := GetIndex(x, y);
    var p;
    p, next := SeedCell(db, grid[idx], t, src, pos);
    grid[idx] := p;
    MarkChunkActive(activeChunks, x, y);
  }
}
