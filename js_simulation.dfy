// The JavaScript mirror of the simulation: a grid object holding the same four
// buffers, a reaction registry, and a frame of three passes on the next grid:
// chemistry (with the JavaScript material table), a life countdown, and the
// JavaScript movement rules. Math.random() and Math.sqrt are injected.
module WebSimulation {
  import opened Random
  import opened Particles
  import opened Materials
  import opened Grid
  import opened ReactionTypes
  import opened Registry
  import opened Chemistry
  import opened SpecialMaterials
  import opened Movement
  import opened MovementScan
  import opened Simulation

  // ---------------------------------------------------------------------------
  // The life countdown (LifeSystem)
  // ---------------------------------------------------------------------------

  /** One cell of the countdown: an empty cell is skipped; a positive life drops by
      one, and a cell whose life reaches 0 becomes empty gas. Unlike the C++ pass,
      walls are not skipped, fire does not heat or spread, and nothing is drawn. */
  function JsAged(p: Particle): (q: Particle)
    ensures q.(kind := p.kind, state := p.state, life := p.life) == p
    ensures p.kind == EMPTY || p.life <= 0 ==> q == p
    ensures p.kind != EMPTY && p.life > 0 ==> q.life == p.life - 1
    ensures q.kind != p.kind <==> p.kind != EMPTY && p.life == 1
    ensures q.kind != p.kind ==> q.kind == EMPTY && q.state == Gas
  {
    if p.kind == EMPTY then p
    else if p.life > 0 then
      var aged := p.(life := p.life - 1);
      if aged.life == 0 then aged.(kind := EMPTY, state := Gas) else aged
    else p
  }

  /** The countdown over the whole next grid. */
  function JsLifePass(s: Cells): (t: Cells)
    requires IsGrid(s)
    ensures IsGrid(t)
  {
    seq(GRID_SIZE, k requires 0 <= k < GRID_SIZE => JsAged(s[k]))
  }

  /** The countdown after its first n cells. */
  function JsLifePrefix(s: Cells, n: int): (t: Cells)
    requires IsGrid(s)
    ensures IsGrid(t)
  {
    seq(GRID_SIZE, k requires 0 <= k < GRID_SIZE => if k < n then JsAged(s[k]) else s[k])
  }

  /** On every cell other than a wall, the countdown does to the cell what the C++
      life step does to its own cell (whatever the C++ fire then does to its
      neighbours). */
  lemma JsAgedMatchesCpp(s: Cells, x: int, y: int, heatNeighbours: bool, src: Source, pos: nat)
    requires IsGrid(s) && InBounds(x, y) && s[GetIndex(x, y)].kind != WALL
    ensures LifeStep(s, x, y, heatNeighbours, src, pos).value[GetIndex(x, y)] == JsAged(s[GetIndex(x, y)])
  {
    LifeStepOwnCell(s, x, y, heatNeighbours, src, pos);
  }

  /** The countdown never creates a material, never moves a cell, and keeps every
      wall of an immortal (life <= 0) wall grid, as every wall placed by
      addParticle is. */
  lemma JsLifePassFrame(s: Cells)
    requires IsGrid(s)
    ensures forall k :: 0 <= k < GRID_SIZE ==>
      JsLifePass(s)[k].kind == s[k].kind || JsLifePass(s)[k].kind == EMPTY
    ensures (forall k :: 0 <= k < GRID_SIZE && s[k].kind == WALL ==> s[k].life <= 0) ==>
      SameWalls(s, JsLifePass(s)) && (WallsSolid(s) ==> WallsSolid(JsLifePass(s)))
    ensures Vacant(s) ==> JsLifePass(s) == s
  {
    if Vacant(s) {
      assert JsLifePass(s) == s;
    }
  }

  /** LifeSystem.update on the next grid. */
  method UpdateJsLife(nextGrid: array<Particle>)
    requires nextGrid.Length == GRID_SIZE
    modifies nextGrid
    ensures nextGrid[..] == JsLifePass(old(nextGrid[..]))
  {
    ghost var s := nextGrid[..];
    var i := 0;
    while i < GRID_SIZE
      invariant 0 <= i <= GRID_SIZE
      invariant nextGrid[..] == JsLifePrefix(s, i)
    {
      var p := nextGrid[i];
      if p.kind == EMPTY {
        i := i + 1;
        continue;
      }
      if p.life > 0 {
        p := p.(life := p.life - 1);
        if p.life == 0 {
          p := p.(kind := EMPTY, state := Gas);
        }
      }
      nextGrid[i] := p;
      assert nextGrid[..] == JsLifePrefix(s, i + 1);
      i := i + 1;
    }
    assert JsLifePrefix(s, GRID_SIZE) == JsLifePass(s);
  }

  // ---------------------------------------------------------------------------
  // addParticle of the grid object
  // ---------------------------------------------------------------------------

  /** addParticle: only an in-bounds EMPTY cell is filled, with the material seeded
      from the JavaScript table (fire draws its lifetime from Math.random()). */
  function JsAdded(s: Cells, x: int, y: int, t: int, src: Source, pos: nat): (d: Drawn<Cells>)
    requires IsGrid(s)
    ensures IsGrid(d.value)
  {
    if !InBounds(x, y) || s[GetIndex(x, y)].kind != EMPTY then Drawn(s, pos)
    else
      var c := Seeded(JS_MATERIAL_DB, s[GetIndex(x, y)], t, src, pos);
      Drawn(s[GetIndex(x, y) := c.value], c.next)
  }

  /** Every wall lives for ever (a lifetime of at most 0 is never counted down). */
  predicate ImmortalWalls(s: Cells)
  {
    forall k :: 0 <= k < |s| && s[k].kind == WALL ==> s[k].life <= 0
  }

  /** Placing a particle never overwrites a present cell, changes at most the target
      cell, and keeps every wall solid and immortal (a new wall takes the table's SOLID
      state and the infinite lifetime). */
  lemma JsAddedFrame(s: Cells, x: int, y: int, t: int, src: Source, pos: nat)
    requires IsGrid(s)
    ensures var r := JsAdded(s, x, y, t, src, pos).value;
      && (forall k :: 0 <= k < GRID_SIZE && s[k].kind != EMPTY ==> r[k] == s[k])
      && (forall k :: 0 <= k < GRID_SIZE && (!InBounds(x, y) || k != GetIndex(x, y)) ==> r[k] == s[k])
      && (WallsSolid(s) ==> WallsSolid(r))
      && (ImmortalWalls(s) ==> ImmortalWalls(r))
      && (InBounds(x, y) && s[GetIndex(x, y)].kind == EMPTY ==> r[GetIndex(x, y)].kind == t)
  {
    if InBounds(x, y) && s[GetIndex(x, y)].kind == EMPTY {
      SeededPresets(JS_MATERIAL_DB, s[GetIndex(x, y)], t, src, pos);
      if t == WALL {
        assert GetMaterial(JS_MATERIAL_DB, WALL).defaultState == Solid;
      }
    }
  }

  /** addParticle on the grid buffers; only a filled cell marks its chunk active.
      The chunk index is the truncating Grid.GetChunkIndex while the JavaScript
      getChunkIndex floors; the two agree here because it is only asked about
      cells inside the grid, whose coordinates are not negative. */
  method JsAddParticle(grid: array<Particle>, activeChunks: array<bool>, x: int, y: int, t: int,
                       src: Source, pos: nat) returns (next: nat)
    requires grid.Length == GRID_SIZE && activeChunks.Length == CHUNK_COUNT
    modifies grid, activeChunks
    ensures InBounds(x, y) && old(grid[GetIndex(x, y)]).kind == EMPTY ==>
      activeChunks[..] == old(activeChunks[..])[GetChunkIndex(x, y) := true]
    ensures !(InBounds(x, y) && old(grid[GetIndex(x, y)]).kind == EMPTY) ==>
      activeChunks[..] == old(activeChunks[..])
    ensures Drawn(grid[..], next) == JsAdded(old(grid[..]), x, y, t, src, pos)
  {
    next := pos;
    if !InBounds(x, y) {
      return;
    }
    var idx := GetIndex(x, y);
    if grid[idx].kind != EMPTY {
      return;
    }
    next := PlaceParticle(JS_MATERIAL_DB, grid, activeChunks, x, y, t, src, pos);
  }

  // ---------------------------------------------------------------------------
  // A frame
  // ---------------------------------------------------------------------------

  /** One JavaScript frame from the grid cur with the registered rules: the committed
      grid and the position of the next unused draw. */
  function JsFrame(rules: seq<ReactionRule>, cur: Cells, sqrt: nat -> real, src: Source, pos: nat)
    : (d: Drawn<Cells>)
    requires IsGrid(cur) && PositiveRoot(sqrt)
    ensures IsGrid(d.value)
  {
    var c := ChemistryPass(JS_MATERIAL_DB, rules, cur, Prepared(cur), sqrt, src, pos);
    MovementPass(JsRule, cur, JsLifePass(c.value), src, c.next)
  }

  /** The initial rules start no reaction on the freshly initialised world, so a
      frame leaves it as it is and consumes one draw per row and no other. */
  lemma JsFrameOfEmptyWorld(sqrt: nat -> real, src: Source, pos: nat)
    requires PositiveRoot(sqrt)
    ensures JsFrame(InitialRules(), EmptyCells(), sqrt, src, pos) == Drawn(EmptyCells(), pos + HEIGHT)
  {
    var e := EmptyCells();
    InitialPairsDistinct();
    assert forall i :: 0 <= i < |InitialRules()| ==> ReactantPairs(InitialRules())[i].0 != EMPTY;
    assert Inert(InitialRules(), e);
    assert Prepared(e) == e;
    ChemistryInert(JS_MATERIAL_DB, InitialRules(), e, e, sqrt, src, pos);
    JsLifePassFrame(e);
    MovementPassAllStay(JsRule, e, e, src, pos);
  }

  /** A frame keeps every wall in its cell when the registered rules name no wall and
      every wall is solid and immortal, as addParticle places walls: chemistry reacts
      with no wall and its explosions destroy none, the countdown never reaches an
      immortal wall, and canMoveTo refuses to move into a solid wall. */
  lemma JsFrameKeepsWalls(rules: seq<ReactionRule>, cur: Cells, sqrt: nat -> real, src: Source, pos: nat)
    requires IsGrid(cur) && PositiveRoot(sqrt)
    requires SparesWalls(rules) && WallsSolid(cur) && ImmortalWalls(cur)
    ensures SameWalls(cur, JsFrame(rules, cur, sqrt, src, pos).value)
  {
    var s0 := Prepared(cur);
    var c := ChemistryPass(JS_MATERIAL_DB, rules, cur, s0, sqrt, src, pos);
    ChemistryKeepsWalls(JS_MATERIAL_DB, rules, cur, s0, sqrt, src, pos);
    assert SameWalls(cur, c.value) && ImmortalWalls(c.value);
    var life := JsLifePass(c.value);
    JsLifePassFrame(c.value);
    assert SameWalls(cur, life);
    MovementPassInvariants(JsRule, cur, life, src, c.next);
  }

  /** The walls of an initialised world filled by addParticle survive every frame. */
  lemma JsInitialFrameKeepsWalls(cur: Cells, sqrt: nat -> real, src: Source, pos: nat)
    requires IsGrid(cur) && PositiveRoot(sqrt) && WallsSolid(cur) && ImmortalWalls(cur)
    ensures SameWalls(cur, JsFrame(InitialRules(), cur, sqrt, src, pos).value)
  {
    InitialRulesSpareWalls();
    JsFrameKeepsWalls(InitialRules(), cur, sqrt, src, pos);
  }

  /** The passes of a JavaScript frame, in their order, on the prepared next grid. */
  method RunJsPasses(registry: ReactionRegistry, grid: array<Particle>, nextGrid: array<Particle>,
                     sqrt: nat -> real, src: Source, pos: nat) returns (next: nat)
    requires grid.Length == GRID_SIZE && nextGrid.Length == GRID_SIZE && grid != nextGrid
    requires PositiveRoot(sqrt) && nextGrid[..] == Prepared(grid[..])
    modifies nextGrid
    ensures Drawn(nextGrid[..], next) == JsFrame(registry.reactions, grid[..], sqrt, src, pos)
  {
    next := UpdateChemistry(JS_MATERIAL_DB, registry, grid, nextGrid, sqrt, src, pos);
    ghost var c := Drawn(nextGrid[..], next);
    assert c == ChemistryPass(JS_MATERIAL_DB, registry.reactions, grid[..], Prepared(grid[..]), sqrt, src, pos);
    UpdateJsLife(nextGrid);
    next := UpdateMovement(JsRule, grid, nextGrid, src, next);
  }

  // ---------------------------------------------------------------------------
  // The program's state (SimulationGrid and JSSimulation)
  // ---------------------------------------------------------------------------

  class JsSimulation {
    const grid: array<Particle>
    const nextGrid: array<Particle>
    const renderBuffer: array<int>
    const activeChunks: array<bool>
    const registry: ReactionRegistry
    /** Math.sqrt, as used by the explosion. */
    const sqrt: nat -> real
    /** The Math.random() stream, and the position of its next unused draw. */
    const src: Source
    var pos: nat

    ghost predicate Valid()
    {
      && grid.Length == GRID_SIZE && nextGrid.Length == GRID_SIZE
      && renderBuffer.Length == GRID_SIZE && activeChunks.Length == CHUNK_COUNT
      && grid != nextGrid && PositiveRoot(sqrt)
    }

    /** The constructor: the grid object initialises its buffers, the registry starts
        empty. */
    constructor(src: Source, sqrt: nat -> real)
      requires src.MathRandom? && PositiveRoot(sqrt)
      ensures Valid() && this.src == src && this.sqrt == sqrt && pos == 0
      ensures grid[..] == EmptyCells() && nextGrid[..] == EmptyCells()
      ensures forall i :: 0 <= i < GRID_SIZE ==> renderBuffer[i] == EMPTY
      ensures forall i :: 0 <= i < CHUNK_COUNT ==> activeChunks[i]
      ensures registry.reactions == []
      ensures fresh(grid) && fresh(nextGrid) && fresh(renderBuffer) && fresh(activeChunks) && fresh(registry)
    {
      grid := new Particle[GRID_SIZE](_ => DefaultParticle());
      nextGrid := new Particle[GRID_SIZE](_ => DefaultParticle());
      renderBuffer := new int[GRID_SIZE](_ => EMPTY);
      activeChunks := new bool[CHUNK_COUNT](_ => true);
      registry := new ReactionRegistry();
      this.src := src;
      this.sqrt := sqrt;
      pos := 0;
      new;
      assert grid[..] == EmptyCells() && nextGrid[..] == EmptyCells();
    }

    /** init: the grid buffers initialised and every reaction registered afresh. */
    method Init()
      requires Valid()
      modifies grid, nextGrid, renderBuffer, activeChunks, registry
      ensures grid[..] == EmptyCells() && nextGrid[..] == EmptyCells()
      ensures forall i :: 0 <= i < GRID_SIZE ==> renderBuffer[i] == EMPTY
      ensures forall i :: 0 <= i < CHUNK_COUNT ==> activeChunks[i]
      ensures registry.reactions == InitialRules()
    {
      InitGrid(grid, nextGrid, renderBuffer, activeChunks);
      registry.InitializeAllReactions();
    }

    /** addParticle, delegated to the grid object. */
    method AddParticle(x: int, y: int, t: int)
      requires Valid()
      modifies grid, activeChunks, this`pos
      ensures InBounds(x, y) && old(grid[GetIndex(x, y)]).kind == EMPTY ==>
        activeChunks[..] == old(activeChunks[..])[GetChunkIndex(x, y) := true]
      ensures !(InBounds(x, y) && old(grid[GetIndex(x, y)]).kind == EMPTY) ==>
        activeChunks[..] == old(activeChunks[..])
      ensures Drawn(grid[..], pos) == JsAdded(old(grid[..]), x, y, t, src, old(pos))
    {
      pos := JsAddParticle(grid, activeChunks, x, y, t, src, pos);
    }

    /** update: one frame with the registered rules. */
    method Update()
      requires Valid()
      modifies grid, nextGrid, renderBuffer, this`pos
      ensures Drawn(grid[..], pos) == JsFrame(registry.reactions, old(grid[..]), sqrt, src, old(pos))
      ensures nextGrid[..] == grid[..]
      ensures forall i :: 0 <= i < GRID_SIZE ==> renderBuffer[i] == grid[i].kind
    {
      PrepareNextGrid(grid, nextGrid);
      pos := RunJsPasses(registry, grid, nextGrid, sqrt, src, pos);
      CommitNextGrid(grid, nextGrid);
      UpdateRenderBuffer(grid, renderBuffer);
    }
  }
}
