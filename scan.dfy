// The movement scan shared by the C++ code and its JavaScript mirror: rows from the
// bottom (HEIGHT - 1) to the top, each row in a direction drawn for it, every cell
// of the row given its step. Only the per-cell step and the row draw differ between
// the two programs.
module MovementScan {
  import opened Random
  import opened Particles
  import opened Grid
  import opened Movement
  import opened JsMovement

  /** The row direction: rand() % 2 == 0 in C++, Math.random() < 0.5 in JavaScript. */
  function LeftToRight(rule: Rule, src: Source, pos: nat): bool
  {
    match rule
    case CppRule => Below(src, pos, 2) == 0
    case JsRule => Uniform(src, pos) < 0.5
  }

  /** The step of cell (x, y) under either program. */
  function CellStep(rule: Rule, cur: Cells, s: Cells, x: int, y: int, src: Source, pos: nat): (d: Drawn<Cells>)
    requires IsGrid(cur) && IsGrid(s) && InBounds(x, y)
    ensures IsGrid(d.value)
  {
    match rule
    case CppRule => MoveCell(cur, s, x, y, src, pos)
    case JsRule => JsMoveCell(cur, s, x, y, src, pos)
  }

  /** The rest of one row's scan from column x, in the row's direction. */
  function MoveRowFrom(rule: Rule, cur: Cells, s: Cells, y: int, leftToRight: bool, x: int, src: Source, pos: nat)
    : (d: Drawn<Cells>)
    requires IsGrid(cur) && IsGrid(s) && 0 <= y < HEIGHT
    requires if leftToRight then 0 <= x <= WIDTH else -1 <= x < WIDTH
    ensures IsGrid(d.value)
    decreases if leftToRight then WIDTH - x else x + 1
  {
    if x == (if leftToRight then WIDTH else -1) then Drawn(s, pos)
    else
      var d := CellStep(rule, cur, s, x, y, src, pos);
      MoveRowFrom(rule, cur, d.value, y, leftToRight, if leftToRight then x + 1 else x - 1, src, d.next)
  }

  /** The rest of the scan from row y upwards; each row first draws its direction. */
  function MoveRowsFrom(rule: Rule, cur: Cells, s: Cells, y: int, src: Source, pos: nat): (d: Drawn<Cells>)
    requires IsGrid(cur) && IsGrid(s) && -1 <= y < HEIGHT
    ensures IsGrid(d.value)
    decreases y + 1
  {
    if y < 0 then Drawn(s, pos)
    else
      var leftToRight := LeftToRight(rule, src, pos);
      var row := MoveRowFrom(rule, cur, s, y, leftToRight, if leftToRight then 0 else WIDTH - 1, src, pos + 1);
      MoveRowsFrom(rule, cur, row.value, y - 1, src, row.next)
  }

  /** updateMovement with current grid cur and next grid s. */
  function MovementPass(rule: Rule, cur: Cells, s: Cells, src: Source, pos: nat): (d: Drawn<Cells>)
    requires IsGrid(cur) && IsGrid(s)
    ensures IsGrid(d.value)
  {
    MoveRowsFrom(rule, cur, s, HEIGHT - 1, src, pos)
  }

  // ---------------------------------------------------------------------------
  // Properties
  // ---------------------------------------------------------------------------

  /** What keeps walls in place under a rule: for C++ nothing more, for JavaScript
      every wall of the current grid being solid. */
  predicate WallsGuarded(rule: Rule, cur: Cells)
  {
    rule == JsRule ==> WallsSolid(cur)
  }

  /** t is s rearranged: up to velocity and moved flag the same multiset of cells, and,
      when s has cur's walls and the rule's guard holds, the walls of s. */
  predicate Rearranged(rule: Rule, cur: Cells, s: Cells, t: Cells)
    requires IsGrid(cur) && IsGrid(s) && IsGrid(t)
  {
    && multiset(Stripped(t)) == multiset(Stripped(s))
    && (SameWalls(cur, s) && WallsGuarded(rule, cur) ==> SameWalls(s, t))
  }

  /** Two rearrangements in a row are one. */
  lemma RearrangedChain(rule: Rule, cur: Cells, s: Cells, u: Cells, t: Cells)
    requires IsGrid(cur) && IsGrid(s) && IsGrid(u) && IsGrid(t)
    requires Rearranged(rule, cur, s, u) && Rearranged(rule, cur, u, t)
    ensures Rearranged(rule, cur, s, t)
  {
    if SameWalls(cur, s) && WallsGuarded(rule, cur) {
      assert SameWalls(cur, u) by {
        forall k | 0 <= k < GRID_SIZE
          ensures cur[k].kind == WALL <==> u[k].kind == WALL
        {
          assert cur[k].kind == WALL <==> s[k].kind == WALL;
          assert s[k].kind == WALL <==> u[k].kind == WALL;
        }
      }
      forall k | 0 <= k < GRID_SIZE
        ensures s[k].kind == WALL <==> t[k].kind == WALL
      {
        assert s[k].kind == WALL <==> u[k].kind == WALL;
        assert u[k].kind == WALL <==> t[k].kind == WALL;
      }
    }
  }

  lemma CellStepInvariants(rule: Rule, cur: Cells, s: Cells, x: int, y: int, src: Source, pos: nat)
    requires IsGrid(cur) && IsGrid(s) && InBounds(x, y)
    ensures Rearranged(rule, cur, s, CellStep(rule, cur, s, x, y, src, pos).value)
  {
    match rule
    case CppRule =>
      MoveCellKeepsContents(cur, s, x, y, src, pos);
      if SameWalls(cur, s) {
        MoveCellKeepsWalls(cur, s, x, y, src, pos);
      }
    case JsRule =>
      JsMoveCellKeepsContents(cur, s, x, y, src, pos);
      if SameWalls(cur, s) && WallsSolid(cur) {
        JsMoveCellKeepsWalls(cur, s, x, y, src, pos);
      }
  }

  lemma {:induction false} MoveRowFromInvariants(rule: Rule, cur: Cells, s: Cells, y: int, leftToRight: bool, x: int,
                                                 src: Source, pos: nat)
    requires IsGrid(cur) && IsGrid(s) && 0 <= y < HEIGHT
    requires if leftToRight then 0 <= x <= WIDTH else -1 <= x < WIDTH
    ensures Rearranged(rule, cur, s, MoveRowFrom(rule, cur, s, y, leftToRight, x, src, pos).value)
    decreases if leftToRight then WIDTH - x else x + 1
  {
    if x != (if leftToRight then WIDTH else -1) {
      var d := CellStep(rule, cur, s, x, y, src, pos);
      var t := MoveRowFrom(rule, cur, d.value, y, leftToRight, if leftToRight then x + 1 else x - 1, src, d.next);
      CellStepInvariants(rule, cur, s, x, y, src, pos);
      MoveRowFromInvariants(rule, cur, d.value, y, leftToRight, if leftToRight then x + 1 else x - 1, src, d.next);
      RearrangedChain(rule, cur, s, d.value, t.value);
    }
  }

  lemma {:induction false} MoveRowsFromInvariants(rule: Rule, cur: Cells, s: Cells, y: int, src: Source, pos: nat)
    requires IsGrid(cur) && IsGrid(s) && -1 <= y < HEIGHT
    ensures Rearranged(rule, cur, s, MoveRowsFrom(rule, cur, s, y, src, pos).value)
    decreases y + 1
  {
    if y >= 0 {
      var leftToRight := LeftToRight(rule, src, pos);
      var row := MoveRowFrom(rule, cur, s, y, leftToRight, if leftToRight then 0 else WIDTH - 1, src, pos + 1);
      var t := MoveRowsFrom(rule, cur, row.value, y - 1, src, row.next);
      MoveRowFromInvariants(rule, cur, s, y, leftToRight, if leftToRight then 0 else WIDTH - 1, src, pos + 1);
      MoveRowsFromInvariants(rule, cur, row.value, y - 1, src, row.next);
      RearrangedChain(rule, cur, s, row.value, t.value);
    }
  }

  /** The whole scan only rearranges cells: up to velocity and moved flag the next grid
      keeps its multiset of cells, and when its walls are those of the current grid
      (as after the copy that starts a frame), and under the JavaScript rule those
      walls are solid, every wall stays where it is. */
  lemma MovementPassInvariants(rule: Rule, cur: Cells, s: Cells, src: Source, pos: nat)
    requires IsGrid(cur) && IsGrid(s)
    ensures multiset(Stripped(MovementPass(rule, cur, s, src, pos).value)) == multiset(Stripped(s))
    ensures SameWalls(cur, s) && WallsGuarded(rule, cur) ==> SameWalls(s, MovementPass(rule, cur, s, src, pos).value)
  {
    MoveRowsFromInvariants(rule, cur, s, HEIGHT - 1, src, pos);
  }

  /** No cell of s may start a move. */
  predicate AllStay(s: Cells)
  {
    forall k :: 0 <= k < |s| ==> Stays(s[k])
  }

  lemma {:induction false} MoveRowFromAllStay(rule: Rule, cur: Cells, s: Cells, y: int, leftToRight: bool, x: int,
                                              src: Source, pos: nat)
    requires IsGrid(cur) && IsGrid(s) && 0 <= y < HEIGHT && AllStay(s)
    requires if leftToRight then 0 <= x <= WIDTH else -1 <= x < WIDTH
    ensures MoveRowFrom(rule, cur, s, y, leftToRight, x, src, pos) == Drawn(s, pos)
    decreases if leftToRight then WIDTH - x else x + 1
  {
    if x != (if leftToRight then WIDTH else -1) {
      assert Stays(s[GetIndex(x, y)]);
      assert CellStep(rule, cur, s, x, y, src, pos) == Drawn(s, pos);
      MoveRowFromAllStay(rule, cur, s, y, leftToRight, if leftToRight then x + 1 else x - 1, src, pos);
    }
  }

  lemma {:induction false} MoveRowsFromAllStay(rule: Rule, cur: Cells, s: Cells, y: int, src: Source, pos: nat)
    requires IsGrid(cur) && IsGrid(s) && -1 <= y < HEIGHT && AllStay(s)
    ensures MoveRowsFrom(rule, cur, s, y, src, pos) == Drawn(s, pos + y + 1)
    decreases y + 1
  {
    if y >= 0 {
      var leftToRight := LeftToRight(rule, src, pos);
      MoveRowFromAllStay(rule, cur, s, y, leftToRight, if leftToRight then 0 else WIDTH - 1, src, pos + 1);
      MoveRowsFromAllStay(rule, cur, s, y - 1, src, pos + 1);
    }
  }

  /** When no cell of the next grid may move (all empty, walls, solid or already
      moved) the scan changes nothing and consumes exactly one draw per row. */
  lemma MovementPassAllStay(rule: Rule, cur: Cells, s: Cells, src: Source, pos: nat)
    requires IsGrid(cur) && IsGrid(s) && AllStay(s)
    ensures MovementPass(rule, cur, s, src, pos) == Drawn(s, pos + HEIGHT)
  {
    MoveRowsFromAllStay(rule, cur, s, HEIGHT - 1, src, pos);
  }

  // ---------------------------------------------------------------------------
  // The imperative scan
  // ---------------------------------------------------------------------------

  /** updateMovement: rows from HEIGHT - 1 down to 0, each in a drawn direction. */
  method UpdateMovement(rule: Rule, grid: array<Particle>, nextGrid: array<Particle>, src: Source, pos: nat)
    returns (next: nat)
    requires grid.Length == GRID_SIZE && nextGrid.Length == GRID_SIZE && grid != nextGrid
    modifies nextGrid
    ensures Drawn(nextGrid[..], next) == MovementPass(rule, grid[..], old(nextGrid[..]), src, pos)
  {
    ghost var goal := MovementPass(rule, grid[..], nextGrid[..], src, pos);
    next := pos;
    var y := HEIGHT - 1;
    while y >= 0
      invariant -1 <= y < HEIGHT
      invariant MoveRowsFrom(rule, grid[..], nextGrid[..], y, src, next) == goal
    {
      var leftToRight := if rule == CppRule then Below(src, next, 2) == 0 else Uniform(src, next) < 0.5;
      next := next + 1;
      next := MoveRow(rule, grid, nextGrid, y, leftToRight, src, next);
      y := y - 1;
    }
  }

  /** The inner loop of the scan, over row y in the drawn direction. */
  method MoveRow(rule: Rule, grid: array<Particle>, nextGrid: array<Particle>, y: int, leftToRight: bool,
                 src: Source, pos: nat) returns (next: nat)
    requires grid.Length == GRID_SIZE && nextGrid.Length == GRID_SIZE && grid != nextGrid && 0 <= y < HEIGHT
    modifies nextGrid
    ensures Drawn(nextGrid[..], next)
         == MoveRowFrom(rule, grid[..], old(nextGrid[..]), y, leftToRight, if leftToRight then 0 else WIDTH - 1,
                        src, pos)
  {
    var startX := if leftToRight then 0 else WIDTH - 1;
    var endX := if leftToRight then WIDTH else -1;
    var stepX := if leftToRight then 1 else -1;
    ghost var goal := MoveRowFrom(rule, grid[..], nextGrid[..], y, leftToRight, startX, src, pos);
    next := pos;
    var x := startX;
    while x != endX
      invariant if leftToRight then 0 <= x <= WIDTH else -1 <= x < WIDTH
      invariant MoveRowFrom(rule, grid[..], nextGrid[..], y, leftToRight, x, src, next) == goal
      decreases if leftToRight then WIDTH - x else x + 1
    {
      if rule == CppRule {
        next := MoveCellAt(grid, nextGrid, x, y, src, next);
      } else {
        next := JsMoveCellAt(grid, nextGrid, x, y, src, next);
      }
      x := x + stepX;
    }
  }
}
