// Movement: a scan of the next grid from the bottom row to the top, each row in a
// direction drawn per row. A cell that may move swaps with the first permitted of an
// ordered list of neighbours; whether a target is permitted is decided on the
// CURRENT grid, while the swaps happen in the next grid. A non-fire cell that could
// not move has its velocity damped.
module Movement {
  import opened Options
  import opened Random
  import opened Particles
  import opened Materials
  import opened Grid

  const VELOCITY_DAMPING: real := 0.8

  // ---------------------------------------------------------------------------
  // Targets, swaps and damping
  // ---------------------------------------------------------------------------

  /** The neighbour at offset (dx, dy) of the moving cell. */
  datatype Offset = Offset(dx: int, dy: int)

  /** Whose canMoveTo: the C++ one, or the JavaScript mirror's, which also refuses
      solid targets and looks densities up in the sixteen-material table. */
  datatype Rule = CppRule | JsRule

  /** canMoveTo: (x, y) is in bounds and, in the current grid cur, empty or (not solid,
      under the JavaScript rule, and) of a material strictly less dense than myDensity. */
  predicate CanMoveTo(rule: Rule, cur: Cells, x: int, y: int, myDensity: real)
    requires IsGrid(cur)
  {
    InBounds(x, y) &&
    var target := cur[GetIndex(x, y)];
    target.kind == EMPTY ||
    match rule
    case CppRule => myDensity > CppMaterial(target.kind).density
    case JsRule => target.state != Solid && myDensity > GetMaterial(JS_MATERIAL_DB, target.kind).density
  }

  /** canMoveTo refuses every cell off the grid, permits every in-bounds empty cell,
      permits an occupied cell only to a strictly denser mover, and, under the
      JavaScript rule, never permits a solid occupied cell. */
  lemma CanMoveToProperties(rule: Rule, cur: Cells, x: int, y: int, myDensity: real)
    requires IsGrid(cur)
    ensures !InBounds(x, y) ==> !CanMoveTo(rule, cur, x, y, myDensity)
    ensures InBounds(x, y) && cur[GetIndex(x, y)].kind == EMPTY ==> CanMoveTo(rule, cur, x, y, myDensity)
    ensures InBounds(x, y) && cur[GetIndex(x, y)].kind != EMPTY && CanMoveTo(rule, cur, x, y, myDensity) ==>
      myDensity > (if rule == CppRule then CppMaterial(cur[GetIndex(x, y)].kind)
                   else GetMaterial(JS_MATERIAL_DB, cur[GetIndex(x, y)].kind)).density
    ensures rule == JsRule && InBounds(x, y) && cur[GetIndex(x, y)].kind != EMPTY && cur[GetIndex(x, y)].state == Solid
      ==> !CanMoveTo(rule, cur, x, y, myDensity)
  {
  }

  predicate Permitted(rule: Rule, cur: Cells, x: int, y: int, myDensity: real, o: Offset)
    requires IsGrid(cur)
  {
    CanMoveTo(rule, cur, x + o.dx, y + o.dy, myDensity)
  }

  /** The swap of entries i and j of the next grid; the entry that lands at j is flagged
      as moved. With i == j the cell only gets the flag. */
  function Swap(s: Cells, i: int, j: int): (t: Cells)
    requires IsGrid(s) && 0 <= i < GRID_SIZE && 0 <= j < GRID_SIZE
    ensures IsGrid(t)
  {
    s[i := s[j]][j := s[i].(updatedThisFrame := true)]
  }

  /** A cell that stayed: both velocity components scaled by VELOCITY_DAMPING. */
  function Damped(p: Particle): Particle
  {
    p.(vx := p.vx * VELOCITY_DAMPING, vy := p.vy * VELOCITY_DAMPING)
  }

  /** A cell without its velocity and its moved flag: what movement never changes. */
  function Strip(p: Particle): Particle
  {
    p.(vx := 0.0, vy := 0.0, updatedThisFrame := false)
  }

  function Stripped(s: Cells): (t: Cells)
    ensures |t| == |s|
    ensures forall k :: 0 <= k < |s| ==> t[k] == Strip(s[k])
  {
    seq(|s|, k requires 0 <= k < |s| => Strip(s[k]))
  }

  lemma MultisetSwap<T>(q: seq<T>, i: int, j: int)
    requires 0 <= i < |q| && 0 <= j < |q|
    ensures multiset(q[i := q[j]][j := q[i]]) == multiset(q)
  {
    if i != j {
      var r := q[i := q[j]];
      assert multiset(r) == multiset(q) - multiset{q[i]} + multiset{q[j]};
      assert r[j] == q[j];
      assert multiset(r[j := q[i]]) == multiset(r) - multiset{q[j]} + multiset{q[i]};
    } else {
      assert q[i := q[j]][j := q[i]] == q;
    }
  }

  /** A swap moves whole cells: the two entries change places (the one landing at j
      flagged), nothing else changes, and the cells present, up to velocity and flag,
      are the same multiset. */
  lemma SwapExchanges(s: Cells, i: int, j: int)
    requires IsGrid(s) && 0 <= i < GRID_SIZE && 0 <= j < GRID_SIZE
    ensures var t := Swap(s, i, j);
      && t[j] == s[i].(updatedThisFrame := true)
      && (i != j ==> t[i] == s[j])
      && (forall k :: 0 <= k < GRID_SIZE && k != i && k != j ==> t[k] == s[k])
      && multiset(Stripped(t)) == multiset(Stripped(s))
  {
    var q := Stripped(s);
    assert Stripped(Swap(s, i, j)) == q[i := q[j]][j := q[i]];
    MultisetSwap(q, i, j);
  }

  lemma DampingKeepsContents(s: Cells, i: int)
    requires IsGrid(s) && 0 <= i < GRID_SIZE
    ensures multiset(Stripped(s[i := Damped(s[i])])) == multiset(Stripped(s))
  {
    assert Stripped(s[i := Damped(s[i])]) == Stripped(s);
  }

  /** t is s after cell (x, y) swapped with one target that canMoveTo permits. */
  ghost predicate OneSwap(rule: Rule, cur: Cells, s: Cells, x: int, y: int, myDensity: real, t: Cells)
    requires IsGrid(cur) && IsGrid(s) && InBounds(x, y)
  {
    exists o :: Permitted(rule, cur, x, y, myDensity, o) && t == Swap(s, GetIndex(x, y), GetIndex(x + o.dx, y + o.dy))
  }

  /** What keeps walls out of reach: under the C++ rule, a density no greater than
      Wall's; under the JavaScript rule, every wall of the current grid being solid. */
  predicate WallsRefuse(rule: Rule, cur: Cells, myDensity: real)
  {
    match rule
    case CppRule => myDensity <= CppMaterial(WALL).density
    case JsRule => WallsSolid(cur)
  }

  /** Every wall of the grid is in the solid state, as addParticle makes it. */
  predicate WallsSolid(cur: Cells)
  {
    forall k :: 0 <= k < |cur| && cur[k].kind == WALL ==> cur[k].state == Solid
  }

  /** One swap neither creates nor destroys cells. */
  lemma OneSwapKeepsContents(rule: Rule, cur: Cells, s: Cells, x: int, y: int, myDensity: real, t: Cells)
    requires IsGrid(cur) && IsGrid(s) && InBounds(x, y)
    requires OneSwap(rule, cur, s, x, y, myDensity, t)
    ensures multiset(Stripped(t)) == multiset(Stripped(s))
  {
    var o :| Permitted(rule, cur, x, y, myDensity, o) && t == Swap(s, GetIndex(x, y), GetIndex(x + o.dx, y + o.dy));
    SwapExchanges(s, GetIndex(x, y), GetIndex(x + o.dx, y + o.dy));
  }

  /** One swap of a non-wall cell keeps every wall in place when the next grid has the
      current grid's walls and walls are out of reach. */
  lemma OneSwapKeepsWalls(rule: Rule, cur: Cells, s: Cells, x: int, y: int, myDensity: real, t: Cells)
    requires IsGrid(cur) && IsGrid(s) && InBounds(x, y)
    requires OneSwap(rule, cur, s, x, y, myDensity, t)
    requires SameWalls(cur, s) && s[GetIndex(x, y)].kind != WALL && WallsRefuse(rule, cur, myDensity)
    ensures SameWalls(s, t)
  {
    var o :| Permitted(rule, cur, x, y, myDensity, o) && t == Swap(s, GetIndex(x, y), GetIndex(x + o.dx, y + o.dy));
    var j := GetIndex(x + o.dx, y + o.dy);
    SwapExchanges(s, GetIndex(x, y), j);
    assert cur[j].kind != WALL;
  }

  // ---------------------------------------------------------------------------
  // The candidate lists
  // ---------------------------------------------------------------------------

  /** Powder: down, down-left, down-right. */
  const POWDER_MOVES: seq<Offset> := [Offset(0, 1), Offset(-1, 1), Offset(1, 1)]

  /** The sideways tail shared by liquid and gas: left, right. */
  const SIDE_MOVES: seq<Offset> := [Offset(-1, 0), Offset(1, 0)]

  /** The rising head of gas: up, up-left, up-right. */
  const RISE_MOVES: seq<Offset> := [Offset(0, -1), Offset(-1, -1), Offset(1, -1)]

  /** Liquid: down, down-left, down-right, left, right. */
  const LIQUID_MOVES: seq<Offset> := POWDER_MOVES + SIDE_MOVES

  /** Gas: up, up-left, up-right, left, right. */
  const GAS_MOVES: seq<Offset> := RISE_MOVES + SIDE_MOVES

  /** Fire with a drawn direction in {-1, 0, 1}: up, then the diagonal-up in that
      direction (only when it is not 0), then the horizontal step in it. With
      direction 0 that last step targets the fire's own cell. */
  function FireMoves(randomDir: int): seq<Offset>
  {
    if randomDir != 0 then [Offset(0, -1), Offset(randomDir, -1), Offset(randomDir, 0)]
    else [Offset(0, -1), Offset(0, 0)]
  }

  /** The candidates of a non-fire cell in a movable state. */
  function StateMoves(state: PhysicalState): seq<Offset>
  {
    if state == Powder then POWDER_MOVES
    else if state == Liquid then LIQUID_MOVES
    else GAS_MOVES
  }

  /** The first candidate that is permitted. */
  function FirstPermitted(rule: Rule, cur: Cells, x: int, y: int, myDensity: real, moves: seq<Offset>): (r: Option<Offset>)
    requires IsGrid(cur)
    ensures r.Some? ==> r.value in moves && Permitted(rule, cur, x, y, myDensity, r.value)
  {
    if |moves| == 0 then None
    else if Permitted(rule, cur, x, y, myDensity, moves[0]) then Some(moves[0])
    else FirstPermitted(rule, cur, x, y, myDensity, moves[1..])
  }

  /** FirstPermitted picks exactly the earliest permitted candidate, and finds none
      exactly when no candidate is permitted. */
  lemma {:induction false} FirstPermittedIsFirst(rule: Rule, cur: Cells, x: int, y: int, myDensity: real, moves: seq<Offset>)
    requires IsGrid(cur)
    ensures FirstPermitted(rule, cur, x, y, myDensity, moves).None? <==>
      forall k :: 0 <= k < |moves| ==> !Permitted(rule, cur, x, y, myDensity, moves[k])
    ensures FirstPermitted(rule, cur, x, y, myDensity, moves).Some? ==>
      exists k :: 0 <= k < |moves| && moves[k] == FirstPermitted(rule, cur, x, y, myDensity, moves).value
        && Permitted(rule, cur, x, y, myDensity, moves[k])
        && forall i :: 0 <= i < k ==> !Permitted(rule, cur, x, y, myDensity, moves[i])
  {
    if |moves| > 0 && !Permitted(rule, cur, x, y, myDensity, moves[0]) {
      var rest := moves[1..];
      FirstPermittedIsFirst(rule, cur, x, y, myDensity, rest);
      assert forall k :: 1 <= k < |moves| ==> moves[k] == rest[k - 1];
      if FirstPermitted(rule, cur, x, y, myDensity, rest).Some? {
        var k :| 0 <= k < |rest| && rest[k] == FirstPermitted(rule, cur, x, y, myDensity, rest).value
          && Permitted(rule, cur, x, y, myDensity, rest[k])
          && forall i :: 0 <= i < k ==> !Permitted(rule, cur, x, y, myDensity, rest[i]);
        assert moves[k + 1] == rest[k];
        assert forall i :: 0 <= i < k + 1 ==> !Permitted(rule, cur, x, y, myDensity, moves[i]) by {
          forall i | 0 <= i < k + 1
            ensures !Permitted(rule, cur, x, y, myDensity, moves[i])
          {
            if i > 0 {
              assert moves[i] == rest[i - 1];
            }
          }
        }
      } else {
        assert forall k :: 0 <= k < |moves| ==> !Permitted(rule, cur, x, y, myDensity, moves[k]) by {
          forall k | 0 <= k < |moves|
            ensures !Permitted(rule, cur, x, y, myDensity, moves[k])
          {
            if k > 0 {
              assert moves[k] == rest[k - 1];
            }
          }
        }
      }
    }
  }

  /** The next grid after the move of cell (x, y) to its first permitted candidate,
      or None when no candidate is permitted. */
  function FirstMove(rule: Rule, cur: Cells, s: Cells, x: int, y: int, myDensity: real, moves: seq<Offset>): (r: Option<Cells>)
    requires IsGrid(cur) && IsGrid(s) && InBounds(x, y)
    ensures r.Some? ==> IsGrid(r.value) && OneSwap(rule, cur, s, x, y, myDensity, r.value)
  {
    match FirstPermitted(rule, cur, x, y, myDensity, moves)
    case None => None
    case Some(o) => Some(Swap(s, GetIndex(x, y), GetIndex(x + o.dx, y + o.dy)))
  }

  /** The first step of the if-else chain a candidate list stands for. */
  lemma FirstMoveUnfold(rule: Rule, cur: Cells, s: Cells, x: int, y: int, myDensity: real, o: Offset, rest: seq<Offset>)
    requires IsGrid(cur) && IsGrid(s) && InBounds(x, y)
    ensures FirstMove(rule, cur, s, x, y, myDensity, [o] + rest)
         == if Permitted(rule, cur, x, y, myDensity, o) then Some(Swap(s, GetIndex(x, y), GetIndex(x + o.dx, y + o.dy)))
            else FirstMove(rule, cur, s, x, y, myDensity, rest)
  {
    assert ([o] + rest)[1..] == rest;
  }

  /** A chain followed by another is the first chain, or the second when the first
      finds no permitted target. */
  lemma {:induction false} FirstMoveAppend(rule: Rule, cur: Cells, s: Cells, x: int, y: int, myDensity: real,
                                           a: seq<Offset>, b: seq<Offset>)
    requires IsGrid(cur) && IsGrid(s) && InBounds(x, y)
    ensures FirstMove(rule, cur, s, x, y, myDensity, a + b)
         == if FirstMove(rule, cur, s, x, y, myDensity, a).Some? then FirstMove(rule, cur, s, x, y, myDensity, a)
            else FirstMove(rule, cur, s, x, y, myDensity, b)
    decreases |a|
  {
    if |a| == 0 {
      assert a + b == b;
    } else {
      assert a + b == [a[0]] + (a[1..] + b);
      assert a == [a[0]] + a[1..];
      FirstMoveUnfold(rule, cur, s, x, y, myDensity, a[0], a[1..] + b);
      FirstMoveUnfold(rule, cur, s, x, y, myDensity, a[0], a[1..]);
      FirstMoveAppend(rule, cur, s, x, y, myDensity, a[1..], b);
    }
  }

  // ---------------------------------------------------------------------------
  // One cell, one row, the whole scan
  // ---------------------------------------------------------------------------

  /** Cells that never start a move. */
  predicate Stays(p: Particle)
  {
    p.kind == EMPTY || p.kind == WALL || p.state == Solid || p.updatedThisFrame
  }

  /** The body of the scan for cell (x, y) of the next grid s. Fire draws its
      direction (-1, 0 or 1) and is never damped. */
  function MoveCell(cur: Cells, s: Cells, x: int, y: int, src: Source, pos: nat): (d: Drawn<Cells>)
    requires IsGrid(cur) && IsGrid(s) && InBounds(x, y)
    ensures IsGrid(d.value)
  {
    var p := s[GetIndex(x, y)];
    if Stays(p) then Drawn(s, pos)
    else if p.kind == FIRE then FireOutcome(cur, s, x, y, src, pos)
    else Drawn(StateOutcome(cur, s, x, y), pos)
  }

  /** A fire cell's step: one draw for its direction, then the fire candidates. */
  function FireOutcome(cur: Cells, s: Cells, x: int, y: int, src: Source, pos: nat): (d: Drawn<Cells>)
    requires IsGrid(cur) && IsGrid(s) && InBounds(x, y)
    ensures IsGrid(d.value)
  {
    var m := FirstMove(CppRule, cur, s, x, y, CppMaterial(FIRE).density, FireMoves(Below(src, pos, 3) - 1));
    Drawn(if m.Some? then m.value else s, pos + 1)
  }

  /** A powder, liquid or gas cell's step: the candidates of its state, else damping. */
  function StateOutcome(cur: Cells, s: Cells, x: int, y: int): (t: Cells)
    requires IsGrid(cur) && IsGrid(s) && InBounds(x, y)
    ensures IsGrid(t)
  {
    var idx := GetIndex(x, y);
    var p := s[idx];
    var m := FirstMove(CppRule, cur, s, x, y, CppMaterial(p.kind).density, StateMoves(p.state));
    if m.Some? then m.value else s[idx := Damped(p)]
  }

  // ---------------------------------------------------------------------------
  // Properties
  // ---------------------------------------------------------------------------

  /** What one cell's step can do: a staying cell leaves the grid and the draws alone;
      fire swaps with a permitted fire candidate or leaves the grid alone, and is never
      damped; any other cell swaps with a permitted candidate of its state or, when
      none is permitted, is damped in place. */
  lemma MoveCellOutcome(cur: Cells, s: Cells, x: int, y: int, src: Source, pos: nat)
    requires IsGrid(cur) && IsGrid(s) && InBounds(x, y)
    ensures var idx := GetIndex(x, y);
      var p := s[idx];
      var d := MoveCell(cur, s, x, y, src, pos);
      && (Stays(p) ==> d == Drawn(s, pos))
      && (!Stays(p) && p.kind == FIRE ==>
            d.next == pos + 1 &&
            (d.value == s ||
             exists o :: o in FireMoves(Below(src, pos, 3) - 1) && Permitted(CppRule, cur, x, y, CppMaterial(p.kind).density, o)
               && d.value == Swap(s, idx, GetIndex(x + o.dx, y + o.dy))))
      && (!Stays(p) && p.kind != FIRE ==>
            d.next == pos &&
            (d.value == s[idx := Damped(p)] ||
             exists o :: o in StateMoves(p.state) && Permitted(CppRule, cur, x, y, CppMaterial(p.kind).density, o)
               && d.value == Swap(s, idx, GetIndex(x + o.dx, y + o.dy))))
  {
    var p := s[GetIndex(x, y)];
    if !Stays(p) {
      if p.kind == FIRE {
        FirstMoveTarget(cur, s, x, y, CppMaterial(FIRE).density, FireMoves(Below(src, pos, 3) - 1));
      } else {
        FirstMoveTarget(cur, s, x, y, CppMaterial(p.kind).density, StateMoves(p.state));
      }
    }
  }

  /** A move found by a C++ chain is the swap with a permitted member of the list. */
  lemma FirstMoveTarget(cur: Cells, s: Cells, x: int, y: int, myDensity: real, moves: seq<Offset>)
    requires IsGrid(cur) && IsGrid(s) && InBounds(x, y)
    ensures var m := FirstMove(CppRule, cur, s, x, y, myDensity, moves);
      m.Some? ==>
        exists o :: o in moves && Permitted(CppRule, cur, x, y, myDensity, o)
                    && m.value == Swap(s, GetIndex(x, y), GetIndex(x + o.dx, y + o.dy))
  {
    var f := FirstPermitted(CppRule, cur, x, y, myDensity, moves);
    if f.Some? {
      var o := f.value;
      assert FirstMove(CppRule, cur, s, x, y, myDensity, moves).value == Swap(s, GetIndex(x, y), GetIndex(x + o.dx, y + o.dy));
    }
  }

  /** A C++ chain's move keeps the cells and, for a non-wall mover on a next grid with
      the current grid's walls, every wall. */
  lemma FirstMoveInvariants(cur: Cells, s: Cells, x: int, y: int, kind: int, moves: seq<Offset>)
    requires IsGrid(cur) && IsGrid(s) && InBounds(x, y)
    ensures var m := FirstMove(CppRule, cur, s, x, y, CppMaterial(kind).density, moves);
      m.Some? ==>
        && multiset(Stripped(m.value)) == multiset(Stripped(s))
        && (SameWalls(cur, s) && s[GetIndex(x, y)].kind != WALL ==> SameWalls(s, m.value))
  {
    var m := FirstMove(CppRule, cur, s, x, y, CppMaterial(kind).density, moves);
    if m.Some? {
      OneSwapKeepsContents(CppRule, cur, s, x, y, CppMaterial(kind).density, m.value);
      if SameWalls(cur, s) && s[GetIndex(x, y)].kind != WALL {
        OneSwapKeepsWalls(CppRule, cur, s, x, y, CppMaterial(kind).density, m.value);
      }
    }
  }

  /** A step neither creates nor destroys cells: up to velocity and moved flag, the next
      grid holds the same multiset of cells. */
  lemma MoveCellKeepsContents(cur: Cells, s: Cells, x: int, y: int, src: Source, pos: nat)
    requires IsGrid(cur) && IsGrid(s) && InBounds(x, y)
    ensures multiset(Stripped(MoveCell(cur, s, x, y, src, pos).value)) == multiset(Stripped(s))
  {
    var idx := GetIndex(x, y);
    var p := s[idx];
    if !Stays(p) {
      if p.kind == FIRE {
        FirstMoveInvariants(cur, s, x, y, FIRE, FireMoves(Below(src, pos, 3) - 1));
      } else {
        FirstMoveInvariants(cur, s, x, y, p.kind, StateMoves(p.state));
        DampingKeepsContents(s, idx);
      }
    }
  }

  /** A step keeps every wall of the next grid where it is, provided the walls of the
      next grid are those of the current grid: a moving cell is no wall, and its target
      is empty or lighter in the current grid, so no wall either. */
  lemma MoveCellKeepsWalls(cur: Cells, s: Cells, x: int, y: int, src: Source, pos: nat)
    requires IsGrid(cur) && IsGrid(s) && InBounds(x, y) && SameWalls(cur, s)
    ensures SameWalls(s, MoveCell(cur, s, x, y, src, pos).value)
  {
    var p := s[GetIndex(x, y)];
    if !Stays(p) {
      if p.kind == FIRE {
        FirstMoveInvariants(cur, s, x, y, FIRE, FireMoves(Below(src, pos, 3) - 1));
      } else {
        FirstMoveInvariants(cur, s, x, y, p.kind, StateMoves(p.state));
      }
    }
  }

  // ---------------------------------------------------------------------------
  // The imperative scan
  // ---------------------------------------------------------------------------

  /** The swap of the source: exchange the two entries, then flag the destination. */
  method SwapCells(nextGrid: array<Particle>, idx: int, toIdx: int)
    requires nextGrid.Length == GRID_SIZE && 0 <= idx < GRID_SIZE && 0 <= toIdx < GRID_SIZE
    modifies nextGrid
    ensures nextGrid[..] == Swap(old(nextGrid[..]), idx, toIdx)
  {
    var temp := nextGrid[idx];
    nextGrid[idx] := nextGrid[toIdx];
    nextGrid[toIdx] := temp;
    nextGrid[toIdx] := nextGrid[toIdx].(updatedThisFrame := true);
  }

  /** One arm of an if-else chain: the move to offset o when it is permitted. */
  method TryMove(rule: Rule, grid: array<Particle>, nextGrid: array<Particle>, x: int, y: int, myDensity: real, o: Offset)
    returns (moved: bool)
    requires grid.Length == GRID_SIZE && nextGrid.Length == GRID_SIZE && grid != nextGrid && InBounds(x, y)
    modifies nextGrid
    ensures moved == Permitted(rule, grid[..], x, y, myDensity, o)
    ensures nextGrid[..] == if moved then Swap(old(nextGrid[..]), GetIndex(x, y), GetIndex(x + o.dx, y + o.dy))
                            else old(nextGrid[..])
  {
    moved := CanMoveTo(rule, grid[..], x + o.dx, y + o.dy, myDensity);
    if moved {
      SwapCells(nextGrid, GetIndex(x, y), GetIndex(x + o.dx, y + o.dy));
    }
  }

  /** Fire: up, else the diagonal-up in randomDir if randomDir is not 0, else the
      horizontal step by randomDir. */
  method MoveFire(rule: Rule, grid: array<Particle>, nextGrid: array<Particle>, x: int, y: int, myDensity: real, randomDir: int)
    returns (moved: bool)
    requires grid.Length == GRID_SIZE && nextGrid.Length == GRID_SIZE && grid != nextGrid && InBounds(x, y)
    modifies nextGrid
    ensures var m := FirstMove(rule, grid[..], old(nextGrid[..]), x, y, myDensity, FireMoves(randomDir));
      moved == m.Some? && nextGrid[..] == if moved then m.value else old(nextGrid[..])
  {
    if randomDir != 0 {
      moved := MoveFireSideways(rule, grid, nextGrid, x, y, myDensity, randomDir);
    } else {
      moved := MoveFireStraight(rule, grid, nextGrid, x, y, myDensity);
    }
  }

  /** Fire with a sideways drift: up, else up-diagonal, else sideways. */
  method MoveFireSideways(rule: Rule, grid: array<Particle>, nextGrid: array<Particle>, x: int, y: int, myDensity: real, randomDir: int)
    returns (moved: bool)
    requires grid.Length == GRID_SIZE && nextGrid.Length == GRID_SIZE && grid != nextGrid && InBounds(x, y)
    requires randomDir != 0
    modifies nextGrid
    ensures var m := FirstMove(rule, grid[..], old(nextGrid[..]), x, y, myDensity, FireMoves(randomDir));
      moved == m.Some? && nextGrid[..] == if moved then m.value else old(nextGrid[..])
  {
    moved := TripleMove(rule, grid, nextGrid, x, y, myDensity, Offset(0, -1), Offset(randomDir, -1), Offset(randomDir, 0));
  }

  /** The chain of the one candidate o. */
  method SingleMove(rule: Rule, grid: array<Particle>, nextGrid: array<Particle>, x: int, y: int, myDensity: real, o: Offset)
    returns (moved: bool)
    requires grid.Length == GRID_SIZE && nextGrid.Length == GRID_SIZE && grid != nextGrid && InBounds(x, y)
    modifies nextGrid
    ensures var m := FirstMove(rule, grid[..], old(nextGrid[..]), x, y, myDensity, [o]);
      moved == m.Some? && nextGrid[..] == if moved then m.value else old(nextGrid[..])
  {
    FirstMoveUnfold(rule, grid[..], nextGrid[..], x, y, myDensity, o, []);
    assert [o] + [] == [o];
    moved := TryMove(rule, grid, nextGrid, x, y, myDensity, o);
  }

  /** The chain of the two candidates a, then b. */
  method PairMove(rule: Rule, grid: array<Particle>, nextGrid: array<Particle>, x: int, y: int, myDensity: real, a: Offset, b: Offset)
    returns (moved: bool)
    requires grid.Length == GRID_SIZE && nextGrid.Length == GRID_SIZE && grid != nextGrid && InBounds(x, y)
    modifies nextGrid
    ensures var m := FirstMove(rule, grid[..], old(nextGrid[..]), x, y, myDensity, [a, b]);
      moved == m.Some? && nextGrid[..] == if moved then m.value else old(nextGrid[..])
  {
    FirstMoveUnfold(rule, grid[..], nextGrid[..], x, y, myDensity, a, [b]);
    assert [a, b] == [a] + [b];
    moved := TryMove(rule, grid, nextGrid, x, y, myDensity, a);
    if moved {
      return;
    }
    moved := SingleMove(rule, grid, nextGrid, x, y, myDensity, b);
  }

  /** The chain of the three candidates a, then b, then c. */
  method TripleMove(rule: Rule, grid: array<Particle>, nextGrid: array<Particle>, x: int, y: int, myDensity: real,
                    a: Offset, b: Offset, c: Offset)
    returns (moved: bool)
    requires grid.Length == GRID_SIZE && nextGrid.Length == GRID_SIZE && grid != nextGrid && InBounds(x, y)
    modifies nextGrid
    ensures var m := FirstMove(rule, grid[..], old(nextGrid[..]), x, y, myDensity, [a, b, c]);
      moved == m.Some? && nextGrid[..] == if moved then m.value else old(nextGrid[..])
  {
    FirstMoveUnfold(rule, grid[..], nextGrid[..], x, y, myDensity, a, [b, c]);
    assert [a, b, c] == [a] + [b, c];
    moved := TryMove(rule, grid, nextGrid, x, y, myDensity, a);
    if moved {
      return;
    }
    moved := PairMove(rule, grid, nextGrid, x, y, myDensity, b, c);
  }

  /** Fire without drift: up, else the (0, 0) offset, which is the fire's own cell. */
  method MoveFireStraight(rule: Rule, grid: array<Particle>, nextGrid: array<Particle>, x: int, y: int, myDensity: real)
    returns (moved: bool)
    requires grid.Length == GRID_SIZE && nextGrid.Length == GRID_SIZE && grid != nextGrid && InBounds(x, y)
    modifies nextGrid
    ensures var m := FirstMove(rule, grid[..], old(nextGrid[..]), x, y, myDensity, FireMoves(0));
      moved == m.Some? && nextGrid[..] == if moved then m.value else old(nextGrid[..])
  {
    moved := PairMove(rule, grid, nextGrid, x, y, myDensity, Offset(0, -1), Offset(0, 0));
  }

  /** Powder: down, else down-left, else down-right. */
  method MovePowder(grid: array<Particle>, nextGrid: array<Particle>, x: int, y: int, myDensity: real)
    returns (moved: bool)
    requires grid.Length == GRID_SIZE && nextGrid.Length == GRID_SIZE && grid != nextGrid && InBounds(x, y)
    modifies nextGrid
    ensures var m := FirstMove(CppRule, grid[..], old(nextGrid[..]), x, y, myDensity, POWDER_MOVES);
      moved == m.Some? && nextGrid[..] == if moved then m.value else old(nextGrid[..])
  {
    moved := TripleMove(CppRule, grid, nextGrid, x, y, myDensity, Offset(0, 1), Offset(-1, 1), Offset(1, 1));
  }

  /** The sideways tail: left, else right. */
  method MoveSideways(grid: array<Particle>, nextGrid: array<Particle>, x: int, y: int, myDensity: real)
    returns (moved: bool)
    requires grid.Length == GRID_SIZE && nextGrid.Length == GRID_SIZE && grid != nextGrid && InBounds(x, y)
    modifies nextGrid
    ensures var m := FirstMove(CppRule, grid[..], old(nextGrid[..]), x, y, myDensity, SIDE_MOVES);
      moved == m.Some? && nextGrid[..] == if moved then m.value else old(nextGrid[..])
  {
    moved := PairMove(CppRule, grid, nextGrid, x, y, myDensity, Offset(-1, 0), Offset(1, 0));
  }

  /** The rising head of gas: up, else up-left, else up-right. */
  method MoveRising(grid: array<Particle>, nextGrid: array<Particle>, x: int, y: int, myDensity: real)
    returns (moved: bool)
    requires grid.Length == GRID_SIZE && nextGrid.Length == GRID_SIZE && grid != nextGrid && InBounds(x, y)
    modifies nextGrid
    ensures var m := FirstMove(CppRule, grid[..], old(nextGrid[..]), x, y, myDensity, RISE_MOVES);
      moved == m.Some? && nextGrid[..] == if moved then m.value else old(nextGrid[..])
  {
    moved := TripleMove(CppRule, grid, nextGrid, x, y, myDensity, Offset(0, -1), Offset(-1, -1), Offset(1, -1));
  }

  /** Liquid: the powder chain, else the sideways tail. */
  method MoveLiquid(grid: array<Particle>, nextGrid: array<Particle>, x: int, y: int, myDensity: real)
    returns (moved: bool)
    requires grid.Length == GRID_SIZE && nextGrid.Length == GRID_SIZE && grid != nextGrid && InBounds(x, y)
    modifies nextGrid
    ensures var m := FirstMove(CppRule, grid[..], old(nextGrid[..]), x, y, myDensity, LIQUID_MOVES);
      moved == m.Some? && nextGrid[..] == if moved then m.value else old(nextGrid[..])
  {
    FirstMoveAppend(CppRule, grid[..], nextGrid[..], x, y, myDensity, POWDER_MOVES, SIDE_MOVES);
    moved := MovePowder(grid, nextGrid, x, y, myDensity);
    if !moved {
      moved := MoveSideways(grid, nextGrid, x, y, myDensity);
    }
  }

  /** Gas: the rising head, else the sideways tail. */
  method MoveGas(grid: array<Particle>, nextGrid: array<Particle>, x: int, y: int, myDensity: real)
    returns (moved: bool)
    requires grid.Length == GRID_SIZE && nextGrid.Length == GRID_SIZE && grid != nextGrid && InBounds(x, y)
    modifies nextGrid
    ensures var m := FirstMove(CppRule, grid[..], old(nextGrid[..]), x, y, myDensity, GAS_MOVES);
      moved == m.Some? && nextGrid[..] == if moved then m.value else old(nextGrid[..])
  {
    FirstMoveAppend(CppRule, grid[..], nextGrid[..], x, y, myDensity, RISE_MOVES, SIDE_MOVES);
    moved := MoveRising(grid, nextGrid, x, y, myDensity);
    if !moved {
      moved := MoveSideways(grid, nextGrid, x, y, myDensity);
    }
  }

  /** The chain of a non-fire cell: powder, liquid or gas by its state. */
  method MoveByState(grid: array<Particle>, nextGrid: array<Particle>, x: int, y: int, state: PhysicalState, myDensity: real)
    returns (moved: bool)
    requires grid.Length == GRID_SIZE && nextGrid.Length == GRID_SIZE && grid != nextGrid && InBounds(x, y)
    requires state != Solid
    modifies nextGrid
    ensures var m := FirstMove(CppRule, grid[..], old(nextGrid[..]), x, y, myDensity, StateMoves(state));
      moved == m.Some? && nextGrid[..] == if moved then m.value else old(nextGrid[..])
  {
    if state == Powder {
      moved := MovePowder(grid, nextGrid, x, y, myDensity);
    } else if state == Liquid {
      moved := MoveLiquid(grid, nextGrid, x, y, myDensity);
    } else {
      moved := MoveGas(grid, nextGrid, x, y, myDensity);
    }
  }

  /** The damping of a cell that could not move, one velocity component at a time. */
  method DampCell(nextGrid: array<Particle>, idx: int)
    requires nextGrid.Length == GRID_SIZE && 0 <= idx < GRID_SIZE
    modifies nextGrid
    ensures nextGrid[..] == old(nextGrid[..])[idx := Damped(old(nextGrid[idx]))]
  {
    nextGrid[idx] := nextGrid[idx].(vx := nextGrid[idx].vx * VELOCITY_DAMPING);
    nextGrid[idx] := nextGrid[idx].(vy := nextGrid[idx].vy * VELOCITY_DAMPING);
  }

  /** The fire branch of the loop body: the direction draw, then the fire chain. */
  method MoveFireAt(grid: array<Particle>, nextGrid: array<Particle>, x: int, y: int, src: Source, pos: nat)
    returns (next: nat)
    requires grid.Length == GRID_SIZE && nextGrid.Length == GRID_SIZE && grid != nextGrid && InBounds(x, y)
    modifies nextGrid
    ensures Drawn(nextGrid[..], next) == FireOutcome(grid[..], old(nextGrid[..]), x, y, src, pos)
  {
    var randomDir := Below(src, pos, 3) - 1;
    next := pos + 1;
    var fireMoved := MoveFire(CppRule, grid, nextGrid, x, y, CppMaterial(FIRE).density, randomDir);
  }

  /** The branch of the loop body for a powder, liquid or gas cell: its chain, and the
      damping when it did not move. */
  method MoveStateAt(grid: array<Particle>, nextGrid: array<Particle>, x: int, y: int)
    requires grid.Length == GRID_SIZE && nextGrid.Length == GRID_SIZE && grid != nextGrid && InBounds(x, y)
    requires nextGrid[GetIndex(x, y)].state != Solid
    modifies nextGrid
    ensures nextGrid[..] == StateOutcome(grid[..], old(nextGrid[..]), x, y)
  {
    var idx := GetIndex(x, y);
    var p := nextGrid[idx];
    var moved := MoveByState(grid, nextGrid, x, y, p.state, CppMaterial(p.kind).density);
    if !moved {
      DampCell(nextGrid, idx);
    }
  }

  /** The loop body of updateMovement for cell (x, y). */
  method MoveCellAt(grid: array<Particle>, nextGrid: array<Particle>, x: int, y: int, src: Source, pos: nat)
    returns (next: nat)
    requires grid.Length == GRID_SIZE && nextGrid.Length == GRID_SIZE && grid != nextGrid && InBounds(x, y)
    modifies nextGrid
    ensures Drawn(nextGrid[..], next) == MoveCell(grid[..], old(nextGrid[..]), x, y, src, pos)
  {
    next := pos;
    var p := nextGrid[GetIndex(x, y)];
    if p.kind == EMPTY || p.kind == WALL {
      return;
    }
    if p.state == Solid {
      return;
    }
    if p.updatedThisFrame {
      return;
    }
    if p.kind == FIRE {
      next := MoveFireAt(grid, nextGrid, x, y, src, next);
      return;
    }
    MoveStateAt(grid, nextGrid, x, y);
  }
}
