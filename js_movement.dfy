// Movement in the JavaScript mirror: the same bottom-up scan as the C++ code, but
// canMoveTo refuses solid targets and reads the sixteen-material table, a powder or
// liquid draws its diagonal direction only after the straight move failed, and
// fire, liquid and gas may slide several cells sideways along a row. Every chain
// is the first permitted target of an ordered candidate list; a slide is the list
// of distances 1..n in one direction.
module JsMovement {
  import opened Options
  import opened Random
  import opened Particles
  import opened Materials
  import opened Grid
  import opened Movement

  /** Cells a fire may slide when it can neither rise nor drift. */
  const FIRE_DISPERSION: int := 3
  /** Cells a liquid may slide each way. */
  const LIQUID_DISPERSION: int := 10
  /** Cells a gas may slide each way. */
  const GAS_DISPERSION: int := 5
  /** A liquid faster than this (in |vx|) spreads in the direction it moves. */
  const LIQUID_DRIFT: real := 0.1
  /** A gas tries to rise when its draw of 0..9 is below this. */
  const GAS_RISE_CHANCE: int := 7

  /** Math.random() < 0.5 ? -1 : 1, drawn at position pos. */
  function Coin(src: Source, pos: nat): (dir: int)
    ensures dir == -1 || dir == 1
    ensures dir == -1 <==> Uniform(src, pos) < 0.5
  {
    if Uniform(src, pos) < 0.5 then -1 else 1
  }

  /** Math.abs on a real. */
  function Abs(v: real): (a: real)
    ensures a >= 0.0 && (a == v || a == -v)
  {
    if v < 0.0 then -v else v
  }

  /** The horizontal steps dir * first, ..., dir * last along the row, nearest first. */
  function Slide(dir: int, first: int, last: int): (r: seq<Offset>)
    ensures |r| == if first <= last then last - first + 1 else 0
    decreases last - first + 1
  {
    if first > last then [] else [Offset(dir * first, 0)] + Slide(dir, first + 1, last)
  }

  /** The two diagonals in row offset dy: towards dir first, then away from it. */
  function Diagonals(dir: int, dy: int): seq<Offset>
  {
    [Offset(dir, dy), Offset(-dir, dy)]
  }

  /** The target dist cells away in direction dir along row y is permitted. */
  predicate SlideOpen(cur: Cells, x: int, y: int, myDensity: real, dir: int, dist: int)
    requires IsGrid(cur)
  {
    CanMoveTo(JsRule, cur, x + dir * dist, y, myDensity)
  }

  /** Every distance 1..n in direction dir is refused. */
  predicate SlideBlocked(cur: Cells, x: int, y: int, myDensity: real, dir: int, n: int)
    requires IsGrid(cur)
  {
    forall dist :: 1 <= dist <= n ==> !SlideOpen(cur, x, y, myDensity, dir, dist)
  }

  /** A slide of up to n cells finds nothing exactly when every distance 1..n is
      refused, and otherwise stops at the nearest permitted distance. */
  lemma SlideNearest(cur: Cells, x: int, y: int, myDensity: real, dir: int, n: int)
    requires IsGrid(cur) && n >= 0
    ensures var f := FirstPermitted(JsRule, cur, x, y, myDensity, Slide(dir, 1, n));
      && (f.None? <==> SlideBlocked(cur, x, y, myDensity, dir, n))
      && (f.Some? ==>
            exists dist :: 1 <= dist <= n && f.value == Offset(dir * dist, 0)
              && SlideOpen(cur, x, y, myDensity, dir, dist)
              && forall e :: 1 <= e < dist ==> !SlideOpen(cur, x, y, myDensity, dir, e))
  {
    var r := Slide(dir, 1, n);
    FirstPermittedIsFirst(JsRule, cur, x, y, myDensity, r);
    var f := FirstPermitted(JsRule, cur, x, y, myDensity, r);
    if f.None? {
      forall dist | 1 <= dist <= n
        ensures !SlideOpen(cur, x, y, myDensity, dir, dist)
      {
        SlideEntry(cur, x, y, myDensity, dir, n, dist);
      }
    } else {
      var k :| 0 <= k < |r| && r[k] == f.value && Permitted(JsRule, cur, x, y, myDensity, r[k])
        && forall i :: 0 <= i < k ==> !Permitted(JsRule, cur, x, y, myDensity, r[i]);
      SlideEntry(cur, x, y, myDensity, dir, n, k + 1);
      forall e | 1 <= e < k + 1
        ensures !SlideOpen(cur, x, y, myDensity, dir, e)
      {
        SlideEntry(cur, x, y, myDensity, dir, n, e);
      }
    }
  }

  /** Entry dist - 1 of a slide is the step of distance dist. */
  lemma SlideEntry(cur: Cells, x: int, y: int, myDensity: real, dir: int, n: int, dist: int)
    requires IsGrid(cur) && 1 <= dist <= n
    ensures Slide(dir, 1, n)[dist - 1] == Offset(dir * dist, 0)
    ensures SlideOpen(cur, x, y, myDensity, dir, dist) == Permitted(JsRule, cur, x, y, myDensity, Slide(dir, 1, n)[dist - 1])
  {
    SlideIndex(dir, 1, n, dist - 1);
    var o := Slide(dir, 1, n)[dist - 1];
    assert 1 + (dist - 1) == dist;
    assert o.dx == dir * dist && y + o.dy == y;
  }

  /** Entry i of the slide from first is the step of distance first + i. */
  lemma {:induction false} SlideIndex(dir: int, first: int, last: int, i: int)
    requires 0 <= i <= last - first
    ensures Slide(dir, first, last)[i] == Offset(dir * (first + i), 0)
    decreases i
  {
    if i > 0 {
      SlideIndex(dir, first + 1, last, i - 1);
      assert (first + 1) + (i - 1) == first + i;
    }
  }

  /** No candidate of a list is permitted exactly when the chain makes no move. */
  lemma FirstMoveNone(cur: Cells, s: Cells, x: int, y: int, myDensity: real, moves: seq<Offset>)
    requires IsGrid(cur) && IsGrid(s) && InBounds(x, y)
    ensures FirstMove(JsRule, cur, s, x, y, myDensity, moves).None? <==>
      forall k :: 0 <= k < |moves| ==> !Permitted(JsRule, cur, x, y, myDensity, moves[k])
  {
    FirstPermittedIsFirst(JsRule, cur, x, y, myDensity, moves);
  }

  // ---------------------------------------------------------------------------
  // The four chains, each with the draws it consumes
  // ---------------------------------------------------------------------------

  /** updateFire: draw a direction in {-1, 0, 1} and try the fire candidates; when
      none is permitted, draw a side and slide up to FIRE_DISPERSION cells. */
  function FireStep(cur: Cells, s: Cells, x: int, y: int, myDensity: real, src: Source, pos: nat)
    : (r: Drawn<Option<Cells>>)
    requires IsGrid(cur) && IsGrid(s) && InBounds(x, y)
    ensures r.value.Some? ==> IsGrid(r.value.value) && OneSwap(JsRule, cur, s, x, y, myDensity, r.value.value)
  {
    var m := FirstMove(JsRule, cur, s, x, y, myDensity, FireMoves(Below(src, pos, 3) - 1));
    if m.Some? then Drawn(m, pos + 1)
    else Drawn(FirstMove(JsRule, cur, s, x, y, myDensity, Slide(Coin(src, pos + 1), 1, FIRE_DISPERSION)), pos + 2)
  }

  /** updatePowder: straight down; only then draw a side and try that diagonal and
      the other one. */
  function PowderStep(cur: Cells, s: Cells, x: int, y: int, myDensity: real, src: Source, pos: nat)
    : (r: Drawn<Option<Cells>>)
    requires IsGrid(cur) && IsGrid(s) && InBounds(x, y)
    ensures r.value.Some? ==> IsGrid(r.value.value) && OneSwap(JsRule, cur, s, x, y, myDensity, r.value.value)
  {
    var m := FirstMove(JsRule, cur, s, x, y, myDensity, [Offset(0, 1)]);
    if m.Some? then Drawn(m, pos)
    else Drawn(FirstMove(JsRule, cur, s, x, y, myDensity, Diagonals(Coin(src, pos), 1)), pos + 1)
  }

  /** The side a liquid that could not fall prefers: the sign of vx when the liquid
      is moving sideways faster than LIQUID_DRIFT, else a drawn side. */
  function PreferredSide(vx: real, src: Source, pos: nat): (d: Drawn<int>)
    ensures d.value == -1 || d.value == 1
    ensures Abs(vx) > LIQUID_DRIFT ==> d == Drawn(if vx > 0.0 then 1 else -1, pos)
    ensures !(Abs(vx) > LIQUID_DRIFT) ==> d == Drawn(Coin(src, pos), pos + 1)
  {
    if Abs(vx) > LIQUID_DRIFT then Drawn(if vx > 0.0 then 1 else -1, pos)
    else Drawn(Coin(src, pos), pos + 1)
  }

  /** A slide of up to n cells towards dir, then one of up to n cells the other way. */
  function BothWays(dir: int, n: int): seq<Offset>
  {
    Slide(dir, 1, n) + Slide(-dir, 1, n)
  }

  /** What a liquid that could not fall tries, towards side pref first: the two
      diagonals, then the slides. */
  function LiquidSpread(pref: int): seq<Offset>
  {
    Diagonals(pref, 1) + BothWays(pref, LIQUID_DISPERSION)
  }

  /** updateLiquid: straight down, else the spread towards the preferred side. */
  function LiquidStep(cur: Cells, s: Cells, x: int, y: int, myDensity: real, vx: real, src: Source, pos: nat)
    : (r: Drawn<Option<Cells>>)
    requires IsGrid(cur) && IsGrid(s) && InBounds(x, y)
    ensures r.value.Some? ==> IsGrid(r.value.value) && OneSwap(JsRule, cur, s, x, y, myDensity, r.value.value)
  {
    var m := FirstMove(JsRule, cur, s, x, y, myDensity, [Offset(0, 1)]);
    if m.Some? then Drawn(m, pos)
    else
      var pref := PreferredSide(vx, src, pos);
      Drawn(FirstMove(JsRule, cur, s, x, y, myDensity, LiquidSpread(pref.value)), pref.next)
  }

  /** updateGas: draw 0..9; below GAS_RISE_CHANCE draw a diagonal side and try up and
      the two up-diagonals; if that was not drawn or did not move, draw a side and
      spread. */
  function GasStep(cur: Cells, s: Cells, x: int, y: int, myDensity: real, src: Source, pos: nat)
    : (r: Drawn<Option<Cells>>)
    requires IsGrid(cur) && IsGrid(s) && InBounds(x, y)
    ensures r.value.Some? ==> IsGrid(r.value.value) && OneSwap(JsRule, cur, s, x, y, myDensity, r.value.value)
  {
    var rises := Below(src, pos, 10) < GAS_RISE_CHANCE;
    var m := if rises then FirstMove(JsRule, cur, s, x, y, myDensity, [Offset(0, -1)] + Diagonals(Coin(src, pos + 1), -1))
             else None;
    if m.Some? then Drawn(m, pos + 2)
    else
      var n := if rises then pos + 2 else pos + 1;
      Drawn(FirstMove(JsRule, cur, s, x, y, myDensity, BothWays(Coin(src, n), GAS_DISPERSION)), n + 1)
  }

  /** The body of the JavaScript scan for cell (x, y) of the next grid s: fire is
      never damped; any other movable cell that found no target is damped in place. */
  function JsMoveCell(cur: Cells, s: Cells, x: int, y: int, src: Source, pos: nat): (d: Drawn<Cells>)
    requires IsGrid(cur) && IsGrid(s) && InBounds(x, y)
    ensures IsGrid(d.value)
  {
    var idx := GetIndex(x, y);
    var p := s[idx];
    if Stays(p) then Drawn(s, pos)
    else if p.kind == FIRE then
      var r := FireStep(cur, s, x, y, JsMaterial(FIRE).density, src, pos);
      Drawn(if r.value.Some? then r.value.value else s, r.next)
    else
      var r := StateStep(cur, s, x, y, src, pos);
      Drawn(if r.value.Some? then r.value.value else s[idx := Damped(p)], r.next)
  }

  /** The chain of a non-fire cell by its state: powder, liquid, else gas. */
  function StateStep(cur: Cells, s: Cells, x: int, y: int, src: Source, pos: nat): (r: Drawn<Option<Cells>>)
    requires IsGrid(cur) && IsGrid(s) && InBounds(x, y)
    ensures var p := s[GetIndex(x, y)];
      r.value.Some? ==> IsGrid(r.value.value) && OneSwap(JsRule, cur, s, x, y, JsMaterial(p.kind).density, r.value.value)
  {
    var p := s[GetIndex(x, y)];
    var density := JsMaterial(p.kind).density;
    if p.state == Powder then PowderStep(cur, s, x, y, density, src, pos)
    else if p.state == Liquid then LiquidStep(cur, s, x, y, density, p.vx, src, pos)
    else GasStep(cur, s, x, y, density, src, pos)
  }

  // ---------------------------------------------------------------------------
  // Properties
  // ---------------------------------------------------------------------------

  /** The chain of one candidate makes no move iff that candidate is refused. */
  lemma SingleNone(cur: Cells, s: Cells, x: int, y: int, myDensity: real, o: Offset)
    requires IsGrid(cur) && IsGrid(s) && InBounds(x, y)
    ensures FirstMove(JsRule, cur, s, x, y, myDensity, [o]).None? <==> !Permitted(JsRule, cur, x, y, myDensity, o)
  {
    FirstMoveUnfold(JsRule, cur, s, x, y, myDensity, o, []);
    assert [o] + [] == [o];
  }

  /** The chain of two candidates makes no move iff both are refused. */
  lemma PairNone(cur: Cells, s: Cells, x: int, y: int, myDensity: real, a: Offset, b: Offset)
    requires IsGrid(cur) && IsGrid(s) && InBounds(x, y)
    ensures FirstMove(JsRule, cur, s, x, y, myDensity, [a, b]).None? <==>
      !Permitted(JsRule, cur, x, y, myDensity, a) && !Permitted(JsRule, cur, x, y, myDensity, b)
  {
    FirstMoveUnfold(JsRule, cur, s, x, y, myDensity, a, [b]);
    assert [a, b] == [a] + [b];
    SingleNone(cur, s, x, y, myDensity, b);
  }

  /** A chain followed by another makes no move iff neither does. */
  lemma AppendNone(cur: Cells, s: Cells, x: int, y: int, myDensity: real, a: seq<Offset>, b: seq<Offset>)
    requires IsGrid(cur) && IsGrid(s) && InBounds(x, y)
    ensures FirstMove(JsRule, cur, s, x, y, myDensity, a + b).None? <==>
      FirstMove(JsRule, cur, s, x, y, myDensity, a).None? && FirstMove(JsRule, cur, s, x, y, myDensity, b).None?
  {
    FirstMoveAppend(JsRule, cur, s, x, y, myDensity, a, b);
  }

  /** A slide makes no move iff every distance is refused. */
  lemma SlideNone(cur: Cells, s: Cells, x: int, y: int, myDensity: real, dir: int, n: int)
    requires IsGrid(cur) && IsGrid(s) && InBounds(x, y) && n >= 0
    ensures FirstMove(JsRule, cur, s, x, y, myDensity, Slide(dir, 1, n)).None? <==> SlideBlocked(cur, x, y, myDensity, dir, n)
  {
    SlideNearest(cur, x, y, myDensity, dir, n);
  }

  /** Fire moves iff a fire candidate or the slide is permitted; it consumes one draw
      when a fire candidate is permitted and two otherwise. */
  lemma FireStepBlocked(cur: Cells, s: Cells, x: int, y: int, myDensity: real, src: Source, pos: nat)
    requires IsGrid(cur) && IsGrid(s) && InBounds(x, y)
    ensures var moves := FireMoves(Below(src, pos, 3) - 1);
      var r := FireStep(cur, s, x, y, myDensity, src, pos);
      var raised := exists k :: 0 <= k < |moves| && Permitted(JsRule, cur, x, y, myDensity, moves[k]);
      && r.next == (if raised then pos + 1 else pos + 2)
      && (r.value.None? <==> !raised && SlideBlocked(cur, x, y, myDensity, Coin(src, pos + 1), FIRE_DISPERSION))
  {
    FirstMoveNone(cur, s, x, y, myDensity, FireMoves(Below(src, pos, 3) - 1));
    SlideNone(cur, s, x, y, myDensity, Coin(src, pos + 1), FIRE_DISPERSION);
  }

  /** Powder stays iff down and both diagonals are refused; its side is drawn only
      when it cannot fall straight down. */
  lemma PowderStepBlocked(cur: Cells, s: Cells, x: int, y: int, myDensity: real, src: Source, pos: nat)
    requires IsGrid(cur) && IsGrid(s) && InBounds(x, y)
    ensures var r := PowderStep(cur, s, x, y, myDensity, src, pos);
      var dir := Coin(src, pos);
      && r.next == (if Permitted(JsRule, cur, x, y, myDensity, Offset(0, 1)) then pos else pos + 1)
      && (r.value.None? <==>
            && !Permitted(JsRule, cur, x, y, myDensity, Offset(0, 1))
            && !Permitted(JsRule, cur, x, y, myDensity, Offset(dir, 1))
            && !Permitted(JsRule, cur, x, y, myDensity, Offset(-dir, 1)))
  {
    var dir := Coin(src, pos);
    SingleNone(cur, s, x, y, myDensity, Offset(0, 1));
    PairNone(cur, s, x, y, myDensity, Offset(dir, 1), Offset(-dir, 1));
  }

  /** A liquid stays iff down, both diagonals and both slides are refused; it draws
      a side only when it cannot fall and is not already moving sideways. */
  lemma LiquidStepBlocked(cur: Cells, s: Cells, x: int, y: int, myDensity: real, vx: real, src: Source, pos: nat)
    requires IsGrid(cur) && IsGrid(s) && InBounds(x, y)
    ensures var r := LiquidStep(cur, s, x, y, myDensity, vx, src, pos);
      var pref := PreferredSide(vx, src, pos).value;
      && r.next == (if Permitted(JsRule, cur, x, y, myDensity, Offset(0, 1)) || Abs(vx) > LIQUID_DRIFT then pos else pos + 1)
      && (r.value.None? <==>
            && !Permitted(JsRule, cur, x, y, myDensity, Offset(0, 1))
            && !Permitted(JsRule, cur, x, y, myDensity, Offset(pref, 1))
            && !Permitted(JsRule, cur, x, y, myDensity, Offset(-pref, 1))
            && SlideBlocked(cur, x, y, myDensity, pref, LIQUID_DISPERSION)
            && SlideBlocked(cur, x, y, myDensity, -pref, LIQUID_DISPERSION))
  {
    var pref := PreferredSide(vx, src, pos).value;
    SingleNone(cur, s, x, y, myDensity, Offset(0, 1));
    LiquidSpreadNone(cur, s, x, y, myDensity, pref);
  }

  /** The two slides make no move iff every distance both ways is refused. */
  lemma BothWaysNone(cur: Cells, s: Cells, x: int, y: int, myDensity: real, dir: int, n: int)
    requires IsGrid(cur) && IsGrid(s) && InBounds(x, y) && n >= 0
    ensures FirstMove(JsRule, cur, s, x, y, myDensity, BothWays(dir, n)).None? <==>
      SlideBlocked(cur, x, y, myDensity, dir, n) && SlideBlocked(cur, x, y, myDensity, -dir, n)
  {
    AppendNone(cur, s, x, y, myDensity, Slide(dir, 1, n), Slide(-dir, 1, n));
    SlideNone(cur, s, x, y, myDensity, dir, n);
    SlideNone(cur, s, x, y, myDensity, -dir, n);
  }

  /** The spread of a liquid makes no move iff both diagonals and both slides are
      refused. */
  lemma LiquidSpreadNone(cur: Cells, s: Cells, x: int, y: int, myDensity: real, pref: int)
    requires IsGrid(cur) && IsGrid(s) && InBounds(x, y)
    ensures FirstMove(JsRule, cur, s, x, y, myDensity, LiquidSpread(pref)).None? <==>
      && !Permitted(JsRule, cur, x, y, myDensity, Offset(pref, 1))
      && !Permitted(JsRule, cur, x, y, myDensity, Offset(-pref, 1))
      && SlideBlocked(cur, x, y, myDensity, pref, LIQUID_DISPERSION)
      && SlideBlocked(cur, x, y, myDensity, -pref, LIQUID_DISPERSION)
  {
    AppendNone(cur, s, x, y, myDensity, Diagonals(pref, 1), BothWays(pref, LIQUID_DISPERSION));
    PairNone(cur, s, x, y, myDensity, Offset(pref, 1), Offset(-pref, 1));
    BothWaysNone(cur, s, x, y, myDensity, pref, LIQUID_DISPERSION);
  }

  /** A gas stays iff it did not rise (its draw was 7 or more, or up and both
      up-diagonals are refused) and both slides are refused; it consumes one draw per
      decision it reached. */
  lemma GasStepBlocked(cur: Cells, s: Cells, x: int, y: int, myDensity: real, src: Source, pos: nat)
    requires IsGrid(cur) && IsGrid(s) && InBounds(x, y)
    ensures var r := GasStep(cur, s, x, y, myDensity, src, pos);
      var rises := Below(src, pos, 10) < GAS_RISE_CHANCE;
      var diag := Coin(src, pos + 1);
      var rose := rises && (Permitted(JsRule, cur, x, y, myDensity, Offset(0, -1))
                            || Permitted(JsRule, cur, x, y, myDensity, Offset(diag, -1))
                            || Permitted(JsRule, cur, x, y, myDensity, Offset(-diag, -1)));
      var h := Coin(src, if rises then pos + 2 else pos + 1);
      && r.next == (if rose then pos + 2 else if rises then pos + 3 else pos + 2)
      && (r.value.None? <==>
            && !rose
            && SlideBlocked(cur, x, y, myDensity, h, GAS_DISPERSION)
            && SlideBlocked(cur, x, y, myDensity, -h, GAS_DISPERSION))
  {
    var h := Coin(src, if Below(src, pos, 10) < GAS_RISE_CHANCE then pos + 2 else pos + 1);
    RiseNone(cur, s, x, y, myDensity, Coin(src, pos + 1));
    BothWaysNone(cur, s, x, y, myDensity, h, GAS_DISPERSION);
  }

  /** The rising head of a gas makes no move iff up and both up-diagonals are refused. */
  lemma RiseNone(cur: Cells, s: Cells, x: int, y: int, myDensity: real, diag: int)
    requires IsGrid(cur) && IsGrid(s) && InBounds(x, y)
    ensures FirstMove(JsRule, cur, s, x, y, myDensity, [Offset(0, -1)] + Diagonals(diag, -1)).None? <==>
      && !Permitted(JsRule, cur, x, y, myDensity, Offset(0, -1))
      && !Permitted(JsRule, cur, x, y, myDensity, Offset(diag, -1))
      && !Permitted(JsRule, cur, x, y, myDensity, Offset(-diag, -1))
  {
    AppendNone(cur, s, x, y, myDensity, [Offset(0, -1)], Diagonals(diag, -1));
    SingleNone(cur, s, x, y, myDensity, Offset(0, -1));
    PairNone(cur, s, x, y, myDensity, Offset(diag, -1), Offset(-diag, -1));
  }

  /** A JavaScript step neither creates nor destroys cells. */
  lemma JsMoveCellKeepsContents(cur: Cells, s: Cells, x: int, y: int, src: Source, pos: nat)
    requires IsGrid(cur) && IsGrid(s) && InBounds(x, y)
    ensures multiset(Stripped(JsMoveCell(cur, s, x, y, src, pos).value)) == multiset(Stripped(s))
  {
    var idx := GetIndex(x, y);
    var p := s[idx];
    if !Stays(p) {
      var density := JsMaterial(p.kind).density;
      var r := if p.kind == FIRE then FireStep(cur, s, x, y, density, src, pos) else StateStep(cur, s, x, y, src, pos);
      if r.value.Some? {
        OneSwapKeepsContents(JsRule, cur, s, x, y, density, r.value.value);
      } else if p.kind != FIRE {
        DampingKeepsContents(s, idx);
      }
    }
  }

  /** A JavaScript step keeps every wall in place when the next grid has the current
      grid's walls and every wall of the current grid is solid. */
  lemma JsMoveCellKeepsWalls(cur: Cells, s: Cells, x: int, y: int, src: Source, pos: nat)
    requires IsGrid(cur) && IsGrid(s) && InBounds(x, y)
    requires SameWalls(cur, s) && WallsSolid(cur)
    ensures SameWalls(s, JsMoveCell(cur, s, x, y, src, pos).value)
  {
    var idx := GetIndex(x, y);
    var p := s[idx];
    if !Stays(p) {
      var density := JsMaterial(p.kind).density;
      var r := if p.kind == FIRE then FireStep(cur, s, x, y, density, src, pos) else StateStep(cur, s, x, y, src, pos);
      if r.value.Some? {
        OneSwapKeepsWalls(JsRule, cur, s, x, y, density, r.value.value);
      }
    }
  }

  // ---------------------------------------------------------------------------
  // The imperative chains
  // ---------------------------------------------------------------------------

  /** A slide loop: the nearest permitted distance 1..n in direction dir, if any. */
  method SlideMove(grid: array<Particle>, nextGrid: array<Particle>, x: int, y: int, myDensity: real, dir: int, n: int)
    returns (moved: bool)
    requires grid.Length == GRID_SIZE && nextGrid.Length == GRID_SIZE && grid != nextGrid && InBounds(x, y)
    requires n >= 0
    modifies nextGrid
    ensures var m := FirstMove(JsRule, grid[..], old(nextGrid[..]), x, y, myDensity, Slide(dir, 1, n));
      moved == m.Some? && nextGrid[..] == if moved then m.value else old(nextGrid[..])
  {
    moved := false;
    for dist := 1 to n + 1
      invariant nextGrid[..] == old(nextGrid[..])
      invariant FirstMove(JsRule, grid[..], nextGrid[..], x, y, myDensity, Slide(dir, 1, n))
             == FirstMove(JsRule, grid[..], nextGrid[..], x, y, myDensity, Slide(dir, dist, n))
    {
      FirstMoveUnfold(JsRule, grid[..], nextGrid[..], x, y, myDensity, Offset(dir * dist, 0), Slide(dir, dist + 1, n));
      moved := TryMove(JsRule, grid, nextGrid, x, y, myDensity, Offset(dir * dist, 0));
      if moved {
        return;
      }
    }
  }

  /** Two diagonals in row offset dy, towards dir first. */
  method DiagonalMove(grid: array<Particle>, nextGrid: array<Particle>, x: int, y: int, myDensity: real, dir: int, dy: int)
    returns (moved: bool)
    requires grid.Length == GRID_SIZE && nextGrid.Length == GRID_SIZE && grid != nextGrid && InBounds(x, y)
    modifies nextGrid
    ensures var m := FirstMove(JsRule, grid[..], old(nextGrid[..]), x, y, myDensity, Diagonals(dir, dy));
      moved == m.Some? && nextGrid[..] == if moved then m.value else old(nextGrid[..])
  {
    moved := PairMove(JsRule, grid, nextGrid, x, y, myDensity, Offset(dir, dy), Offset(-dir, dy));
  }

  /** updateFire. */
  method FireAt(grid: array<Particle>, nextGrid: array<Particle>, x: int, y: int, myDensity: real, src: Source, pos: nat)
    returns (next: nat)
    requires grid.Length == GRID_SIZE && nextGrid.Length == GRID_SIZE && grid != nextGrid && InBounds(x, y)
    modifies nextGrid
    ensures var r := FireStep(grid[..], old(nextGrid[..]), x, y, myDensity, src, pos);
      next == r.next && nextGrid[..] == if r.value.Some? then r.value.value else old(nextGrid[..])
  {
    var randomDir := Below(src, pos, 3) - 1;
    next := pos + 1;
    var fireMoved := MoveFire(JsRule, grid, nextGrid, x, y, myDensity, randomDir);
    if !fireMoved {
      var horizDir := Coin(src, next);
      next := next + 1;
      fireMoved := SlideMove(grid, nextGrid, x, y, myDensity, horizDir, FIRE_DISPERSION);
    }
  }

  /** updatePowder. */
  method PowderAt(grid: array<Particle>, nextGrid: array<Particle>, x: int, y: int, myDensity: real, src: Source, pos: nat)
    returns (moved: bool, next: nat)
    requires grid.Length == GRID_SIZE && nextGrid.Length == GRID_SIZE && grid != nextGrid && InBounds(x, y)
    modifies nextGrid
    ensures var r := PowderStep(grid[..], old(nextGrid[..]), x, y, myDensity, src, pos);
      next == r.next && moved == r.value.Some? && nextGrid[..] == if moved then r.value.value else old(nextGrid[..])
  {
    next := pos;
    moved := SingleMove(JsRule, grid, nextGrid, x, y, myDensity, Offset(0, 1));
    if moved {
      return;
    }
    var dir := Coin(src, next);
    next := next + 1;
    moved := DiagonalMove(grid, nextGrid, x, y, myDensity, dir, 1);
  }

  /** The two slides of up to n cells, towards dir first. */
  method BothWaysMove(grid: array<Particle>, nextGrid: array<Particle>, x: int, y: int, myDensity: real, dir: int, n: int)
    returns (moved: bool)
    requires grid.Length == GRID_SIZE && nextGrid.Length == GRID_SIZE && grid != nextGrid && InBounds(x, y)
    requires n >= 0
    modifies nextGrid
    ensures var m := FirstMove(JsRule, grid[..], old(nextGrid[..]), x, y, myDensity, BothWays(dir, n));
      moved == m.Some? && nextGrid[..] == if moved then m.value else old(nextGrid[..])
  {
    ghost var s := nextGrid[..];
    FirstMoveAppend(JsRule, grid[..], s, x, y, myDensity, Slide(dir, 1, n), Slide(-dir, 1, n));
    moved := SlideMove(grid, nextGrid, x, y, myDensity, dir, n);
    if !moved {
      assert nextGrid[..] == s;
      moved := SlideMove(grid, nextGrid, x, y, myDensity, -dir, n);
    }
  }

  /** The spread of a liquid towards side pref. */
  method LiquidSpreadMove(grid: array<Particle>, nextGrid: array<Particle>, x: int, y: int, myDensity: real, pref: int)
    returns (moved: bool)
    requires grid.Length == GRID_SIZE && nextGrid.Length == GRID_SIZE && grid != nextGrid && InBounds(x, y)
    modifies nextGrid
    ensures var m := FirstMove(JsRule, grid[..], old(nextGrid[..]), x, y, myDensity, LiquidSpread(pref));
      moved == m.Some? && nextGrid[..] == if moved then m.value else old(nextGrid[..])
  {
    FirstMoveAppend(JsRule, grid[..], nextGrid[..], x, y, myDensity, Diagonals(pref, 1), BothWays(pref, LIQUID_DISPERSION));
    moved := DiagonalMove(grid, nextGrid, x, y, myDensity, pref, 1);
    if !moved {
      moved := BothWaysMove(grid, nextGrid, x, y, myDensity, pref, LIQUID_DISPERSION);
    }
  }

  /** updateLiquid. */
  method LiquidAt(grid: array<Particle>, nextGrid: array<Particle>, x: int, y: int, myDensity: real, vx: real,
                  src: Source, pos: nat)
    returns (moved: bool, next: nat)
    requires grid.Length == GRID_SIZE && nextGrid.Length == GRID_SIZE && grid != nextGrid && InBounds(x, y)
    modifies nextGrid
    ensures var r := LiquidStep(grid[..], old(nextGrid[..]), x, y, myDensity, vx, src, pos);
      next == r.next && moved == r.value.Some? && nextGrid[..] == if moved then r.value.value else old(nextGrid[..])
  {
    next := pos;
    moved := SingleMove(JsRule, grid, nextGrid, x, y, myDensity, Offset(0, 1));
    if moved {
      return;
    }
    var preferredDir := 0;
    if Abs(vx) > LIQUID_DRIFT {
      preferredDir := if vx > 0.0 then 1 else -1;
    } else {
      preferredDir := Coin(src, next);
      next := next + 1;
    }
    moved := LiquidSpreadMove(grid, nextGrid, x, y, myDensity, preferredDir);
  }

  /** The rising head of a gas: up, then the two up-diagonals towards diag first. */
  method RiseMove(grid: array<Particle>, nextGrid: array<Particle>, x: int, y: int, myDensity: real, diag: int)
    returns (moved: bool)
    requires grid.Length == GRID_SIZE && nextGrid.Length == GRID_SIZE && grid != nextGrid && InBounds(x, y)
    modifies nextGrid
    ensures var m := FirstMove(JsRule, grid[..], old(nextGrid[..]), x, y, myDensity, [Offset(0, -1)] + Diagonals(diag, -1));
      moved == m.Some? && nextGrid[..] == if moved then m.value else old(nextGrid[..])
  {
    FirstMoveAppend(JsRule, grid[..], nextGrid[..], x, y, myDensity, [Offset(0, -1)], Diagonals(diag, -1));
    moved := SingleMove(JsRule, grid, nextGrid, x, y, myDensity, Offset(0, -1));
    if moved {
      return;
    }
    moved := DiagonalMove(grid, nextGrid, x, y, myDensity, diag, -1);
  }

  /** updateGas. */
  method GasAt(grid: array<Particle>, nextGrid: array<Particle>, x: int, y: int, myDensity: real, src: Source, pos: nat)
    returns (moved: bool, next: nat)
    requires grid.Length == GRID_SIZE && nextGrid.Length == GRID_SIZE && grid != nextGrid && InBounds(x, y)
    modifies nextGrid
    ensures var r := GasStep(grid[..], old(nextGrid[..]), x, y, myDensity, src, pos);
      next == r.next && moved == r.value.Some? && nextGrid[..] == if moved then r.value.value else old(nextGrid[..])
  {
    var randomChoice := Below(src, pos, 10);
    next := pos + 1;
    moved := false;
    if randomChoice < GAS_RISE_CHANCE {
      var diagDir := Coin(src, next);
      next := next + 1;
      moved := RiseMove(grid, nextGrid, x, y, myDensity, diagDir);
    }
    if !moved {
      var horizDir := Coin(src, next);
      next := next + 1;
      moved := BothWaysMove(grid, nextGrid, x, y, myDensity, horizDir, GAS_DISPERSION);
    }
  }

  /** The branch of the loop body for a powder, liquid or gas cell: its chain. */
  method StateAt(grid: array<Particle>, nextGrid: array<Particle>, x: int, y: int, src: Source, pos: nat)
    returns (moved: bool, next: nat)
    requires grid.Length == GRID_SIZE && nextGrid.Length == GRID_SIZE && grid != nextGrid && InBounds(x, y)
    modifies nextGrid
    ensures var r := StateStep(grid[..], old(nextGrid[..]), x, y, src, pos);
      next == r.next && moved == r.value.Some? && nextGrid[..] == if moved then r.value.value else old(nextGrid[..])
  {
    var p := nextGrid[GetIndex(x, y)];
    var density := JsMaterial(p.kind).density;
    if p.state == Powder {
      moved, next := PowderAt(grid, nextGrid, x, y, density, src, pos);
    } else if p.state == Liquid {
      moved, next := LiquidAt(grid, nextGrid, x, y, density, p.vx, src, pos);
    } else {
      moved, next := GasAt(grid, nextGrid, x, y, density, src, pos);
    }
  }

  /** The loop body of the JavaScript scan for cell (x, y). */
  method JsMoveCellAt(grid: array<Particle>, nextGrid: array<Particle>, x: int, y: int, src: Source, pos: nat)
    returns (next: nat)
    requires grid.Length == GRID_SIZE && nextGrid.Length == GRID_SIZE && grid != nextGrid && InBounds(x, y)
    modifies nextGrid
    ensures Drawn(nextGrid[..], next) == JsMoveCell(grid[..], old(nextGrid[..]), x, y, src, pos)
  {
    next := pos;
    var idx := GetIndex(x, y);
    var p := nextGrid[idx];
    if p.kind == EMPTY || p.kind == WALL {
      return;
    }
    if p.updatedThisFrame {
      return;
    }
    var mat := JsMaterial(p.kind);
    if p.state == Solid {
      return;
    }
    if p.kind == FIRE {
      next := FireAt(grid, nextGrid, x, y, mat.density, src, next);
      return;
    }
    var moved;
    moved, next := StateAt(grid, nextGrid, x, y, src, next);
    if !moved {
      DampCell(nextGrid, idx);
    }
  }
}
