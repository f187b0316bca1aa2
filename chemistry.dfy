// The chemistry pass: every non-empty cell of the current grid looks at its
// eight neighbours in a fixed order, asks the registry for a reaction, and the
// first one that occurs is written into the next grid (products, lifetimes,
// heat and an optional explosion). The C++ pass and the JavaScript one have the
// same structure and differ only in the material table; `db` is that table.
module Chemistry {
  import opened Options
  import opened Random
  import opened Particles
  import opened Materials
  import opened Grid
  import opened ReactionTypes
  import opened Registry

  /** The eight neighbour offsets, in scan order: up, up-right, right, down-right,
      down, down-left, left, up-left. */
  const DIR_DX: seq<int> := [0, 1, 1, 1, 0, -1, -1, -1]
  const DIR_DY: seq<int> := [-1, -1, 0, 1, 1, 1, 0, -1]

  // ---------------------------------------------------------------------------
  // Explosions
  // ---------------------------------------------------------------------------

  /** The square root the source calls (sqrtf / Math.sqrt) is a parameter; all the
      model relies on is that it is positive on positive arguments. */
  ghost predicate PositiveRoot(sqrt: nat -> real)
  {
    forall n: nat :: n > 0 ==> sqrt(n) > 0.0
  }

  /** The offsets an explosion of the given radius reaches: inside the disc, not the
      centre. With an exact square root, "dist > radius or dist < 0.1" is exactly
      "dx^2 + dy^2 > radius^2 or dx = dy = 0". */
  predicate InBlast(dx: int, dy: int, radius: int)
  {
    && -radius <= dx <= radius && -radius <= dy <= radius
    && 0 < dx * dx + dy * dy <= radius * radius
  }

  /** The push at offset (dx, dy): force scaled down linearly to zero at the rim. */
  function Strength(dx: int, dy: int, radius: int, force: real, sqrt: nat -> real): real
    requires InBlast(dx, dy, radius)
  {
    force * (1.0 - sqrt((dx * dx + dy * dy) as nat) / radius as real)
  }

  /** A cell after the push: radial velocity added, heated by strength * 50. */
  function Pushed(p: Particle, dx: int, dy: int, radius: int, force: real, sqrt: nat -> real): Particle
    requires InBlast(dx, dy, radius) && PositiveRoot(sqrt)
  {
    var dist := sqrt((dx * dx + dy * dy) as nat);
    var strength := Strength(dx, dy, radius, force, sqrt);
    p.(vx := p.vx + (dx as real / dist) * strength,
       vy := p.vy + (dy as real / dist) * strength,
       temperature := p.temperature + strength * 50.0)
  }

  /** A cell a strong enough push may destroy: not a wall, solid or powder. */
  predicate Destroyable(p: Particle, strength: real)
  {
    p.kind != WALL && strength > 0.5 && (p.state == Solid || p.state == Powder)
  }

  /** One cell of an explosion: pushed, and when destroyable, destroyed (turned into
      empty gas) if a draw falls below strength * 0.3. */
  function BlastCell(p: Particle, dx: int, dy: int, radius: int, force: real, sqrt: nat -> real,
                     src: Source, pos: nat): Drawn<Particle>
    requires InBlast(dx, dy, radius) && PositiveRoot(sqrt)
  {
    var q := Pushed(p, dx, dy, radius, force, sqrt);
    var strength := Strength(dx, dy, radius, force, sqrt);
    if !Destroyable(q, strength) then Drawn(q, pos)
    else if Uniform(src, pos) < strength * 0.3 then Drawn(q.(kind := EMPTY, state := Gas), pos + 1)
    else Drawn(q, pos + 1)
  }

  /** What an explosion may leave in a cell it reaches: the pushed cell, or, if that
      is destroyable, the pushed cell turned into empty gas. */
  predicate BlastOutcome(before: Particle, after: Particle, dx: int, dy: int, radius: int, force: real,
                         sqrt: nat -> real)
    requires InBlast(dx, dy, radius) && PositiveRoot(sqrt)
  {
    var q := Pushed(before, dx, dy, radius, force, sqrt);
    || after == q
    || (Destroyable(q, Strength(dx, dy, radius, force, sqrt)) && after == q.(kind := EMPTY, state := Gas))
  }

  /** The rest of applyExplosion's double loop from offset (dx, dy), rows dy outer. */
  function ExplodeFrom(s: Cells, cx: int, cy: int, radius: int, force: real, sqrt: nat -> real,
                       dy: int, dx: int, src: Source, pos: nat): (d: Drawn<Cells>)
    requires IsGrid(s) && radius > 0 && PositiveRoot(sqrt)
    requires -radius <= dy <= radius + 1 && -radius <= dx <= radius + 1
    ensures IsGrid(d.value)
    decreases radius + 1 - dy, radius + 1 - dx
  {
    if dy > radius then Drawn(s, pos)
    else if dx > radius then ExplodeFrom(s, cx, cy, radius, force, sqrt, dy + 1, -radius, src, pos)
    else if !InBlast(dx, dy, radius) || !InBounds(cx + dx, cy + dy) then
      ExplodeFrom(s, cx, cy, radius, force, sqrt, dy, dx + 1, src, pos)
    else
      var idx := GetIndex(cx + dx, cy + dy);
      var b := BlastCell(s[idx], dx, dy, radius, force, sqrt, src, pos);
      ExplodeFrom(s[idx := b.value], cx, cy, radius, force, sqrt, dy, dx + 1, src, b.next)
  }

  /** applyExplosion centred on (cx, cy); a non-positive radius reaches no cell. */
  function Explosion(s: Cells, cx: int, cy: int, radius: int, force: real, sqrt: nat -> real,
                     src: Source, pos: nat): (d: Drawn<Cells>)
    requires IsGrid(s) && PositiveRoot(sqrt)
    ensures IsGrid(d.value)
  {
    if radius <= 0 then Drawn(s, pos)
    else ExplodeFrom(s, cx, cy, radius, force, sqrt, -radius, -radius, src, pos)
  }

  /** What the explosion loop from offset (dx, dy) leaves in cell j: cells of the disc
      it has not reached yet get a blast outcome, every other cell is left alone. */
  ghost predicate BlastedFrom(s: Cells, cx: int, cy: int, radius: int, force: real, sqrt: nat -> real,
                              dy: int, dx: int, src: Source, pos: nat, j: int)
    requires IsGrid(s) && radius > 0 && PositiveRoot(sqrt)
    requires -radius <= dy <= radius + 1 && -radius <= dx <= radius + 1
    requires 0 <= j < GRID_SIZE
  {
    var e := ExplodeFrom(s, cx, cy, radius, force, sqrt, dy, dx, src, pos).value;
    var jdx := XOf(j) - cx;
    var jdy := YOf(j) - cy;
    if InBlast(jdx, jdy, radius) && OffsetAtOrAfter(j, cx, cy, dy, dx) then
      BlastOutcome(s[j], e[j], jdx, jdy, radius, force, sqrt)
    else e[j] == s[j]
  }

  /** Past the end of a row, the cells of the disc still ahead are those from the
      start of the next row. */
  lemma BlastRowDone(cx: int, cy: int, radius: int, dy: int, dx: int, j: int)
    requires dx > radius && 0 <= j < GRID_SIZE
    ensures InBlast(XOf(j) - cx, YOf(j) - cy, radius) ==>
      (OffsetAtOrAfter(j, cx, cy, dy, dx) <==> OffsetAtOrAfter(j, cx, cy, dy + 1, -radius))
  {
  }

  /** An offset that is skipped, or visited, changes the cells ahead by at most cell j
      being that offset's cell. */
  lemma BlastOffset(cx: int, cy: int, dy: int, dx: int, j: int)
    requires 0 <= j < GRID_SIZE
    ensures InBounds(cx + dx, cy + dy) && j == GetIndex(cx + dx, cy + dy) ==>
      XOf(j) - cx == dx && YOf(j) - cy == dy
    ensures !(XOf(j) - cx == dx && YOf(j) - cy == dy) ==>
      (OffsetAtOrAfter(j, cx, cy, dy, dx) <==> OffsetAtOrAfter(j, cx, cy, dy, dx + 1))
    ensures XOf(j) - cx == dx && YOf(j) - cy == dy ==>
      InBounds(cx + dx, cy + dy) && j == GetIndex(cx + dx, cy + dy)
      && OffsetAtOrAfter(j, cx, cy, dy, dx) && !OffsetAtOrAfter(j, cx, cy, dy, dx + 1)
  {
    if InBounds(cx + dx, cy + dy) {
      IndexRoundTrip(cx + dx, cy + dy);
    }
    CoordinatesRoundTrip(j);
  }

  lemma BlastSkippedStep(s: Cells, cx: int, cy: int, radius: int, force: real, sqrt: nat -> real,
                         dy: int, dx: int, src: Source, pos: nat, j: int)
    requires IsGrid(s) && radius > 0 && PositiveRoot(sqrt)
    requires -radius <= dy <= radius && -radius <= dx <= radius
    requires 0 <= j < GRID_SIZE
    requires !InBlast(dx, dy, radius) || !InBounds(cx + dx, cy + dy)
    ensures BlastedFrom(s, cx, cy, radius, force, sqrt, dy, dx + 1, src, pos, j) ==>
      BlastedFrom(s, cx, cy, radius, force, sqrt, dy, dx, src, pos, j)
  {
    assert ExplodeFrom(s, cx, cy, radius, force, sqrt, dy, dx, src, pos)
        == ExplodeFrom(s, cx, cy, radius, force, sqrt, dy, dx + 1, src, pos);
    BlastOffset(cx, cy, dy, dx, j);
  }

  lemma BlastVisitedStep(s: Cells, cx: int, cy: int, radius: int, force: real, sqrt: nat -> real,
                         dy: int, dx: int, src: Source, pos: nat, j: int)
    requires IsGrid(s) && radius > 0 && PositiveRoot(sqrt)
    requires -radius <= dy <= radius && -radius <= dx <= radius
    requires 0 <= j < GRID_SIZE
    requires InBlast(dx, dy, radius) && InBounds(cx + dx, cy + dy)
    requires var idx := GetIndex(cx + dx, cy + dy);
      var b := BlastCell(s[idx], dx, dy, radius, force, sqrt, src, pos);
      BlastedFrom(s[idx := b.value], cx, cy, radius, force, sqrt, dy, dx + 1, src, b.next, j)
    ensures BlastedFrom(s, cx, cy, radius, force, sqrt, dy, dx, src, pos, j)
  {
    var idx := GetIndex(cx + dx, cy + dy);
    var b := BlastCell(s[idx], dx, dy, radius, force, sqrt, src, pos);
    assert ExplodeFrom(s, cx, cy, radius, force, sqrt, dy, dx, src, pos)
        == ExplodeFrom(s[idx := b.value], cx, cy, radius, force, sqrt, dy, dx + 1, src, b.next);
    BlastOffset(cx, cy, dy, dx, j);
  }

  /** The rest of the loop touches only cells of the disc it has not reached yet, and
      each of those exactly once, with the outcome of BlastCell. */
  lemma {:induction false} ExplodeFromCell(s: Cells, cx: int, cy: int, radius: int, force: real,
                                           sqrt: nat -> real, dy: int, dx: int, src: Source, pos: nat, j: int)
    requires IsGrid(s) && radius > 0 && PositiveRoot(sqrt)
    requires -radius <= dy <= radius + 1 && -radius <= dx <= radius + 1
    requires 0 <= j < GRID_SIZE
    ensures BlastedFrom(s, cx, cy, radius, force, sqrt, dy, dx, src, pos, j)
    decreases radius + 1 - dy, radius + 1 - dx
  {
    if dy > radius {
    } else if dx > radius {
      ExplodeFromCell(s, cx, cy, radius, force, sqrt, dy + 1, -radius, src, pos, j);
      BlastRowDone(cx, cy, radius, dy, dx, j);
    } else if !InBlast(dx, dy, radius) || !InBounds(cx + dx, cy + dy) {
      ExplodeFromCell(s, cx, cy, radius, force, sqrt, dy, dx + 1, src, pos, j);
      BlastSkippedStep(s, cx, cy, radius, force, sqrt, dy, dx, src, pos, j);
    } else {
      var idx := GetIndex(cx + dx, cy + dy);
      var b := BlastCell(s[idx], dx, dy, radius, force, sqrt, src, pos);
      ExplodeFromCell(s[idx := b.value], cx, cy, radius, force, sqrt, dy, dx + 1, src, b.next, j);
      BlastVisitedStep(s, cx, cy, radius, force, sqrt, dy, dx, src, pos, j);
    }
  }

  /** applyExplosion reaches exactly the in-bounds cells at a non-zero offset inside
      the disc: each gets the radial push and the heat, and may be destroyed; every
      other cell is left alone. */
  lemma ExplosionReach(s: Cells, cx: int, cy: int, radius: int, force: real, sqrt: nat -> real,
                       src: Source, pos: nat, j: int)
    requires IsGrid(s) && PositiveRoot(sqrt) && 0 <= j < GRID_SIZE
    ensures var e := Explosion(s, cx, cy, radius, force, sqrt, src, pos).value;
      var jdx := XOf(j) - cx;
      var jdy := YOf(j) - cy;
      if InBlast(jdx, jdy, radius) then BlastOutcome(s[j], e[j], jdx, jdy, radius, force, sqrt)
      else e[j] == s[j]
  {
    if radius > 0 {
      ExplodeFromCell(s, cx, cy, radius, force, sqrt, -radius, -radius, src, pos, j);
    }
  }

  /** An explosion never destroys a wall, and a cell whose material it changes was a
      solid or a powder and becomes empty gas. */
  lemma ExplosionOnlyDestroysSolids(s: Cells, cx: int, cy: int, radius: int, force: real,
                                    sqrt: nat -> real, src: Source, pos: nat)
    requires IsGrid(s) && PositiveRoot(sqrt)
    ensures var e := Explosion(s, cx, cy, radius, force, sqrt, src, pos).value;
      forall j :: 0 <= j < GRID_SIZE ==>
        && (s[j].kind == WALL ==> e[j].kind == WALL && e[j].state == s[j].state && e[j].life == s[j].life)
        && (e[j].kind != s[j].kind ==>
              e[j].kind == EMPTY && e[j].state == Gas && (s[j].state == Solid || s[j].state == Powder))
  {
    var e := Explosion(s, cx, cy, radius, force, sqrt, src, pos).value;
    forall j | 0 <= j < GRID_SIZE
      ensures s[j].kind == WALL ==> e[j].kind == WALL && e[j].state == s[j].state && e[j].life == s[j].life
      ensures e[j].kind != s[j].kind ==>
        e[j].kind == EMPTY && e[j].state == Gas && (s[j].state == Solid || s[j].state == Powder)
    {
      ExplosionReach(s, cx, cy, radius, force, sqrt, src, pos, j);
    }
  }

  // ---------------------------------------------------------------------------
  // Applying a reaction
  // ---------------------------------------------------------------------------

  /** A cell turned into material t: t's default state, and the given lifetime unless
      it is NO_LIFE_CHANGE (or any value below -1). */
  function Transmute(db: seq<Material>, p: Particle, t: int, life: int): Particle
    requires |db| > 0
  {
    p.(kind := t, state := GetMaterial(db, t).defaultState, life := if life >= -1 then life else p.life)
  }

  /** The result's products, lifetimes and heat written to the centre idx and the
      neighbour nidx, in that order. */
  function ApplyResult(db: seq<Material>, s: Cells, idx: int, nidx: int, r: ReactionResult): (t: Cells)
    requires |db| > 0 && IsGrid(s) && 0 <= idx < GRID_SIZE && 0 <= nidx < GRID_SIZE
    ensures IsGrid(t)
  {
    var s1 := if r.newTypeCenter >= 0 then s[idx := Transmute(db, s[idx], r.newTypeCenter, r.lifeCenter)] else s;
    var s2 := if r.newTypeNeighbor >= 0 then s1[nidx := Transmute(db, s1[nidx], r.newTypeNeighbor, r.lifeNeighbor)] else s1;
    if r.heatReleased != 0.0 then
      var s3 := s2[idx := s2[idx].(temperature := s2[idx].temperature + r.heatReleased * 0.001)];
      s3[nidx := s3[nidx].(temperature := s3[nidx].temperature + r.heatReleased * 0.001)]
    else s2
  }

  /** A reacting cell after the reaction: material and default state of the product
      (or unchanged when the type is NO_TYPE_CHANGE), lifetime replaced only together
      with the material and only by a value >= -1, heated by heat * 0.001, velocity,
      latent heat and moved flag untouched. */
  predicate Reacted(db: seq<Material>, before: Particle, after: Particle, t: int, life: int, heat: real)
    requires |db| > 0
  {
    && after.kind == (if t >= 0 then t else before.kind)
    && after.state == (if t >= 0 then GetMaterial(db, t).defaultState else before.state)
    && after.life == (if t >= 0 && life >= -1 then life else before.life)
    && after.temperature == before.temperature + heat * 0.001
    && after.vx == before.vx && after.vy == before.vy
    && after.latentHeatStorage == before.latentHeatStorage
    && after.updatedThisFrame == before.updatedThisFrame
  }

  /** ApplyResult changes the two reacting cells as Reacted says and no other cell. */
  lemma ApplyResultCells(db: seq<Material>, s: Cells, idx: int, nidx: int, r: ReactionResult)
    requires |db| > 0 && IsGrid(s) && 0 <= idx < GRID_SIZE && 0 <= nidx < GRID_SIZE && idx != nidx
    ensures var t := ApplyResult(db, s, idx, nidx, r);
      && Reacted(db, s[idx], t[idx], r.newTypeCenter, r.lifeCenter, r.heatReleased)
      && Reacted(db, s[nidx], t[nidx], r.newTypeNeighbor, r.lifeNeighbor, r.heatReleased)
      && forall k :: 0 <= k < GRID_SIZE && k != idx && k != nidx ==> t[k] == s[k]
  {
  }

  /** applyReaction: the result applied to the two cells, then the explosion, if any,
      centred on the reacting centre (x, y). */
  function ApplyReaction(db: seq<Material>, s: Cells, idx: int, nidx: int, r: ReactionResult,
                         x: int, y: int, sqrt: nat -> real, src: Source, pos: nat): (d: Drawn<Cells>)
    requires |db| > 0 && IsGrid(s) && 0 <= idx < GRID_SIZE && 0 <= nidx < GRID_SIZE
    requires PositiveRoot(sqrt)
    ensures IsGrid(d.value)
  {
    var s1 := ApplyResult(db, s, idx, nidx, r);
    if r.explosionRadius > 0 then Explosion(s1, x, y, r.explosionRadius, r.explosionForce, sqrt, src, pos)
    else Drawn(s1, pos)
  }

  // ---------------------------------------------------------------------------
  // The pass
  // ---------------------------------------------------------------------------

  /** The neighbour of (x, y) in direction dir. */
  function NeighbourX(x: int, dir: int): int
    requires 0 <= dir < 8
  {
    x + DIR_DX[dir]
  }

  function NeighbourY(y: int, dir: int): int
    requires 0 <= dir < 8
  {
    y + DIR_DY[dir]
  }

  /** The rest of the direction loop for the centre (x, y) of `cur`, from direction
      dir: the first direction whose in-bounds, non-empty neighbour reacts, with the
      reaction, or None. */
  function ScanFrom(rules: seq<ReactionRule>, cur: Cells, x: int, y: int, dir: int,
                    src: Source, pos: nat): (d: Drawn<Option<(int, ReactionResult)>>)
    requires IsGrid(cur) && InBounds(x, y) && 0 <= dir <= 8
    ensures d.value.Some? ==>
      var (k, r) := d.value.value;
      && dir <= k < 8
      && InBounds(NeighbourX(x, k), NeighbourY(y, k))
      && cur[GetIndex(NeighbourX(x, k), NeighbourY(y, k))].kind != EMPTY
      && r.occurred
    decreases 8 - dir
  {
    if dir == 8 then Drawn(None, pos)
    else
      var nx := NeighbourX(x, dir);
      var ny := NeighbourY(y, dir);
      if !InBounds(nx, ny) || cur[GetIndex(nx, ny)].kind == EMPTY then
        ScanFrom(rules, cur, x, y, dir + 1, src, pos)
      else
        var r := Resolve(rules, NO_REACTION, cur[GetIndex(x, y)], cur[GetIndex(nx, ny)], x, y, nx, ny, src, pos);
        if r.value.occurred then Drawn(Some((dir, r.value)), r.next)
        else ScanFrom(rules, cur, x, y, dir + 1, src, r.next)
  }

  /** A reaction the scan reports comes from a registered rule for the pair (centre,
      that neighbour) with a handler, and has that handler's documented outcome. */
  lemma {:induction false} ScanReactionHasRule(rules: seq<ReactionRule>, cur: Cells, x: int, y: int, dir: int,
                                               src: Source, pos: nat)
    requires IsGrid(cur) && InBounds(x, y) && 0 <= dir <= 8
    requires ScanFrom(rules, cur, x, y, dir, src, pos).value.Some?
    ensures var (k, r) := ScanFrom(rules, cur, x, y, dir, src, pos).value.value;
      var n := cur[GetIndex(NeighbourX(x, k), NeighbourY(y, k))];
      exists i :: (0 <= i < |rules| && Matches(rules[i], cur[GetIndex(x, y)], n)
                   && !rules[i].handler.NullHandler?
                   && ProducesOutcome(r, DocumentedOutcome(rules[i].handler.kind)))
    decreases 8 - dir
  {
    var nx := NeighbourX(x, dir);
    var ny := NeighbourY(y, dir);
    if !InBounds(nx, ny) || cur[GetIndex(nx, ny)].kind == EMPTY {
      ScanReactionHasRule(rules, cur, x, y, dir + 1, src, pos);
    } else {
      var r := Resolve(rules, NO_REACTION, cur[GetIndex(x, y)], cur[GetIndex(nx, ny)], x, y, nx, ny, src, pos);
      if r.value.occurred {
        ResolveOccurredHasRule(rules, NO_REACTION, cur[GetIndex(x, y)], cur[GetIndex(nx, ny)], x, y, nx, ny, src, pos);
      } else {
        ScanReactionHasRule(rules, cur, x, y, dir + 1, src, r.next);
      }
    }
  }

  /** A centre whose material is no rule's first reactant never reacts, and the scan
      draws no random number for it. */
  lemma {:induction false} ScanWithoutRule(rules: seq<ReactionRule>, cur: Cells, x: int, y: int, dir: int,
                                           src: Source, pos: nat)
    requires IsGrid(cur) && InBounds(x, y) && 0 <= dir <= 8
    requires forall i :: 0 <= i < |rules| ==> rules[i].reactantA != cur[GetIndex(x, y)].kind
    ensures ScanFrom(rules, cur, x, y, dir, src, pos) == Drawn(None, pos)
    decreases 8 - dir
  {
    if dir < 8 {
      var nx := NeighbourX(x, dir);
      var ny := NeighbourY(y, dir);
      if InBounds(nx, ny) && cur[GetIndex(nx, ny)].kind != EMPTY {
        ResolveNoMatch(rules, NO_REACTION, cur[GetIndex(x, y)], cur[GetIndex(nx, ny)], x, y, nx, ny, src, pos);
      }
      ScanWithoutRule(rules, cur, x, y, dir + 1, src, pos);
    }
  }

  /** The body of the pass for cell (x, y): reactions are decided on the current grid
      `cur` and applied to the next grid `s`; an empty centre is skipped. */
  function ChemistryStep(db: seq<Material>, rules: seq<ReactionRule>, cur: Cells, s: Cells, x: int, y: int,
                         sqrt: nat -> real, src: Source, pos: nat): (d: Drawn<Cells>)
    requires |db| > 0 && IsGrid(cur) && IsGrid(s) && InBounds(x, y) && PositiveRoot(sqrt)
    ensures IsGrid(d.value)
  {
    if cur[GetIndex(x, y)].kind == EMPTY then Drawn(s, pos)
    else
      var sc := ScanFrom(rules, cur, x, y, 0, src, pos);
      match sc.value
      case None => Drawn(s, sc.next)
      case Some((k, r)) =>
        ApplyReaction(db, s, GetIndex(x, y), GetIndex(NeighbourX(x, k), NeighbourY(y, k)), r, x, y, sqrt,
                      src, sc.next)
  }

  /** The rest of the pass from cell (x, y), rows outer, columns inner. */
  function ChemistryFrom(db: seq<Material>, rules: seq<ReactionRule>, cur: Cells, s: Cells, y: int, x: int,
                         sqrt: nat -> real, src: Source, pos: nat): (d: Drawn<Cells>)
    requires |db| > 0 && IsGrid(cur) && IsGrid(s) && PositiveRoot(sqrt)
    requires 0 <= y <= HEIGHT && 0 <= x <= WIDTH
    ensures IsGrid(d.value)
    decreases HEIGHT - y, WIDTH - x
  {
    if y == HEIGHT then Drawn(s, pos)
    else if x == WIDTH then ChemistryFrom(db, rules, cur, s, y + 1, 0, sqrt, src, pos)
    else
      var d := ChemistryStep(db, rules, cur, s, x, y, sqrt, src, pos);
      ChemistryFrom(db, rules, cur, d.value, y, x + 1, sqrt, src, d.next)
  }

  /** updateChemistry: cur is the grid, s the next grid it writes to. */
  function ChemistryPass(db: seq<Material>, rules: seq<ReactionRule>, cur: Cells, s: Cells,
                         sqrt: nat -> real, src: Source, pos: nat): (d: Drawn<Cells>)
    requires |db| > 0 && IsGrid(cur) && IsGrid(s) && PositiveRoot(sqrt)
    ensures IsGrid(d.value)
  {
    ChemistryFrom(db, rules, cur, s, 0, 0, sqrt, src, pos)
  }

  /** No rule names any material present as its first reactant. */
  predicate Inert(rules: seq<ReactionRule>, cur: Cells)
  {
    forall i, k :: 0 <= i < |rules| && 0 <= k < |cur| ==> rules[i].reactantA != cur[k].kind
  }

  lemma {:induction false} ChemistryFromInert(db: seq<Material>, rules: seq<ReactionRule>, cur: Cells, s: Cells,
                                              y: int, x: int, sqrt: nat -> real, src: Source, pos: nat)
    requires |db| > 0 && IsGrid(cur) && IsGrid(s) && PositiveRoot(sqrt)
    requires 0 <= y <= HEIGHT && 0 <= x <= WIDTH
    requires Inert(rules, cur)
    ensures ChemistryFrom(db, rules, cur, s, y, x, sqrt, src, pos) == Drawn(s, pos)
    decreases HEIGHT - y, WIDTH - x
  {
    if y == HEIGHT {
    } else if x == WIDTH {
      ChemistryFromInert(db, rules, cur, s, y + 1, 0, sqrt, src, pos);
    } else {
      if cur[GetIndex(x, y)].kind != EMPTY {
        ScanWithoutRule(rules, cur, x, y, 0, src, pos);
      }
      ChemistryFromInert(db, rules, cur, s, y, x + 1, sqrt, src, pos);
    }
  }

  /** A grid in which no material present starts a rule is left as it is, and the
      pass draws no random number (in particular, with an empty registry). */
  lemma ChemistryInert(db: seq<Material>, rules: seq<ReactionRule>, cur: Cells, s: Cells,
                       sqrt: nat -> real, src: Source, pos: nat)
    requires |db| > 0 && IsGrid(cur) && IsGrid(s) && PositiveRoot(sqrt)
    requires Inert(rules, cur)
    ensures ChemistryPass(db, rules, cur, s, sqrt, src, pos) == Drawn(s, pos)
  {
    ChemistryFromInert(db, rules, cur, s, 0, 0, sqrt, src, pos);
  }

  /** t has the walls of s, in the same cells and with the same state and lifetime. */
  predicate WallsKept(s: Cells, t: Cells)
    requires IsGrid(s) && IsGrid(t)
  {
    forall k :: 0 <= k < GRID_SIZE ==>
      && (s[k].kind == WALL <==> t[k].kind == WALL)
      && (s[k].kind == WALL ==> t[k].state == s[k].state && t[k].life == s[k].life)
  }

  /** No handler produces a wall. */
  lemma OutcomeSparesWalls(k: ReactionKind)
    ensures DocumentedOutcome(k).center != WALL && DocumentedOutcome(k).neighbor != WALL
  {
    match k
    case WoodFire =>
    case OilFire =>
    case HydrogenFire =>
    case IceFire =>
    case WaterLithium =>
    case WaterSodium =>
    case OilSteamFire =>
  }

  /** A reaction between two cells that are no walls, with products that are no
      walls, keeps every wall, and so does the explosion it may start. */
  lemma ApplyReactionKeepsWalls(db: seq<Material>, s: Cells, idx: int, nidx: int, r: ReactionResult,
                                x: int, y: int, sqrt: nat -> real, src: Source, pos: nat)
    requires |db| > 0 && IsGrid(s) && 0 <= idx < GRID_SIZE && 0 <= nidx < GRID_SIZE && PositiveRoot(sqrt)
    requires s[idx].kind != WALL && s[nidx].kind != WALL
    requires r.newTypeCenter != WALL && r.newTypeNeighbor != WALL
    ensures WallsKept(s, ApplyReaction(db, s, idx, nidx, r, x, y, sqrt, src, pos).value)
  {
    var s1 := ApplyResult(db, s, idx, nidx, r);
    assert WallsKept(s, s1);
    if r.explosionRadius > 0 {
      ExplosionOnlyDestroysSolids(s1, x, y, r.explosionRadius, r.explosionForce, sqrt, src, pos);
    }
  }

  /** One cell of the pass, when no rule names a wall and the next grid has the walls
      of the current one: the reacting pair is no wall and turns into no wall, and the
      explosion destroys none, so every wall is kept. */
  lemma ChemistryStepKeepsWalls(db: seq<Material>, rules: seq<ReactionRule>, cur: Cells, s: Cells, x: int, y: int,
                                sqrt: nat -> real, src: Source, pos: nat)
    requires |db| > 0 && IsGrid(cur) && IsGrid(s) && InBounds(x, y) && PositiveRoot(sqrt)
    requires SparesWalls(rules) && SameWalls(cur, s)
    ensures WallsKept(s, ChemistryStep(db, rules, cur, s, x, y, sqrt, src, pos).value)
  {
    var idx := GetIndex(x, y);
    if cur[idx].kind != EMPTY {
      var sc := ScanFrom(rules, cur, x, y, 0, src, pos);
      if sc.value.Some? {
        var (k, r) := sc.value.value;
        var nidx := GetIndex(NeighbourX(x, k), NeighbourY(y, k));
        ScanReactionHasRule(rules, cur, x, y, 0, src, pos);
        var i :| 0 <= i < |rules| && Matches(rules[i], cur[idx], cur[nidx])
                 && !rules[i].handler.NullHandler?
                 && ProducesOutcome(r, DocumentedOutcome(rules[i].handler.kind));
        OutcomeSparesWalls(rules[i].handler.kind);
        ApplyReactionKeepsWalls(db, s, idx, nidx, r, x, y, sqrt, src, sc.next);
      }
    }
  }

  lemma {:induction false} ChemistryFromKeepsWalls(db: seq<Material>, rules: seq<ReactionRule>, cur: Cells,
                                                   s: Cells, y: int, x: int, sqrt: nat -> real, src: Source, pos: nat)
    requires |db| > 0 && IsGrid(cur) && IsGrid(s) && PositiveRoot(sqrt)
    requires 0 <= y <= HEIGHT && 0 <= x <= WIDTH
    requires SparesWalls(rules) && SameWalls(cur, s)
    ensures WallsKept(s, ChemistryFrom(db, rules, cur, s, y, x, sqrt, src, pos).value)
    decreases HEIGHT - y, WIDTH - x
  {
    if y == HEIGHT {
    } else if x == WIDTH {
      ChemistryFromKeepsWalls(db, rules, cur, s, y + 1, 0, sqrt, src, pos);
    } else {
      var d := ChemistryStep(db, rules, cur, s, x, y, sqrt, src, pos);
      ChemistryStepKeepsWalls(db, rules, cur, s, x, y, sqrt, src, pos);
      ChemistryFromKeepsWalls(db, rules, cur, d.value, y, x + 1, sqrt, src, d.next);
    }
  }

  /** With rules that name no wall, the pass keeps every wall of the next grid, with
      its state and lifetime, when that grid starts with the walls of the current one. */
  lemma ChemistryKeepsWalls(db: seq<Material>, rules: seq<ReactionRule>, cur: Cells, s: Cells,
                            sqrt: nat -> real, src: Source, pos: nat)
    requires |db| > 0 && IsGrid(cur) && IsGrid(s) && PositiveRoot(sqrt)
    requires SparesWalls(rules) && SameWalls(cur, s)
    ensures WallsKept(s, ChemistryPass(db, rules, cur, s, sqrt, src, pos).value)
  {
    ChemistryFromKeepsWalls(db, rules, cur, s, 0, 0, sqrt, src, pos);
  }

  // ---------------------------------------------------------------------------
  // The imperative pass over the grid buffers
  // ---------------------------------------------------------------------------

  /** applyExplosion on the next grid. */
  method ApplyExplosion(nextGrid: array<Particle>, cx: int, cy: int, radius: int, force: real,
                        sqrt: nat -> real, src: Source, pos: nat) returns (next: nat)
    requires nextGrid.Length == GRID_SIZE && PositiveRoot(sqrt)
    modifies nextGrid
    ensures Drawn(nextGrid[..], next) == Explosion(old(nextGrid[..]), cx, cy, radius, force, sqrt, src, pos)
  {
    next := pos;
    if radius <= 0 {
      return;
    }
    var dy := -radius;
    while dy <= radius
      invariant -radius <= dy <= radius + 1
      invariant ExplodeFrom(nextGrid[..], cx, cy, radius, force, sqrt, dy, -radius, src, next)
             == Explosion(old(nextGrid[..]), cx, cy, radius, force, sqrt, src, pos)
    {
      var dx := -radius;
      while dx <= radius
        invariant -radius <= dx <= radius + 1
        invariant ExplodeFrom(nextGrid[..], cx, cy, radius, force, sqrt, dy, dx, src, next)
               == Explosion(old(nextGrid[..]), cx, cy, radius, force, sqrt, src, pos)
      {
        if !InBlast(dx, dy, radius) || !InBounds(cx + dx, cy + dy) {
          dx := dx + 1;
          continue;
        }
        var idx := GetIndex(cx + dx, cy + dy);
        var b := BlastCell(nextGrid[idx], dx, dy, radius, force, sqrt, src, next);
        nextGrid[idx] := b.value;
        next := b.next;
        dx := dx + 1;
      }
      dy := dy + 1;
    }
  }

  /** applyReaction on the next grid. */
  method ApplyReactionInPlace(db: seq<Material>, nextGrid: array<Particle>, idx: int, nidx: int,
                              result: ReactionResult, x: int, y: int, sqrt: nat -> real,
                              src: Source, pos: nat) returns (next: nat)
    requires |db| > 0 && nextGrid.Length == GRID_SIZE && PositiveRoot(sqrt)
    requires 0 <= idx < GRID_SIZE && 0 <= nidx < GRID_SIZE
    modifies nextGrid
    ensures Drawn(nextGrid[..], next)
         == ApplyReaction(db, old(nextGrid[..]), idx, nidx, result, x, y, sqrt, src, pos)
  {
    ghost var s0 := nextGrid[..];
    if result.newTypeCenter >= 0 {
      var center := nextGrid[idx];
      center := center.(kind := result.newTypeCenter);
      var mat := GetMaterial(db, result.newTypeCenter);
      center := center.(state := mat.defaultState);
      if result.lifeCenter >= -1 {
        center := center.(life := result.lifeCenter);
      }
      nextGrid[idx] := center;
    }
    ghost var s1 := nextGrid[..];
    assert s1 == if result.newTypeCenter >= 0
      then s0[idx := Transmute(db, s0[idx], result.newTypeCenter, result.lifeCenter)] else s0;
    if result.newTypeNeighbor >= 0 {
      var neighbor := nextGrid[nidx];
      neighbor := neighbor.(kind := result.newTypeNeighbor);
      var mat := GetMaterial(db, result.newTypeNeighbor);
      neighbor := neighbor.(state := mat.defaultState);
      if result.lifeNeighbor >= -1 {
        neighbor := neighbor.(life := result.lifeNeighbor);
      }
      nextGrid[nidx] := neighbor;
    }
    ghost var s2 := nextGrid[..];
    assert s2 == if result.newTypeNeighbor >= 0
      then s1[nidx := Transmute(db, s1[nidx], result.newTypeNeighbor, result.lifeNeighbor)] else s1;
    if result.heatReleased != 0.0 {
      nextGrid[idx] := nextGrid[idx].(temperature := nextGrid[idx].temperature + result.heatReleased * 0.001);
      nextGrid[nidx] := nextGrid[nidx].(temperature := nextGrid[nidx].temperature + result.heatReleased * 0.001);
    }
    assert nextGrid[..] == ApplyResult(db, s0, idx, nidx, result);
    next := pos;
    if result.explosionRadius > 0 {
      next := ApplyExplosion(nextGrid, x, y, result.explosionRadius, result.explosionForce, sqrt, src, pos);
    }
  }

  /** The body of updateChemistry's column loop for cell (x, y). */
  method ReactCell(db: seq<Material>, registry: ReactionRegistry, grid: array<Particle>,
                   nextGrid: array<Particle>, x: int, y: int, sqrt: nat -> real, src: Source, pos: nat)
    returns (next: nat)
    requires |db| > 0 && grid.Length == GRID_SIZE && nextGrid.Length == GRID_SIZE && grid != nextGrid
    requires InBounds(x, y) && PositiveRoot(sqrt)
    modifies nextGrid
    ensures Drawn(nextGrid[..], next)
         == ChemistryStep(db, registry.reactions, grid[..], old(nextGrid[..]), x, y, sqrt, src, pos)
  {
    next := pos;
    var idx := GetIndex(x, y);
    var center := grid[idx];
    if center.kind == EMPTY {
      return;
    }
    var dir := 0;
    while dir < 8
      invariant 0 <= dir <= 8
      invariant nextGrid[..] == old(nextGrid[..])
      invariant ScanFrom(registry.reactions, grid[..], x, y, dir, src, next)
             == ScanFrom(registry.reactions, grid[..], x, y, 0, src, pos)
    {
      var nx := x + DIR_DX[dir];
      var ny := y + DIR_DY[dir];
      assert nx == NeighbourX(x, dir) && ny == NeighbourY(y, dir);
      if !InBounds(nx, ny) {
        assert ScanFrom(registry.reactions, grid[..], x, y, dir, src, next)
            == ScanFrom(registry.reactions, grid[..], x, y, dir + 1, src, next);
        dir := dir + 1;
        continue;
      }
      var nidx := GetIndex(nx, ny);
      var neighbor := grid[nidx];
      if neighbor.kind == EMPTY {
        assert ScanFrom(registry.reactions, grid[..], x, y, dir, src, next)
            == ScanFrom(registry.reactions, grid[..], x, y, dir + 1, src, next);
        dir := dir + 1;
        continue;
      }
      var result, afterCheck := registry.CheckReaction(center, neighbor, x, y, nx, ny, src, next);
      assert ScanFrom(registry.reactions, grid[..], x, y, dir, src, next)
          == if result.occurred then Drawn(Some((dir, result)), afterCheck)
             else ScanFrom(registry.reactions, grid[..], x, y, dir + 1, src, afterCheck);
      next := afterCheck;
      if result.occurred {
        assert nidx == GetIndex(NeighbourX(x, dir), NeighbourY(y, dir));
        next := ApplyReactionInPlace(db, nextGrid, idx, nidx, result, x, y, sqrt, src, next);
        return;
      }
      dir := dir + 1;
    }
  }

  /** updateChemistry: reactions decided on grid, written to nextGrid; grid and the
      registry are not changed. */
  method UpdateChemistry(db: seq<Material>, registry: ReactionRegistry, grid: array<Particle>,
                         nextGrid: array<Particle>, sqrt: nat -> real, src: Source, pos: nat)
    returns (next: nat)
    requires |db| > 0 && grid.Length == GRID_SIZE && nextGrid.Length == GRID_SIZE && grid != nextGrid
    requires PositiveRoot(sqrt)
    modifies nextGrid
    ensures Drawn(nextGrid[..], next)
         == ChemistryPass(db, registry.reactions, grid[..], old(nextGrid[..]), sqrt, src, pos)
  {
    ghost var rules := registry.reactions;
    ghost var cur := grid[..];
    ghost var goal := ChemistryFrom(db, rules, cur, nextGrid[..], 0, 0, sqrt, src, pos);
    next := pos;
    var y := 0;
    while y < HEIGHT
      invariant 0 <= y <= HEIGHT
      invariant ChemistryFrom(db, rules, cur, nextGrid[..], y, 0, sqrt, src, next) == goal
    {
      next := ReactRow(db, registry, grid, nextGrid, y, sqrt, src, next);
      y := y + 1;
    }
  }

  /** The inner loop of the pass, over the cells of row y. */
  method ReactRow(db: seq<Material>, registry: ReactionRegistry, grid: array<Particle>,
                  nextGrid: array<Particle>, y: int, sqrt: nat -> real, src: Source, pos: nat)
    returns (next: nat)
    requires |db| > 0 && grid.Length == GRID_SIZE && nextGrid.Length == GRID_SIZE && grid != nextGrid
    requires PositiveRoot(sqrt) && 0 <= y < HEIGHT
    modifies nextGrid
    ensures ChemistryFrom(db, registry.reactions, grid[..], nextGrid[..], y + 1, 0, sqrt, src, next)
         == ChemistryFrom(db, registry.reactions, grid[..], old(nextGrid[..]), y, 0, sqrt, src, pos)
  {
    ghost var goal := ChemistryFrom(db, registry.reactions, grid[..], nextGrid[..], y, 0, sqrt, src, pos);
    next := pos;
    var x := 0;
    while x < WIDTH
      invariant 0 <= x <= WIDTH
      invariant ChemistryFrom(db, registry.reactions, grid[..], nextGrid[..], y, x, sqrt, src, next) == goal
    {
      next := ReactCell(db, registry, grid, nextGrid, x, y, sqrt, src, next);
      x := x + 1;
    }
  }
}
