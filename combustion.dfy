// Combustion: wood, oil and hydrogen catch fire from a neighbouring fire cell,
// and fire melts ice. Each handler receives the two particles and their
// coordinates but decides only from random draws.
module Combustion {
  import opened Random
  import opened Particles
  import opened ReactionTypes

  function ReactWoodFire(wood: Particle, fire: Particle, wx: int, wy: int, fx: int, fy: int,
                         src: Source, pos: nat): Drawn<ReactionResult>
  {
    if Uniform(src, pos) > 0.5 then Drawn(NO_REACTION, pos + 1)
    else
      Drawn(ReactionResult(true, FIRE, CO2, 15000.0, 0, 0.0, 30 + Below(src, pos + 1, 30), INFINITE_LIFE),
            pos + 2)
  }

  function ReactOilFire(oil: Particle, fire: Particle, ox: int, oy: int, fx: int, fy: int,
                        src: Source, pos: nat): Drawn<ReactionResult>
  {
    if Uniform(src, pos) > 0.7 then Drawn(NO_REACTION, pos + 1)
    else
      Drawn(ReactionResult(true, FIRE, CO2, 30000.0, 0, 0.0, 40 + Below(src, pos + 1, 40), INFINITE_LIFE),
            pos + 2)
  }

  function ReactHydrogenFire(hydrogen: Particle, fire: Particle, hx: int, hy: int, fx: int, fy: int,
                             src: Source, pos: nat): Drawn<ReactionResult>
  {
    if Uniform(src, pos) > 0.8 then Drawn(NO_REACTION, pos + 1)
    else
      Drawn(ReactionResult(true, FIRE, STEAM, 50000.0, 5, 3.0, 20 + Below(src, pos + 1, 20), INFINITE_LIFE),
            pos + 2)
  }

  function ReactIceFire(ice: Particle, fire: Particle, ix: int, iy: int, fx: int, fy: int,
                        src: Source, pos: nat): Drawn<ReactionResult>
  {
    Drawn(ReactionResult(true, WATER, STEAM, -33400.0, 0, 0.0, INFINITE_LIFE, INFINITE_LIFE), pos)
  }

  lemma WoodFireFollowsTable(c: Particle, n: Particle, cx: int, cy: int, nx: int, ny: int,
                             src: Source, pos: nat)
    ensures FollowsOutcome(ReactWoodFire(c, n, cx, cy, nx, ny, src, pos), DocumentedOutcome(WoodFire), src, pos)
  {
  }

  lemma OilFireFollowsTable(c: Particle, n: Particle, cx: int, cy: int, nx: int, ny: int,
                            src: Source, pos: nat)
    ensures FollowsOutcome(ReactOilFire(c, n, cx, cy, nx, ny, src, pos), DocumentedOutcome(OilFire), src, pos)
  {
  }

  lemma HydrogenFireFollowsTable(c: Particle, n: Particle, cx: int, cy: int, nx: int, ny: int,
                                 src: Source, pos: nat)
    ensures FollowsOutcome(ReactHydrogenFire(c, n, cx, cy, nx, ny, src, pos),
                           DocumentedOutcome(HydrogenFire), src, pos)
  {
  }

  /** Fire melts ice every time, without drawing. */
  lemma IceFireFollowsTable(c: Particle, n: Particle, cx: int, cy: int, nx: int, ny: int,
                            src: Source, pos: nat)
    ensures FollowsOutcome(ReactIceFire(c, n, cx, cy, nx, ny, src, pos), DocumentedOutcome(IceFire), src, pos)
    ensures ReactIceFire(c, n, cx, cy, nx, ny, src, pos).value.occurred
  {
  }

  /** registerCombustionReactions: each forward rule followed by its "(rev)" twin. */
  function CombustionRules(): seq<ReactionRule>
  {
    [ ReactionRule(WOOD, FIRE, Forward(WoodFire), 0.5, -999.0, "Wood Combustion"),
      ReactionRule(FIRE, WOOD, Reversed(WoodFire), 0.5, -999.0, "Wood Combustion (rev)"),
      ReactionRule(OIL, FIRE, Forward(OilFire), 0.7, -999.0, "Oil Combustion"),
      ReactionRule(FIRE, OIL, Reversed(OilFire), 0.7, -999.0, "Oil Combustion (rev)"),
      ReactionRule(HYDROGEN, FIRE, Forward(HydrogenFire), 0.8, -999.0, "Hydrogen Explosion"),
      ReactionRule(FIRE, HYDROGEN, Reversed(HydrogenFire), 0.8, -999.0, "Hydrogen Explosion (rev)"),
      ReactionRule(ICE, FIRE, Forward(IceFire), 1.0, -999.0, "Ice Melting by Fire"),
      ReactionRule(FIRE, ICE, Reversed(IceFire), 1.0, -999.0, "Ice Melting by Fire (rev)") ]
  }

  lemma CombustionRulesPaired()
    ensures |CombustionRules()| == 8
    ensures RegisteredInPairs(CombustionRules())
  {
    var r := CombustionRules();
    PairRegistered(r[0], r[1]);
    PairRegistered(r[2], r[3]);
    PairRegistered(r[4], r[5]);
    PairRegistered(r[6], r[7]);
    PairsAppend([r[4], r[5]], [r[6], r[7]]);
    PairsAppend([r[2], r[3]], [r[4], r[5]] + [r[6], r[7]]);
    PairsAppend([r[0], r[1]], [r[2], r[3]] + ([r[4], r[5]] + [r[6], r[7]]));
    assert r == [r[0], r[1]] + ([r[2], r[3]] + ([r[4], r[5]] + [r[6], r[7]]));
  }
}
