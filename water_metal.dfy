// Water against the alkali metals: lithium and sodium turn water into
// hydrogen and themselves into fire, with an explosion.
module WaterMetal {
  import opened Random
  import opened Particles
  import opened ReactionTypes

  function ReactWaterLithium(water: Particle, lithium: Particle, wx: int, wy: int, lx: int, ly: int,
                             src: Source, pos: nat): Drawn<ReactionResult>
  {
    if Uniform(src, pos) > 0.8 then Drawn(NO_REACTION, pos + 1)
    else
      Drawn(ReactionResult(true, HYDROGEN, FIRE, 40000.0, 4, 2.5, INFINITE_LIFE, 25 + Below(src, pos + 1, 25)),
            pos + 2)
  }

  function ReactWaterSodium(water: Particle, sodium: Particle, wx: int, wy: int, sx: int, sy: int,
                            src: Source, pos: nat): Drawn<ReactionResult>
  {
    if Uniform(src, pos) > 0.75 then Drawn(NO_REACTION, pos + 1)
    else
      Drawn(ReactionResult(true, HYDROGEN, FIRE, 35000.0, 3, 2.0, INFINITE_LIFE, 20 + Below(src, pos + 1, 20)),
            pos + 2)
  }

  lemma WaterLithiumFollowsTable(c: Particle, n: Particle, cx: int, cy: int, nx: int, ny: int,
                                 src: Source, pos: nat)
    ensures FollowsOutcome(ReactWaterLithium(c, n, cx, cy, nx, ny, src, pos),
                           DocumentedOutcome(WaterLithium), src, pos)
  {
  }

  lemma WaterSodiumFollowsTable(c: Particle, n: Particle, cx: int, cy: int, nx: int, ny: int,
                                src: Source, pos: nat)
    ensures FollowsOutcome(ReactWaterSodium(c, n, cx, cy, nx, ny, src, pos),
                           DocumentedOutcome(WaterSodium), src, pos)
  {
  }

  /** registerWaterMetalReactions. */
  function WaterMetalRules(): seq<ReactionRule>
  {
    [ ReactionRule(WATER, LITHIUM, Forward(WaterLithium), 0.8, -999.0, "Water-Lithium Reaction"),
      ReactionRule(LITHIUM, WATER, Reversed(WaterLithium), 0.8, -999.0, "Water-Lithium Reaction (rev)"),
      ReactionRule(WATER, SODIUM, Forward(WaterSodium), 0.75, -999.0, "Water-Sodium Reaction"),
      ReactionRule(SODIUM, WATER, Reversed(WaterSodium), 0.75, -999.0, "Water-Sodium Reaction (rev)") ]
  }

  lemma WaterMetalRulesPaired()
    ensures |WaterMetalRules()| == 4
    ensures RegisteredInPairs(WaterMetalRules())
  {
    var r := WaterMetalRules();
    PairRegistered(r[0], r[1]);
    PairRegistered(r[2], r[3]);
    PairsAppend([r[0], r[1]], [r[2], r[3]]);
    assert r == [r[0], r[1]] + [r[2], r[3]];
  }
}
