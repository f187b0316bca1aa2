// Oil steam burns on contact with fire.
module Evaporation {
  import opened Random
  import opened Particles
  import opened ReactionTypes

  function ReactOilSteamFire(oilSteam: Particle, fire: Particle, sx: int, sy: int, fx: int, fy: int,
                             src: Source, pos: nat): Drawn<ReactionResult>
  {
    if Uniform(src, pos) > 0.8 then Drawn(NO_REACTION, pos + 1)
    else
      Drawn(ReactionResult(true, FIRE, CO2, 35000.0, 0, 0.0, 35 + Below(src, pos + 1, 35), INFINITE_LIFE),
            pos + 2)
  }

  lemma OilSteamFireFollowsTable(c: Particle, n: Particle, cx: int, cy: int, nx: int, ny: int,
                                 src: Source, pos: nat)
    ensures FollowsOutcome(ReactOilSteamFire(c, n, cx, cy, nx, ny, src, pos),
                           DocumentedOutcome(OilSteamFire), src, pos)
  {
  }

  /** registerEvaporationReactions. */
  function EvaporationRules(): seq<ReactionRule>
  {
    [ ReactionRule(STEAM_OIL, FIRE, Forward(OilSteamFire), 0.8, -999.0, "Oil Steam Combustion"),
      ReactionRule(FIRE, STEAM_OIL, Reversed(OilSteamFire), 0.8, -999.0, "Oil Steam Combustion (rev)") ]
  }

  lemma EvaporationRulesPaired()
    ensures |EvaporationRules()| == 2
    ensures RegisteredInPairs(EvaporationRules())
  {
  }
}
