// The reaction registry: an ordered list of rules, scanned in registration
// order for the first rule whose ordered reactant pair matches, passes its
// probability draw and whose handler reports that a reaction occurred.
module Registry {
  import opened Random
  import opened Particles
  import opened ReactionTypes
  import opened Combustion
  import opened WaterMetal
  import opened Evaporation

  /** The handler function of kind k, called as (centre, neighbour, cx, cy, nx, ny). */
  function React(k: ReactionKind, c: Particle, n: Particle, cx: int, cy: int, nx: int, ny: int,
                 src: Source, pos: nat): (d: Drawn<ReactionResult>)
    ensures FollowsOutcome(d, DocumentedOutcome(k), src, pos)
  {
    match k
    case WoodFire => ReactWoodFire(c, n, cx, cy, nx, ny, src, pos)
    case OilFire => ReactOilFire(c, n, cx, cy, nx, ny, src, pos)
    case HydrogenFire => ReactHydrogenFire(c, n, cx, cy, nx, ny, src, pos)
    case IceFire => ReactIceFire(c, n, cx, cy, nx, ny, src, pos)
    case WaterLithium => ReactWaterLithium(c, n, cx, cy, nx, ny, src, pos)
    case WaterSodium => ReactWaterSodium(c, n, cx, cy, nx, ny, src, pos)
    case OilSteamFire => ReactOilSteamFire(c, n, cx, cy, nx, ny, src, pos)
  }

  /** Calls a rule's (non-null) handler on the pair (p1, p2). */
  function RunHandler(h: Handler, p1: Particle, p2: Particle, x1: int, y1: int, x2: int, y2: int,
                      src: Source, pos: nat): (d: Drawn<ReactionResult>)
    requires !h.NullHandler?
    ensures FollowsOutcome(d, DocumentedOutcome(h.kind), src, pos)
  {
    match h
    case Forward(k) => React(k, p1, p2, x1, y1, x2, y2, src, pos)
    case Reversed(k) => React(k, p2, p1, x2, y2, x1, y1, src, pos)
  }

  /** A "(rev)" wrapper returns the forward handler's result without swapping it back:
      the "centre" product lands on the cell that appears as the rule's first reactant
      of the reversed rule, i.e. on the cell that was not the forward reactant A. */
  lemma ReversedResultNotSwapped(k: ReactionKind, p1: Particle, p2: Particle,
                                 x1: int, y1: int, x2: int, y2: int, src: Source, pos: nat)
    ensures RunHandler(Reversed(k), p1, p2, x1, y1, x2, y2, src, pos)
         == RunHandler(Forward(k), p1, p2, x1, y1, x2, y2, src, pos)
  {
  }

  predicate Matches(rule: ReactionRule, p1: Particle, p2: Particle)
  {
    p1.kind == rule.reactantA && p2.kind == rule.reactantB
  }

  /** checkReaction as a function: the scan over rules, resuming with `last`, the most
      recent result a handler returned (the default result before any). */
  function Resolve(rules: seq<ReactionRule>, last: ReactionResult, p1: Particle, p2: Particle,
                   x1: int, y1: int, x2: int, y2: int, src: Source, pos: nat): Drawn<ReactionResult>
    decreases |rules|
  {
    if |rules| == 0 then Drawn(last, pos)
    else
      var rule := rules[0];
      if !Matches(rule, p1, p2) then Resolve(rules[1..], last, p1, p2, x1, y1, x2, y2, src, pos)
      else if Uniform(src, pos) > rule.probability then
        Resolve(rules[1..], last, p1, p2, x1, y1, x2, y2, src, pos + 1)
      else if rule.handler.NullHandler? then
        Resolve(rules[1..], last, p1, p2, x1, y1, x2, y2, src, pos + 1)
      else
        var r := RunHandler(rule.handler, p1, p2, x1, y1, x2, y2, src, pos + 1);
        if r.value.occurred then r
        else Resolve(rules[1..], r.value, p1, p2, x1, y1, x2, y2, src, r.next)
  }

  /** When nothing occurs the scan returns the default result: every declining handler
      returns the default, so the C++ "last result" and the JavaScript "fresh default"
      coincide. */
  lemma {:induction false} ResolveDeclinedIsDefault(rules: seq<ReactionRule>, p1: Particle, p2: Particle,
                                                     x1: int, y1: int, x2: int, y2: int, src: Source, pos: nat)
    ensures var r := Resolve(rules, NO_REACTION, p1, p2, x1, y1, x2, y2, src, pos);
      !r.value.occurred ==> r.value == NO_REACTION
    decreases |rules|
  {
    if |rules| > 0 {
      ResolveDeclinedIsDefault(rules[1..], p1, p2, x1, y1, x2, y2, src, pos);
      ResolveDeclinedIsDefault(rules[1..], p1, p2, x1, y1, x2, y2, src, pos + 1);
      var rule := rules[0];
      if Matches(rule, p1, p2) && !(Uniform(src, pos) > rule.probability) && !rule.handler.NullHandler? {
        var r := RunHandler(rule.handler, p1, p2, x1, y1, x2, y2, src, pos + 1);
        if !r.value.occurred {
          assert r.value == NO_REACTION;
          ResolveDeclinedIsDefault(rules[1..], p1, p2, x1, y1, x2, y2, src, r.next);
        }
      }
    }
  }

  /** Without a rule for the ordered pair (p1, p2) there is no reaction and no draw:
      a rule for (b, a) does not make (a, b) react. */
  lemma {:induction false} ResolveNoMatch(rules: seq<ReactionRule>, last: ReactionResult, p1: Particle, p2: Particle,
                                          x1: int, y1: int, x2: int, y2: int, src: Source, pos: nat)
    requires forall i :: 0 <= i < |rules| ==> !Matches(rules[i], p1, p2)
    ensures Resolve(rules, last, p1, p2, x1, y1, x2, y2, src, pos) == Drawn(last, pos)
    decreases |rules|
  {
    if |rules| > 0 {
      assert !Matches(rules[0], p1, p2);
      ResolveNoMatch(rules[1..], last, p1, p2, x1, y1, x2, y2, src, pos);
    }
  }

  /** Rules before the first one matching the pair are skipped without drawing. */
  lemma {:induction false} ResolveSkipsPrefix(rules: seq<ReactionRule>, k: nat, last: ReactionResult,
                                              p1: Particle, p2: Particle,
                                              x1: int, y1: int, x2: int, y2: int, src: Source, pos: nat)
    requires k <= |rules|
    requires forall i :: 0 <= i < k ==> !Matches(rules[i], p1, p2)
    ensures Resolve(rules, last, p1, p2, x1, y1, x2, y2, src, pos)
         == Resolve(rules[k..], last, p1, p2, x1, y1, x2, y2, src, pos)
    decreases k
  {
    if k > 0 {
      assert !Matches(rules[0], p1, p2);
      assert rules[1..][k - 1..] == rules[k..];
      ResolveSkipsPrefix(rules[1..], k - 1, last, p1, p2, x1, y1, x2, y2, src, pos);
    }
  }

  /** Registration order is priority: once the rules registered first produce a
      reaction, rules registered after them are never consulted ... */
  lemma {:induction false} ResolveFirstOccurrenceWins(rules: seq<ReactionRule>, more: seq<ReactionRule>,
                                                      last: ReactionResult, p1: Particle, p2: Particle,
                                                      x1: int, y1: int, x2: int, y2: int, src: Source, pos: nat)
    requires !last.occurred
    requires Resolve(rules, last, p1, p2, x1, y1, x2, y2, src, pos).value.occurred
    ensures Resolve(rules + more, last, p1, p2, x1, y1, x2, y2, src, pos)
         == Resolve(rules, last, p1, p2, x1, y1, x2, y2, src, pos)
    decreases |rules|
  {
    if |rules| == 0 {
      assert false;
    } else {
      assert (rules + more)[0] == rules[0];
      assert (rules + more)[1..] == rules[1..] + more;
      var rule := rules[0];
      if !Matches(rule, p1, p2) {
        ResolveFirstOccurrenceWins(rules[1..], more, last, p1, p2, x1, y1, x2, y2, src, pos);
      } else if Uniform(src, pos) > rule.probability || rule.handler.NullHandler? {
        ResolveFirstOccurrenceWins(rules[1..], more, last, p1, p2, x1, y1, x2, y2, src, pos + 1);
      } else {
        var r := RunHandler(rule.handler, p1, p2, x1, y1, x2, y2, src, pos + 1);
        if !r.value.occurred {
          ResolveFirstOccurrenceWins(rules[1..], more, r.value, p1, p2, x1, y1, x2, y2, src, r.next);
        }
      }
    }
  }

  /** ... and when they produce none, the later rules are scanned from where the draws
      left off. */
  lemma {:induction false} ResolveContinues(rules: seq<ReactionRule>, more: seq<ReactionRule>,
                                            last: ReactionResult, p1: Particle, p2: Particle,
                                            x1: int, y1: int, x2: int, y2: int, src: Source, pos: nat)
    requires !Resolve(rules, last, p1, p2, x1, y1, x2, y2, src, pos).value.occurred
    ensures var r := Resolve(rules, last, p1, p2, x1, y1, x2, y2, src, pos);
      Resolve(rules + more, last, p1, p2, x1, y1, x2, y2, src, pos)
      == Resolve(more, r.value, p1, p2, x1, y1, x2, y2, src, r.next)
    decreases |rules|
  {
    if |rules| == 0 {
      assert rules + more == more;
    } else {
      assert (rules + more)[0] == rules[0];
      assert (rules + more)[1..] == rules[1..] + more;
      var rule := rules[0];
      if !Matches(rule, p1, p2) {
        ResolveContinues(rules[1..], more, last, p1, p2, x1, y1, x2, y2, src, pos);
      } else if Uniform(src, pos) > rule.probability || rule.handler.NullHandler? {
        ResolveContinues(rules[1..], more, last, p1, p2, x1, y1, x2, y2, src, pos + 1);
      } else {
        var r := RunHandler(rule.handler, p1, p2, x1, y1, x2, y2, src, pos + 1);
        ResolveContinues(rules[1..], more, r.value, p1, p2, x1, y1, x2, y2, src, r.next);
      }
    }
  }

  /** A reaction that occurs is the documented outcome of a rule for exactly this
      ordered pair that has a handler. */
  lemma {:induction false} ResolveOccurredHasRule(rules: seq<ReactionRule>, last: ReactionResult,
                                                  p1: Particle, p2: Particle,
                                                  x1: int, y1: int, x2: int, y2: int, src: Source, pos: nat)
    requires !last.occurred
    requires Resolve(rules, last, p1, p2, x1, y1, x2, y2, src, pos).value.occurred
    ensures exists i :: (0 <= i < |rules| && Matches(rules[i], p1, p2) && !rules[i].handler.NullHandler?
      && ProducesOutcome(Resolve(rules, last, p1, p2, x1, y1, x2, y2, src, pos).value,
                         DocumentedOutcome(rules[i].handler.kind)))
    decreases |rules|
  {
    if |rules| == 0 {
      assert false;
    } else {
      var res := Resolve(rules, last, p1, p2, x1, y1, x2, y2, src, pos).value;
      var rule := rules[0];
      if Matches(rule, p1, p2) && !(Uniform(src, pos) > rule.probability) && !rule.handler.NullHandler? {
        var r := RunHandler(rule.handler, p1, p2, x1, y1, x2, y2, src, pos + 1);
        if r.value.occurred {
          assert ProducesOutcome(res, DocumentedOutcome(rules[0].handler.kind));
          return;
        }
        ResolveOccurredHasRule(rules[1..], r.value, p1, p2, x1, y1, x2, y2, src, r.next);
      } else if !Matches(rule, p1, p2) {
        ResolveOccurredHasRule(rules[1..], last, p1, p2, x1, y1, x2, y2, src, pos);
      } else {
        ResolveOccurredHasRule(rules[1..], last, p1, p2, x1, y1, x2, y2, src, pos + 1);
      }
      var i :| 0 <= i < |rules[1..]| && Matches(rules[1..][i], p1, p2) && !rules[1..][i].handler.NullHandler?
        && ProducesOutcome(res, DocumentedOutcome(rules[1..][i].handler.kind));
      assert rules[1..][i] == rules[i + 1];
    }
  }

  /** The temperatures of the two particles play no part (the rules' temperature
      condition is disabled in the source) ... */
  lemma {:induction false} ResolveIgnoresTemperature(rules: seq<ReactionRule>, last: ReactionResult,
                                                     p1: Particle, p2: Particle, t1: real, t2: real,
                                                     x1: int, y1: int, x2: int, y2: int, src: Source, pos: nat)
    ensures Resolve(rules, last, p1.(temperature := t1), p2.(temperature := t2), x1, y1, x2, y2, src, pos)
         == Resolve(rules, last, p1, p2, x1, y1, x2, y2, src, pos)
    decreases |rules|
  {
    if |rules| > 0 {
      ResolveIgnoresTemperature(rules[1..], last, p1, p2, t1, t2, x1, y1, x2, y2, src, pos);
      ResolveIgnoresTemperature(rules[1..], last, p1, p2, t1, t2, x1, y1, x2, y2, src, pos + 1);
      var rule := rules[0];
      if Matches(rule, p1, p2) && !(Uniform(src, pos) > rule.probability) && !rule.handler.NullHandler? {
        var r := RunHandler(rule.handler, p1, p2, x1, y1, x2, y2, src, pos + 1);
        assert RunHandler(rule.handler, p1.(temperature := t1), p2.(temperature := t2), x1, y1, x2, y2, src, pos + 1) == r;
        ResolveIgnoresTemperature(rules[1..], r.value, p1, p2, t1, t2, x1, y1, x2, y2, src, r.next);
      }
    }
  }

  /** ... and neither do the rules' minimum temperatures. */
  function WithMinTemperature(rules: seq<ReactionRule>, t: real): (r: seq<ReactionRule>)
    ensures |r| == |rules|
    ensures forall i :: 0 <= i < |rules| ==> r[i] == rules[i].(minTemperature := t)
  {
    seq(|rules|, i requires 0 <= i < |rules| => rules[i].(minTemperature := t))
  }

  lemma {:induction false} ResolveIgnoresMinTemperature(rules: seq<ReactionRule>, t: real, last: ReactionResult,
                                                        p1: Particle, p2: Particle,
                                                        x1: int, y1: int, x2: int, y2: int, src: Source, pos: nat)
    ensures Resolve(WithMinTemperature(rules, t), last, p1, p2, x1, y1, x2, y2, src, pos)
         == Resolve(rules, last, p1, p2, x1, y1, x2, y2, src, pos)
    decreases |rules|
  {
    if |rules| > 0 {
      assert WithMinTemperature(rules, t)[1..] == WithMinTemperature(rules[1..], t);
      ResolveIgnoresMinTemperature(rules[1..], t, last, p1, p2, x1, y1, x2, y2, src, pos);
      ResolveIgnoresMinTemperature(rules[1..], t, last, p1, p2, x1, y1, x2, y2, src, pos + 1);
      var rule := rules[0];
      if Matches(rule, p1, p2) && !(Uniform(src, pos) > rule.probability) && !rule.handler.NullHandler? {
        var r := RunHandler(rule.handler, p1, p2, x1, y1, x2, y2, src, pos + 1);
        ResolveIgnoresMinTemperature(rules[1..], t, r.value, p1, p2, x1, y1, x2, y2, src, r.next);
      }
    }
  }

  /** initializeAllReactions: combustion, then water-metal, then evaporation rules. */
  function InitialRules(): seq<ReactionRule>
  {
    CombustionRules() + WaterMetalRules() + EvaporationRules()
  }

  /** Fourteen rules in seven forward/reversed pairs ... */
  lemma InitialRulesShape()
    ensures |InitialRules()| == 14
    ensures RegisteredInPairs(InitialRules())
  {
    CombustionRulesPaired();
    WaterMetalRulesPaired();
    EvaporationRulesPaired();
    PairsAppend(CombustionRules(), WaterMetalRules());
    PairsAppend(CombustionRules() + WaterMetalRules(), EvaporationRules());
  }

  /** No rule names a wall as either of its reactants. */
  predicate SparesWalls(rules: seq<ReactionRule>)
  {
    forall i :: 0 <= i < |rules| ==> rules[i].reactantA != WALL && rules[i].reactantB != WALL
  }

  /** Walls take part in no initial reaction. */
  lemma InitialRulesSpareWalls()
    ensures SparesWalls(InitialRules())
  {
    var rules := InitialRules();
    InitialPairsDistinct();
    forall i | 0 <= i < |rules|
      ensures rules[i].reactantA != WALL && rules[i].reactantB != WALL
    {
      assert ReactantPairs(rules)[i] == (rules[i].reactantA, rules[i].reactantB);
    }
  }

  /** The ordered reactant pairs of the initial rules, in registration order. */
  function ReactantPairs(rules: seq<ReactionRule>): (ps: seq<(int, int)>)
    ensures |ps| == |rules|
    ensures forall i :: 0 <= i < |rules| ==> ps[i] == (rules[i].reactantA, rules[i].reactantB)
  {
    seq(|rules|, i requires 0 <= i < |rules| => (rules[i].reactantA, rules[i].reactantB))
  }

  /** ... and no two of them for the same ordered pair, so the first matching rule is
      the only one. */
  lemma InitialPairsDistinct()
    ensures ReactantPairs(InitialRules()) ==
      [(WOOD, FIRE), (FIRE, WOOD), (OIL, FIRE), (FIRE, OIL), (HYDROGEN, FIRE), (FIRE, HYDROGEN),
       (ICE, FIRE), (FIRE, ICE), (WATER, LITHIUM), (LITHIUM, WATER), (WATER, SODIUM), (SODIUM, WATER),
       (STEAM_OIL, FIRE), (FIRE, STEAM_OIL)]
    ensures forall i, j :: 0 <= i < j < |InitialRules()| ==>
      ReactantPairs(InitialRules())[i] != ReactantPairs(InitialRules())[j]
  {
    var ps := ReactantPairs(InitialRules());
    InitialRulesShape();
    assert ps == [(WOOD, FIRE), (FIRE, WOOD), (OIL, FIRE), (FIRE, OIL), (HYDROGEN, FIRE), (FIRE, HYDROGEN),
       (ICE, FIRE), (FIRE, ICE), (WATER, LITHIUM), (LITHIUM, WATER), (WATER, SODIUM), (SODIUM, WATER),
       (STEAM_OIL, FIRE), (FIRE, STEAM_OIL)];
  }

  /** What a single rule does to a pair it matches: its probability draw, then its
      handler (a null handler or a failed draw leaves the default result). */
  function RuleOutcome(rule: ReactionRule, p1: Particle, p2: Particle, x1: int, y1: int, x2: int, y2: int,
                       src: Source, pos: nat): Drawn<ReactionResult>
  {
    if Uniform(src, pos) > rule.probability || rule.handler.NullHandler? then Drawn(NO_REACTION, pos + 1)
    else RunHandler(rule.handler, p1, p2, x1, y1, x2, y2, src, pos + 1)
  }

  /** With exactly one rule for the ordered pair, checkReaction is that rule's outcome. */
  lemma ResolveSingleRule(rules: seq<ReactionRule>, k: nat, p1: Particle, p2: Particle,
                          x1: int, y1: int, x2: int, y2: int, src: Source, pos: nat)
    requires k < |rules| && Matches(rules[k], p1, p2)
    requires forall i :: 0 <= i < |rules| && i != k ==> !Matches(rules[i], p1, p2)
    ensures Resolve(rules, NO_REACTION, p1, p2, x1, y1, x2, y2, src, pos)
         == RuleOutcome(rules[k], p1, p2, x1, y1, x2, y2, src, pos)
  {
    ResolveSkipsPrefix(rules, k, NO_REACTION, p1, p2, x1, y1, x2, y2, src, pos);
    var rest := rules[k..];
    assert rest[0] == rules[k];
    assert forall i :: 0 <= i < |rest[1..]| ==> rest[1..][i] == rules[k + 1 + i];
    var rule := rules[k];
    if Uniform(src, pos) > rule.probability || rule.handler.NullHandler? {
      ResolveNoMatch(rest[1..], NO_REACTION, p1, p2, x1, y1, x2, y2, src, pos + 1);
    } else {
      var r := RunHandler(rule.handler, p1, p2, x1, y1, x2, y2, src, pos + 1);
      ResolveNoMatch(rest[1..], r.value, p1, p2, x1, y1, x2, y2, src, r.next);
    }
  }

  /** With the initial rules, the rule matching an ordered pair of the list is the only one. */
  lemma InitialRuleFor(p1: Particle, p2: Particle, k: nat)
    requires k < 14 && ReactantPairs(InitialRules())[k] == (p1.kind, p2.kind)
    ensures k < |InitialRules()| && Matches(InitialRules()[k], p1, p2)
    ensures forall i :: 0 <= i < |InitialRules()| && i != k ==> !Matches(InitialRules()[i], p1, p2)
  {
    InitialPairsDistinct();
    var r := InitialRules();
    forall i | 0 <= i < |r| && i != k
      ensures !Matches(r[i], p1, p2)
    {
      assert ReactantPairs(r)[i] != ReactantPairs(r)[k];
    }
  }

  /** Wood beside fire: with the initial rules the wood cell catches fire (half the time
      at the registry's draw, half at the handler's) and the fire cell becomes CO2. */
  lemma WoodBesideFire(wood: Particle, fire: Particle, x1: int, y1: int, x2: int, y2: int,
                       src: Source, pos: nat)
    requires wood.kind == WOOD && fire.kind == FIRE
    ensures var r := Resolve(InitialRules(), NO_REACTION, wood, fire, x1, y1, x2, y2, src, pos).value;
      && (r.occurred <==> Uniform(src, pos) <= 0.5 && Uniform(src, pos + 1) <= 0.5)
      && (r.occurred ==> r.newTypeCenter == FIRE && r.newTypeNeighbor == CO2 && r.heatReleased == 15000.0
                         && 30 <= r.lifeCenter < 60 && r.lifeNeighbor == INFINITE_LIFE)
  {
    InitialPairsDistinct();
    InitialRuleFor(wood, fire, 0);
    ResolveSingleRule(InitialRules(), 0, wood, fire, x1, y1, x2, y2, src, pos);
  }

  /** Fire beside wood (the fire cell is the centre): the "(rev)" rule returns the
      forward result unswapped, so the fire cell gets the new FIRE lifetime and the
      wood cell turns straight into CO2. */
  lemma FireBesideWood(fire: Particle, wood: Particle, x1: int, y1: int, x2: int, y2: int,
                       src: Source, pos: nat)
    requires fire.kind == FIRE && wood.kind == WOOD
    ensures var r := Resolve(InitialRules(), NO_REACTION, fire, wood, x1, y1, x2, y2, src, pos).value;
      && (r.occurred <==> Uniform(src, pos) <= 0.5 && Uniform(src, pos + 1) <= 0.5)
      && (r.occurred ==> r.newTypeCenter == FIRE && r.newTypeNeighbor == CO2
                         && 30 <= r.lifeCenter < 60 && r.lifeNeighbor == INFINITE_LIFE)
  {
    InitialPairsDistinct();
    InitialRuleFor(fire, wood, 1);
    ResolveSingleRule(InitialRules(), 1, fire, wood, x1, y1, x2, y2, src, pos);
  }

  /** Ice beside fire melts on every draw: probability 1.0 and an ungated handler. */
  lemma IceBesideFire(ice: Particle, fire: Particle, x1: int, y1: int, x2: int, y2: int,
                      src: Source, pos: nat)
    requires ice.kind == ICE && fire.kind == FIRE
    ensures var r := Resolve(InitialRules(), NO_REACTION, ice, fire, x1, y1, x2, y2, src, pos);
      && r.value.occurred && r.next == pos + 1
      && r.value.newTypeCenter == WATER && r.value.newTypeNeighbor == STEAM
      && r.value.heatReleased == -33400.0
  {
    InitialPairsDistinct();
    InitialRuleFor(ice, fire, 6);
    ResolveSingleRule(InitialRules(), 6, ice, fire, x1, y1, x2, y2, src, pos);
    FullProbabilityAlwaysPasses(src, pos, 1.0);
  }

  /** Lithium beside water (the lithium cell is the centre): the unswapped result turns
      the lithium cell into HYDROGEN and the water cell into FIRE, with a radius-4 blast. */
  lemma LithiumBesideWater(lithium: Particle, water: Particle, x1: int, y1: int, x2: int, y2: int,
                           src: Source, pos: nat)
    requires lithium.kind == LITHIUM && water.kind == WATER
    ensures var r := Resolve(InitialRules(), NO_REACTION, lithium, water, x1, y1, x2, y2, src, pos).value;
      && (r.occurred <==> Uniform(src, pos) <= 0.8 && Uniform(src, pos + 1) <= 0.8)
      && (r.occurred ==> r.newTypeCenter == HYDROGEN && r.newTypeNeighbor == FIRE
                         && r.explosionRadius == 4 && r.explosionForce == 2.5
                         && r.lifeCenter == INFINITE_LIFE && 25 <= r.lifeNeighbor < 50)
  {
    InitialRuleFor(lithium, water, 9);
    ResolveSingleRule(InitialRules(), 9, lithium, water, x1, y1, x2, y2, src, pos);
    assert InitialRules()[9] == WaterMetalRules()[1];
    LithiumRuleOutcome(lithium, water, x1, y1, x2, y2, src, pos);
  }

  /** The outcome of the "Water-Lithium Reaction (rev)" rule on its own. */
  lemma LithiumRuleOutcome(lithium: Particle, water: Particle, x1: int, y1: int, x2: int, y2: int,
                           src: Source, pos: nat)
    ensures var r := RuleOutcome(WaterMetalRules()[1], lithium, water, x1, y1, x2, y2, src, pos).value;
      && (r.occurred <==> Uniform(src, pos) <= 0.8 && Uniform(src, pos + 1) <= 0.8)
      && (r.occurred ==> r.newTypeCenter == HYDROGEN && r.newTypeNeighbor == FIRE
                         && r.explosionRadius == 4 && r.explosionForce == 2.5
                         && r.lifeCenter == INFINITE_LIFE && 25 <= r.lifeNeighbor < 50)
  {
  }

  class ReactionRegistry {
    var reactions: seq<ReactionRule>

    constructor()
      ensures reactions == []
    {
      reactions := [];
    }

    /** registerReaction: appends the rule. */
    method RegisterReaction(rule: ReactionRule)
      modifies this
      ensures reactions == old(reactions) + [rule]
    {
      reactions := reactions + [rule];
    }

    /** checkReaction: the first reaction that occurs among the registered rules, and the
        position of the next unused draw. */
    method CheckReaction(p1: Particle, p2: Particle, x1: int, y1: int, x2: int, y2: int,
                         src: Source, pos: nat) returns (result: ReactionResult, next: nat)
      ensures Drawn(result, next) == Resolve(reactions, NO_REACTION, p1, p2, x1, y1, x2, y2, src, pos)
    {
      result := NO_REACTION;
      next := pos;
      var i := 0;
      while i < |reactions|
        invariant 0 <= i <= |reactions|
        invariant Resolve(reactions[i..], result, p1, p2, x1, y1, x2, y2, src, next)
               == Resolve(reactions, NO_REACTION, p1, p2, x1, y1, x2, y2, src, pos)
      {
        var rule := reactions[i];
        assert reactions[i..][0] == rule && reactions[i..][1..] == reactions[i + 1..];
        var matches := p1.kind == rule.reactantA && p2.kind == rule.reactantB;
        if !matches {
          i := i + 1;
          continue;
        }
        var randVal := Uniform(src, next);
        next := next + 1;
        if randVal > rule.probability {
          i := i + 1;
          continue;
        }
        if !rule.handler.NullHandler? {
          var d := RunHandler(rule.handler, p1, p2, x1, y1, x2, y2, src, next);
          result := d.value;
          next := d.next;
          if result.occurred {
            return;
          }
        }
        i := i + 1;
      }
    }

    /** initializeAllReactions: clears the list and registers every module's rules. */
    method InitializeAllReactions()
      modifies this
      ensures reactions == InitialRules()
    {
      reactions := [];
      RegisterCombustionReactions(this);
      RegisterWaterMetalReactions(this);
      RegisterEvaporationReactions(this);
    }
  }

  /** Registers each of rules in order. */
  method RegisterRules(registry: ReactionRegistry, rules: seq<ReactionRule>)
    modifies registry
    ensures registry.reactions == old(registry.reactions) + rules
  {
    var i := 0;
    while i < |rules|
      invariant 0 <= i <= |rules|
      invariant registry.reactions == old(registry.reactions) + rules[..i]
    {
      registry.RegisterReaction(rules[i]);
      assert rules[..i + 1] == rules[..i] + [rules[i]];
      i := i + 1;
    }
    assert rules[..|rules|] == rules;
  }

  method RegisterCombustionReactions(registry: ReactionRegistry)
    modifies registry
    ensures registry.reactions == old(registry.reactions) + CombustionRules()
  {
    RegisterRules(registry, CombustionRules());
  }

  method RegisterWaterMetalReactions(registry: ReactionRegistry)
    modifies registry
    ensures registry.reactions == old(registry.reactions) + WaterMetalRules()
  {
    RegisterRules(registry, WaterMetalRules());
  }

  method RegisterEvaporationReactions(registry: ReactionRegistry)
    modifies registry
    ensures registry.reactions == old(registry.reactions) + EvaporationRules()
  {
    RegisterRules(registry, EvaporationRules());
  }
}
