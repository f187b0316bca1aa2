// The data a reaction produces and the rules the registry holds.
module ReactionTypes {
  import opened Random
  import opened Particles

  /** Sentinels of the result fields. */
  const NO_TYPE_CHANGE: int := -1
  const NO_LIFE_CHANGE: int := -2

  datatype ReactionResult = ReactionResult(
    occurred: bool,
    newTypeCenter: int,     // NO_TYPE_CHANGE: the centre keeps its material
    newTypeNeighbor: int,   // NO_TYPE_CHANGE: the neighbour keeps its material
    heatReleased: real,     // positive: exothermic, negative: endothermic
    explosionRadius: int,   // 0: no explosion
    explosionForce: real,
    lifeCenter: int,        // NO_LIFE_CHANGE: lifetime left alone; -1: infinite
    lifeNeighbor: int)

  /** The default-constructed result: nothing happened, nothing changes. */
  const NO_REACTION: ReactionResult :=
    ReactionResult(false, NO_TYPE_CHANGE, NO_TYPE_CHANGE, 0.0, 0, 0.0, NO_LIFE_CHANGE, NO_LIFE_CHANGE)

  /** The reaction handlers of the source, one per handler function. */
  datatype ReactionKind =
    | WoodFire | OilFire | HydrogenFire | IceFire
    | WaterLithium | WaterSodium
    | OilSteamFire

  /** The handler a rule calls: none (a null handler), a handler called with the
      (centre, neighbour) pair as given, or the "(rev)" wrapper that calls the handler
      with the pair swapped and hands its result back unchanged. */
  datatype Handler = NullHandler | Forward(kind: ReactionKind) | Reversed(kind: ReactionKind)

  datatype ReactionRule = ReactionRule(
    reactantA: int,
    reactantB: int,
    handler: Handler,
    probability: real,
    minTemperature: real,
    name: string)

  /** How a handler's lifetime field is set: to -1 (immortal) or to lo + rand() % span. */
  datatype LifeRange = Immortal | Frames(lo: int, span: int)

  /** The documented outcome of a handler: whether it rolls its own acceptance draw and
      against which threshold, the products, the heat, the explosion and the lifetimes. */
  datatype Outcome = Outcome(
    gated: bool,
    threshold: real,
    center: int,
    neighbor: int,
    heat: real,
    radius: int,
    force: real,
    centerLife: LifeRange,
    neighborLife: LifeRange)

  /** The outcome table of the reaction handlers. */
  function DocumentedOutcome(k: ReactionKind): Outcome
  {
    match k
    case WoodFire => Outcome(true, 0.5, FIRE, CO2, 15000.0, 0, 0.0, Frames(30, 30), Immortal)
    case OilFire => Outcome(true, 0.7, FIRE, CO2, 30000.0, 0, 0.0, Frames(40, 40), Immortal)
    case HydrogenFire => Outcome(true, 0.8, FIRE, STEAM, 50000.0, 5, 3.0, Frames(20, 20), Immortal)
    case IceFire => Outcome(false, 1.0, WATER, STEAM, -33400.0, 0, 0.0, Immortal, Immortal)
    case WaterLithium => Outcome(true, 0.8, HYDROGEN, FIRE, 40000.0, 4, 2.5, Immortal, Frames(25, 25))
    case WaterSodium => Outcome(true, 0.75, HYDROGEN, FIRE, 35000.0, 3, 2.0, Immortal, Frames(20, 20))
    case OilSteamFire => Outcome(true, 0.8, FIRE, CO2, 35000.0, 0, 0.0, Frames(35, 35), Immortal)
  }

  predicate LifeIn(life: int, range: LifeRange)
  {
    match range
    case Immortal => life == INFINITE_LIFE
    case Frames(lo, span) => lo <= life < lo + span
  }

  function LifeDraws(range: LifeRange): nat
  {
    if range.Frames? then 1 else 0
  }

  /** A reaction that occurred with o's products, heat and explosion, and lifetimes in
      o's ranges. */
  predicate ProducesOutcome(r: ReactionResult, o: Outcome)
  {
    && r == ReactionResult(true, o.center, o.neighbor, o.heat, o.radius, o.force, r.lifeCenter, r.lifeNeighbor)
    && LifeIn(r.lifeCenter, o.centerLife)
    && LifeIn(r.lifeNeighbor, o.neighborLife)
  }

  /** A handler's drawn result agrees with outcome o: a declined gate yields the default
      result after one draw; otherwise the result is o's outcome, after one draw per gate
      and per drawn lifetime. */
  predicate FollowsOutcome(d: Drawn<ReactionResult>, o: Outcome, src: Source, pos: nat)
  {
    if o.gated && Uniform(src, pos) > o.threshold then
      d == Drawn(NO_REACTION, pos + 1)
    else
      && ProducesOutcome(d.value, o)
      && d.next == pos + (if o.gated then 1 else 0) + LifeDraws(o.centerLife) + LifeDraws(o.neighborLife)
  }

  /** A "(rev)" rule for forward rule f: reactants swapped, same handler called through
      the wrapper, same probability and temperature condition. */
  predicate ReversePair(f: ReactionRule, r: ReactionRule)
  {
    && f.handler.Forward?
    && r.handler == Reversed(f.handler.kind)
    && r.reactantA == f.reactantB && r.reactantB == f.reactantA
    && r.probability == f.probability
    && r.minTemperature == f.minTemperature
  }

  /** Rules registered as forward/reversed pairs, each with no temperature condition. */
  predicate RegisteredInPairs(rules: seq<ReactionRule>)
  {
    && |rules| % 2 == 0
    && (forall i :: 0 <= i < |rules| - 1 && i % 2 == 0 ==> ReversePair(rules[i], rules[i + 1]))
    && (forall i :: 0 <= i < |rules| ==> rules[i].minTemperature == -999.0)
  }

  /** A forward rule with its twin, without temperature condition, is a registration
      in pairs. */
  lemma PairRegistered(f: ReactionRule, r: ReactionRule)
    requires ReversePair(f, r) && f.minTemperature == -999.0
    ensures RegisteredInPairs([f, r])
  {
  }

  /** Registrations in pairs, one after the other, are one. */
  lemma PairsAppend(a: seq<ReactionRule>, b: seq<ReactionRule>)
    requires RegisteredInPairs(a) && RegisteredInPairs(b)
    ensures RegisteredInPairs(a + b)
  {
    var c := a + b;
    forall i | 0 <= i < |c| - 1 && i % 2 == 0
      ensures ReversePair(c[i], c[i + 1])
    {
      if i < |a| {
        assert c[i] == a[i] && c[i + 1] == a[i + 1];
      } else {
        var j := i - |a|;
        assert j % 2 == 0;
        assert c[i] == b[j] && c[i + 1] == b[j + 1];
      }
    }
    forall i | 0 <= i < |c|
      ensures c[i].minTemperature == -999.0
    {
      if i < |a| {
        assert c[i] == a[i];
      } else {
        assert c[i] == b[i - |a|];
      }
    }
  }
}
