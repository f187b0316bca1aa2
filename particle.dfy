// One cell of the grid: its material id (the source field `type`, here `kind`), temperature, physical state,
// velocity, stored latent heat, remaining lifetime and the per-frame
// "already moved" flag.
module Particles {

  // Material ids. Ids 0..6 are shared by the C++ and JavaScript code; ids
  // 7..15 are the extra materials the reactions name (as numbered by the
  // JavaScript mirror).
  const EMPTY: int := 0
  const WALL: int := 1
  const SAND: int := 2
  const WATER: int := 3
  const ICE: int := 4
  const STEAM: int := 5
  const FIRE: int := 6
  const OXYGEN: int := 7
  const HYDROGEN: int := 8
  const STEAM_OIL: int := 9
  const WOOD: int := 10
  const IRON: int := 11
  const LITHIUM: int := 12
  const SODIUM: int := 13
  const OIL: int := 14
  const CO2: int := 15

  /** Physical state of a cell; Code gives the numeric value the source stores. */
  datatype PhysicalState = Solid | Powder | Liquid | Gas
  {
    function Code(): (c: int)
      ensures 0 <= c <= 3
    {
      match this
      case Solid => 0
      case Powder => 1
      case Liquid => 2
      case Gas => 3
    }
  }

  /** Lifetime meaning "never expires". */
  const INFINITE_LIFE: int := -1

  datatype Particle = Particle(
    kind: int,
    temperature: real,
    state: PhysicalState,
    vx: real,
    vy: real,
    latentHeatStorage: real,
    life: int,
    updatedThisFrame: bool)

  /** The default-constructed cell. */
  function DefaultParticle(): Particle
  {
    Particle(EMPTY, 20.0, Solid, 0.0, 0.0, 0.0, INFINITE_LIFE, false)
  }

  /** A default cell is empty, at room temperature, at rest, immortal and not yet moved;
      its state is SOLID, not the GAS that the EMPTY material lists. */
  lemma DefaultParticleFields()
    ensures DefaultParticle().kind == EMPTY
    ensures DefaultParticle().temperature == 20.0
    ensures DefaultParticle().state == Solid && DefaultParticle().state.Code() == 0
    ensures DefaultParticle().vx == 0.0 && DefaultParticle().vy == 0.0
    ensures DefaultParticle().latentHeatStorage == 0.0
    ensures DefaultParticle().life == INFINITE_LIFE
    ensures !DefaultParticle().updatedThisFrame
  {
  }

  /** The four states have the distinct codes 0..3, in order. */
  lemma StateCodesDistinct(a: PhysicalState, b: PhysicalState)
    ensures a.Code() == b.Code() <==> a == b
    ensures Solid.Code() < Powder.Code() < Liquid.Code() < Gas.Code()
  {
  }
}
