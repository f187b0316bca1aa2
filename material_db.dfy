// The material database: per-material physical constants, indexed by
// material id. The C++ table has the seven materials 0..6; the JavaScript
// mirror has sixteen. Colour and viscosity are display data no pass reads.
module Materials {
  import opened Particles

  datatype Material = Material(
    name: string,
    defaultState: PhysicalState,
    density: real,
    specificHeat: real,
    meltingPoint: real,
    boilingPoint: real,
    latentHeatFusion: real,
    latentHeatVaporization: real)

  const AIR := Material("Air", Gas, 1.2, 1005.0, -999.0, -999.0, 0.0, 0.0)
  const WALL_MATERIAL := Material("Wall", Solid, 2500.0, 840.0, 1500.0, 2800.0, 0.0, 0.0)
  const SAND_MATERIAL := Material("Sand", Powder, 1600.0, 830.0, 1700.0, 2230.0, 0.0, 0.0)
  const WATER_MATERIAL := Material("Water", Liquid, 1000.0, 4186.0, 0.0, 100.0, 334000.0, 2260000.0)
  const ICE_MATERIAL := Material("Ice", Solid, 917.0, 2050.0, 0.0, 100.0, 334000.0, 2260000.0)
  const STEAM_MATERIAL := Material("Steam", Gas, 0.6, 2080.0, 0.0, 100.0, 334000.0, 2260000.0)
  const FIRE_MATERIAL := Material("Fire", Gas, 0.3, 1000.0, -999.0, -999.0, 0.0, 0.0)

  /** g_MaterialDB of the C++ program. */
  const CPP_MATERIAL_DB: seq<Material> :=
    [AIR, WALL_MATERIAL, SAND_MATERIAL, WATER_MATERIAL, ICE_MATERIAL, STEAM_MATERIAL, FIRE_MATERIAL]

  /** MaterialDB of the JavaScript mirror: the C++ entries followed by nine more. */
  const JS_MATERIAL_DB: seq<Material> := CPP_MATERIAL_DB + [
    Material("Oxygen", Gas, 1.4, 920.0, -218.0, -183.0, 0.0, 0.0),
    Material("Hydrogen", Gas, 0.09, 14300.0, -259.0, -253.0, 0.0, 0.0),
    Material("Oil Steam", Gas, 2.5, 2000.0, -999.0, 300.0, 0.0, 500000.0),
    Material("Wood", Solid, 600.0, 1700.0, -999.0, -999.0, 0.0, 0.0),
    Material("Iron", Solid, 7874.0, 449.0, 1538.0, 2862.0, 247000.0, 6090000.0),
    Material("Lithium", Powder, 534.0, 3582.0, 180.5, 1342.0, 432000.0, 20900000.0),
    Material("Sodium", Powder, 971.0, 1230.0, 97.7, 883.0, 113000.0, 4210000.0),
    Material("Oil", Liquid, 900.0, 2000.0, -40.0, 300.0, 0.0, 500000.0),
    Material("CO2", Gas, 1.98, 840.0, -78.5, -78.5, 0.0, 0.0)]

  /** MATERIAL_COUNT of each table. */
  lemma MaterialCounts()
    ensures |CPP_MATERIAL_DB| == 7 && |JS_MATERIAL_DB| == 16
    ensures JS_MATERIAL_DB[..7] == CPP_MATERIAL_DB
  {
  }

  /** getMaterial: the entry of id t, or entry 0 (Air) for an id outside the table. */
  function GetMaterial(db: seq<Material>, t: int): (m: Material)
    requires |db| > 0
    ensures m in db
    ensures m != db[0] ==> 0 < t < |db| && m == db[t]
  {
    if t < 0 || t >= |db| then db[0] else db[t]
  }

  /** An id outside the table is looked up as Air, the EMPTY material. */
  lemma UnknownIdIsAir(db: seq<Material>, t: int)
    requires |db| > 0
    requires t < 0 || t >= |db|
    ensures GetMaterial(db, t) == GetMaterial(db, EMPTY)
  {
  }

  /** An id inside the table selects its own entry. */
  lemma KnownIdSelectsEntry(db: seq<Material>, t: int)
    requires 0 <= t < |db|
    ensures GetMaterial(db, t) == db[t]
  {
  }

  /** getMaterial over the C++ table; every entry it can return has a positive density
      of at most that of Wall, and a specific heat of at least 830. */
  function CppMaterial(t: int): (m: Material)
    ensures m in CPP_MATERIAL_DB
    ensures 0.0 < m.density <= 2500.0
    ensures m.specificHeat >= 830.0
  {
    GetMaterial(CPP_MATERIAL_DB, t)
  }

  /** getMaterial over the JavaScript table; every entry has a positive density and a
      specific heat of at least 449 (Iron). */
  function JsMaterial(t: int): (m: Material)
    ensures m in JS_MATERIAL_DB
    ensures m.density > 0.0
    ensures m.specificHeat >= 449.0
  {
    GetMaterial(JS_MATERIAL_DB, t)
  }

  /** The C++ program knows no material beyond FIRE: the reaction products it names
      (HYDROGEN, CO2, ...) are looked up as Air, a gas of density 1.2. */
  lemma CppExtraIdsAreAir(t: int)
    requires OXYGEN <= t <= CO2
    ensures CppMaterial(t) == AIR
    ensures CppMaterial(t).defaultState == Gas && CppMaterial(t).density == 1.2
  {
  }

  /** Water's transition points: it melts at 0 and boils at 100, and ice and steam
      carry the same points, so ice, water and steam are one substance. */
  lemma WaterTransitionPoints()
    ensures CppMaterial(WATER).meltingPoint == 0.0 && CppMaterial(WATER).boilingPoint == 100.0
    ensures CppMaterial(ICE).meltingPoint == 0.0 && CppMaterial(STEAM).boilingPoint == 100.0
  {
  }

  /** Default states of the C++ materials. */
  lemma CppDefaultStates()
    ensures CppMaterial(EMPTY).defaultState == Gas
    ensures CppMaterial(WALL).defaultState == Solid && CppMaterial(ICE).defaultState == Solid
    ensures CppMaterial(SAND).defaultState == Powder
    ensures CppMaterial(WATER).defaultState == Liquid
    ensures CppMaterial(STEAM).defaultState == Gas && CppMaterial(FIRE).defaultState == Gas
  {
  }

  /** Density order that drives displacement: fire and steam are lighter than air,
      ice floats on water, sand sinks in water, and no material is denser than Wall. */
  lemma CppDensityOrder(t: int)
    ensures CppMaterial(FIRE).density < CppMaterial(STEAM).density < CppMaterial(EMPTY).density
    ensures CppMaterial(ICE).density < CppMaterial(WATER).density < CppMaterial(SAND).density
    ensures CppMaterial(t).density <= CppMaterial(WALL).density
  {
  }
}
