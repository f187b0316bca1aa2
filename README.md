# A verified model of the wasm_powder falling-sand simulation

wasm_powder is a falling-sand cellular automaton on a 400 x 300 grid. Its C++ core
(compiled to WebAssembly) keeps two cell buffers: the grid of the current frame and
the next grid that a frame writes to. It also keeps a render buffer of material ids
and a bitmap of 16 x 16 chunks. An external tick runs one frame:

1. copy the grid into the next grid and clear the moved flags;
2. run the passes: heat conduction, phase transitions, forces, the life countdown
   with fire spread, and movement;
3. commit the next grid;
4. refresh the render buffer.

A reaction registry holds ordered (reactant A, reactant B) rules. A chemistry pass
asks it, for every cell and each of its eight neighbours, whether a reaction occurs,
and writes the products, lifetimes, heat and an optional explosion into the next
grid. The repository also ships a JavaScript mirror of the whole engine. Its frame
runs chemistry, a plain life countdown and a movement pass with its own rules, over
a sixteen-material table.

This project models both programs in Dafny.

- **Cells and materials.** Cells are a `Particle` datatype. Temperatures, velocities
  and densities are `real`. Both material tables are constant sequences, and
  getMaterial's fallback to entry 0 is modelled.
- **Randomness.** Random numbers come from an injected stream (`Random.Source`):
  rand() for C++, Math.random() for JavaScript. A draw position is threaded through
  every operation, so the order in which random numbers are consumed is part of the
  model.
- **Passes.** Every pass is written twice:
  - as a specification function: the rest of the loop from a given cell, rows outer;
  - as the imperative loop over `array<Particle>` buffers, proved equal to that
    function.
- **Whole programs.** Classes hold the C++ program's buffers (`Simulation.CppSimulation`)
  and the JavaScript one's (`WebSimulation.JsSimulation`). `Update` is proved to
  leave the grid equal to the frame function of the old grid.

The properties proved include:

- Index round trips.
- The registry is first-match-wins. It returns the default result when nothing
  occurs, and ignores temperatures.
- Each reaction handler agrees with a table of documented outcomes.
- Rules are registered in forward/"(rev)" pairs.
- An explosion reaches exactly the disc and never destroys a wall.
- Heat conduction never overshoots the neighbour mean.
- Phase transitions move at most one step along ice, water and steam.
- Velocity clamping is correct.
- The life pass keeps walls.
- Movement only rearranges cells (a multiset of the cells, up to velocity and the
  moved flag) and keeps every wall in place.
- Chemistry keeps every wall when no rule names a wall, as no initial rule does.
- A whole frame keeps every wall: the C++ frame always, the JavaScript frame when
  walls are solid and immortal, as addParticle places them.
- A frame of the empty world changes nothing.

The model follows the code where the written design differs from it:

- **C++ frame.** The C++ frame does not call the chemistry pass (the call is
  commented out in `src/simulation.cpp`). `Simulation.CppFrame` therefore has no
  chemistry. The JavaScript frame runs chemistry, life and movement only.
- **Forces.** The forces pass applies gravity and clamping only. The code has no
  horizontal bias for blocked liquids.
- **C++ movement.** Fire has no multi-step slide. Powder, liquid and gas try the
  left diagonal before the right one, without a draw. The draws and the slides are
  in the JavaScript mirror only.
- **"(rev)" wrappers.** A "(rev)" rule calls the forward handler with its arguments
  swapped and returns the result unswapped. The products therefore land on the cells
  in the handler's order, not the registry's (`Registry.ReversedResultNotSwapped`,
  `Registry.FireBesideWood`, `Registry.LithiumBesideWater`).
- **Self-contained C++ variant.** `src/simulation.cpp` is the self-contained build
  the C++ frame is modelled on. Its heat, phase-transition, forces and movement
  passes are the code of the modular files under `src/physics/`. Its life pass also
  heats the eight neighbours of every fire cell; `SpecialMaterials.LifePass` has a
  flag for that.

## Model

| member | source | states |
|---|---|---|
| Grid.InBounds | src/core/grid.h:21-23 | the cells inside the 400x300 grid: exactly those whose row-major index lies in range and decodes back to them (GetIndex, IndexRoundTrip, CoordinatesRoundTrip) |
| Grid.GetIndex | src/core/grid.h:16-18 | an in-bounds cell's row-major index lies in [0, GRID_SIZE) |
| Grid.IndexRoundTrip | src/core/grid.h:16-18 | the column and row recovered from an in-bounds cell's index are the cell's own |
| Grid.CoordinatesRoundTrip | src/core/grid.h:16-18 | every index in [0, GRID_SIZE) is the index of exactly the in-bounds cell recovered from it |
| Grid.IndexInjective | src/core/grid.h:16-18 | two in-bounds cells have the same index iff they are the same cell |
| Grid.TruncDiv | src/core/grid.h:27-28 | C++ integer division truncates toward zero, for negative numerators too |
| Grid.GetChunkIndex | src/core/grid.h:26-32 | the chunk index is -1 or a valid chunk; for an in-bounds cell it is the chunk holding the cell |
| Grid.ChunkIndexOfOffGridCells | src/core/grid.h:26-32 | truncation and the rounded-up chunk rows give some off-grid cells a real chunk ((-1, 0) and (0, HEIGHT)); others get -1 |
| Grid.MarkChunkActive | src/core/grid.h:35-40 | sets exactly the flag of the cell's chunk, if it has one; it clears no flag; on an all-active bitmap it changes nothing |
| Grid.InitGrid | src/core/grid.cpp:13-24 | both buffers hold default cells, the render buffer is EMPTY and every chunk is active |
| Grid.UpdateRenderBuffer | src/core/grid.cpp:27-31 | the render buffer holds every cell's material id |
| Grid.SeededPresets | src/core/grid.cpp:39-67 | a seeded cell has the material's default state, is at rest, has no stored heat and is flagged as before; fire gets 150 degrees and a life in [30, 60) from one draw; ice gets -10, steam 110 and anything else 20, each immortal and drawing nothing |
| Grid.SeedCell | src/core/grid.cpp:39-67 | the cell built in place equals the seeded cell, with the same draws consumed |
| Grid.PlaceParticle | src/core/grid.cpp:38-70 | only the target cell changes, to the seeded cell, and exactly its chunk is marked active |
| Grid.AddParticle | src/core/grid.cpp:34-71 | out of bounds nothing changes and nothing is drawn; in bounds the cell is overwritten with the seeded cell whatever it held, and its chunk is marked |
| Materials.MaterialCounts | src/material_db.h:22-123 | the C++ table has 7 entries, the JavaScript table 16, and its first 7 are the C++ table |
| Materials.GetMaterial | src/material_db.h:126-131 | the lookup returns an entry of the table; any entry other than Air is the entry of the id itself |
| Materials.UnknownIdIsAir | src/material_db.h:127-129 | an id outside the table is looked up as Air, the EMPTY material |
| Materials.KnownIdSelectsEntry | src/material_db.h:130 | an id inside the table selects its own entry |
| Materials.CppMaterial | src/material_db.h:22-120 | every C++ material has a density in (0, 2500] and a specific heat of at least 830 |
| Materials.JsMaterial | web/simulation_js.js:90-160 | every JavaScript material has a positive density and a specific heat of at least 449 |
| Materials.CppExtraIdsAreAir | src/material_db.h:126-131 | to the C++ table, the reaction products 7..15 are Air: gas of density 1.2 |
| Materials.WaterTransitionPoints | src/material_db.h:65-100 | water melts at 0 and boils at 100; ice melts at 0 and steam condenses at 100 |
| Materials.CppDefaultStates | src/material_db.h:22-120 | the default states: Air, steam and fire are gas; wall and ice solid; sand powder; water liquid |
| Materials.CppDensityOrder | src/material_db.h:22-120 | fire < steam < air and ice < water < sand in density, and no material is denser than wall |
| Particles.DefaultParticle | src/particle.h:42-50 | the default-constructed cell, field by field: DefaultParticleFields |
| Particles.DefaultParticleFields | src/particle.h:42-50 | the default cell is EMPTY, 20 degrees, solid (code 0), at rest, immortal and not moved |
| Particles.StateCodesDistinct | src/particle.h:16-21 | the four states have distinct codes, ordered solid < powder < liquid < gas |
| Random.Uniform | src/chemistry/reaction_system.cpp:9-11 | randomFloat() lies in [0, 1]; Math.random() lies in [0, 1) |
| Random.Below | src/physics/movement.cpp:42 | rand() % n and floor(Math.random() * n) lie in [0, n) |
| Random.FloorBelow | web/simulation_js.js:430 | floor(u * n) for u in [0, 1) lies in [0, n) and is the floor of u * n |
| Random.ProductBelow | web/simulation_js.js:430 | u * n lies in [0, n) for u in [0, 1) |
| Random.FullProbabilityAlwaysPasses | src/chemistry/reaction_registry.cpp:39-42 | a rule with probability 1.0 is never rejected by its draw |
| ReactionTypes.PairRegistered | src/chemistry/reactions/combustion.cpp:84-104 | a forward rule followed by its "(rev)" twin, without temperature condition, is a registration in pairs |
| ReactionTypes.PairsAppend | src/chemistry/reaction_registry.cpp:60-71 | registrations in pairs concatenated one after the other are a registration in pairs |
| Combustion.ReactWoodFire | src/chemistry/reactions/combustion.cpp:5-22 | follows its outcome table: WoodFireFollowsTable |
| Combustion.ReactOilFire | src/chemistry/reactions/combustion.cpp:25-42 | follows its outcome table: OilFireFollowsTable |
| Combustion.ReactHydrogenFire | src/chemistry/reactions/combustion.cpp:45-64 | follows its outcome table: HydrogenFireFollowsTable |
| Combustion.ReactIceFire | src/chemistry/reactions/combustion.cpp:67-79 | follows its outcome table: IceFireFollowsTable |
| Combustion.WoodFireFollowsTable | src/chemistry/reactions/combustion.cpp:5-22 | wood and fire react when the draw is at most 0.5: wood to fire living [30, 60), fire to CO2, 15000 J; otherwise the default result after one draw |
| Combustion.OilFireFollowsTable | src/chemistry/reactions/combustion.cpp:25-42 | oil and fire react below 0.7: fire living [40, 80), CO2, 30000 J |
| Combustion.HydrogenFireFollowsTable | src/chemistry/reactions/combustion.cpp:45-64 | hydrogen and fire react below 0.8: fire living [20, 40), steam, 50000 J, an explosion of radius 5 and force 3 |
| Combustion.IceFireFollowsTable | src/chemistry/reactions/combustion.cpp:67-79 | fire always melts ice, drawing nothing: water and steam, -33400 J, both immortal |
| Combustion.CombustionRulesPaired | src/chemistry/reactions/combustion.cpp:82-170 | eight rules, each forward rule followed by its "(rev)" twin |
| WaterMetal.ReactWaterLithium | src/chemistry/reactions/water_metal.cpp:5-25 | follows its outcome table: WaterLithiumFollowsTable |
| WaterMetal.ReactWaterSodium | src/chemistry/reactions/water_metal.cpp:28-48 | follows its outcome table: WaterSodiumFollowsTable |
| WaterMetal.WaterLithiumFollowsTable | src/chemistry/reactions/water_metal.cpp:5-25 | water and lithium react below 0.8: hydrogen, fire living [25, 50), 40000 J, an explosion of radius 4 and force 2.5 |
| WaterMetal.WaterSodiumFollowsTable | src/chemistry/reactions/water_metal.cpp:28-48 | water and sodium react below 0.75: hydrogen, fire living [20, 40), 35000 J, radius 3, force 2 |
| WaterMetal.WaterMetalRulesPaired | src/chemistry/reactions/water_metal.cpp:51-95 | four rules in forward/"(rev)" pairs |
| Evaporation.ReactOilSteamFire | src/chemistry/reactions/evaporation.cpp:5-22 | follows its outcome table: OilSteamFireFollowsTable |
| Evaporation.OilSteamFireFollowsTable | src/chemistry/reactions/evaporation.cpp:5-22 | oil steam and fire react below 0.8: fire living [35, 70), CO2, 35000 J |
| Evaporation.EvaporationRulesPaired | src/chemistry/reactions/evaporation.cpp:25-47 | two rules, a forward/"(rev)" pair |
| Registry.React | src/chemistry/reaction_system.h:31-36 | every handler function follows its documented outcome |
| Registry.RunHandler | src/chemistry/reaction_registry.cpp:45-46 | a rule's handler, forward or through the "(rev)" wrapper, follows the documented outcome of the handler it calls |
| Registry.ReversedResultNotSwapped | src/chemistry/reactions/combustion.cpp:94-103 | a "(rev)" wrapper returns exactly the forward handler's result on the swapped pair, unswapped |
| Registry.Resolve | src/chemistry/reaction_registry.cpp:19-56 | the scan over the registered rules: the first reaction that occurs wins (ResolveFirstOccurrenceWins), it comes from a non-null rule for the exact ordered pair (ResolveOccurredHasRule), and without a matching rule nothing reacts and nothing is drawn (ResolveNoMatch) |
| Registry.ResolveDeclinedIsDefault | src/chemistry/reaction_registry.cpp:23-55 | when checkReaction reports no reaction its result is the default result, though it keeps the last declined one |
| Registry.ResolveNoMatch | src/chemistry/reaction_registry.cpp:26-30 | without a rule for the ordered pair there is no reaction and no draw |
| Registry.ResolveSkipsPrefix | src/chemistry/reaction_registry.cpp:26-30 | rules before the first matching one are skipped without drawing |
| Registry.ResolveFirstOccurrenceWins | src/chemistry/reaction_registry.cpp:48-51 | once the rules registered first produce a reaction, later rules change nothing |
| Registry.ResolveContinues | src/chemistry/reaction_registry.cpp:26-53 | when the first rules produce no reaction, the later rules are scanned from the draws left over |
| Registry.ResolveOccurredHasRule | src/chemistry/reaction_registry.cpp:26-52 | a reaction that occurs is the documented outcome of a non-null rule for exactly this ordered pair |
| Registry.ResolveIgnoresTemperature | src/chemistry/reaction_registry.cpp:32-36 | the particles' temperatures play no part in checkReaction |
| Registry.ResolveIgnoresMinTemperature | src/chemistry/reaction_registry.cpp:32-36 | the rules' minimum temperatures play no part in checkReaction |
| Registry.InitialRulesShape | src/chemistry/reaction_registry.cpp:60-71 | the initial registration is fourteen rules in seven forward/"(rev)" pairs |
| Registry.InitialRulesSpareWalls | src/chemistry/reaction_registry.cpp:60-71 | no initial rule names a wall as either reactant |
| Registry.InitialPairsDistinct | src/chemistry/reaction_registry.cpp:60-71 | the fourteen ordered reactant pairs are those of the registration order, and no two coincide |
| Registry.ResolveSingleRule | src/chemistry/reaction_registry.cpp:26-55 | with exactly one rule for the ordered pair, checkReaction is that rule's draw and handler |
| Registry.InitialRuleFor | src/chemistry/reaction_registry.cpp:60-71 | among the initial rules, the one registered for an ordered pair is the only one matching it |
| Registry.WoodBesideFire | src/chemistry/reactions/combustion.cpp:84-92 | with the initial rules, wood beside fire reacts iff both the registry's and the handler's draws are at most 0.5; the wood becomes fire living [30, 60) and the fire CO2, with 15000 J |
| Registry.FireBesideWood | src/chemistry/reactions/combustion.cpp:94-103 | with fire as centre, the "(rev)" rule turns the fire cell into fire and the wood cell into CO2 |
| Registry.IceBesideFire | src/chemistry/reactions/combustion.cpp:150-158 | ice beside fire melts on every draw: probability 1.0, ungated handler |
| Registry.LithiumBesideWater | src/chemistry/reactions/water_metal.cpp:63-72 | with lithium as centre, the unswapped result turns the lithium cell into hydrogen and the water into fire, with an explosion of radius 4 |
| Registry.LithiumRuleOutcome | src/chemistry/reactions/water_metal.cpp:63-72 | the outcome of the "Water-Lithium Reaction (rev)" rule on its own |
| Registry.ReactionRegistry.constructor | web/simulation_js.js:673-675 | the registry starts empty |
| Registry.ReactionRegistry.RegisterReaction | src/chemistry/reaction_registry.cpp:14-16 | appends the rule |
| Registry.ReactionRegistry.CheckReaction | src/chemistry/reaction_registry.cpp:19-56 | the loop returns Resolve over the registered rules, with the draws it consumes |
| Registry.ReactionRegistry.InitializeAllReactions | src/chemistry/reaction_registry.cpp:60-71 | the list becomes exactly combustion, then water-metal, then evaporation rules |
| Registry.RegisterCombustionReactions | src/chemistry/reactions/combustion.cpp:82-170 | appends the combustion rules |
| Registry.RegisterWaterMetalReactions | src/chemistry/reactions/water_metal.cpp:51-95 | appends the water-metal rules |
| Registry.RegisterEvaporationReactions | src/chemistry/reactions/evaporation.cpp:25-47 | appends the evaporation rules |
| Chemistry.Explosion | src/chemistry/reaction_system.cpp:14-49 | reaches exactly the in-bounds cells of the disc (ExplosionReach) and destroys no wall, only solids and powders (ExplosionOnlyDestroysSolids) |
| Chemistry.ExplodeFromCell | src/chemistry/reaction_system.cpp:14-49 | the explosion loop from an offset leaves every cell of the disc still ahead pushed (and possibly destroyed), and every other cell untouched |
| Chemistry.ExplosionReach | src/chemistry/reaction_system.cpp:15-22 | applyExplosion changes exactly the in-bounds cells at a non-zero offset within the radius |
| Chemistry.ExplosionOnlyDestroysSolids | src/chemistry/reaction_system.cpp:37-46 | an explosion never destroys a wall; a cell whose material it changes was solid or powder and becomes empty gas |
| Chemistry.ApplyResultCells | src/chemistry/reaction_system.cpp:85-114 | a result changes the centre and the neighbour as the product/lifetime sentinels and the heat say, and no other cell |
| Chemistry.ScanReactionHasRule | src/chemistry/reaction_system.cpp:68-123 | a reaction the neighbour scan reports comes from a direction with an in-bounds, non-empty neighbour and a registered rule for the pair |
| Chemistry.ScanWithoutRule | src/chemistry/reaction_system.cpp:68-124 | a centre that is no rule's first reactant never reacts, and its scan draws nothing |
| Chemistry.ChemistryInert | src/chemistry/reaction_system.cpp:52-127 | on a grid where no material present starts a rule, the pass changes nothing and draws nothing |
| Chemistry.ChemistryStep | src/chemistry/reaction_system.cpp:58-125 | one centre: a reaction comes from a registered rule for an in-bounds, non-empty neighbour (ScanReactionHasRule), and with rules that name no wall no wall changes (ChemistryStepKeepsWalls) |
| Chemistry.ChemistryStepKeepsWalls | src/chemistry/reaction_system.cpp:58-125 | with rules that name no wall, one centre's reaction keeps every wall of the next grid in its cell, with its state and lifetime |
| Chemistry.ChemistryPass | src/chemistry/reaction_system.cpp:52-127 | an inert grid is left alone with no draw (ChemistryInert); with rules that name no wall every wall is kept (ChemistryKeepsWalls) |
| Chemistry.ChemistryKeepsWalls | src/chemistry/reaction_system.cpp:52-127 | with rules that name no wall, the pass keeps every wall of the next grid in its cell, with its state and lifetime |
| Chemistry.ApplyExplosion | src/chemistry/reaction_system.cpp:14-49 | the double loop on the next grid computes Explosion |
| Chemistry.ApplyReactionInPlace | src/chemistry/reaction_system.cpp:85-120 | the writes to the next grid compute ApplyReaction |
| Chemistry.ReactCell | src/chemistry/reaction_system.cpp:58-125 | the body for one cell computes ChemistryStep |
| Chemistry.ReactRow | src/chemistry/reaction_system.cpp:57-126 | the column loop computes the rest of the pass from the next row |
| Chemistry.UpdateChemistry | src/chemistry/reaction_system.cpp:52-127 | reads the grid, writes the next grid, and computes ChemistryPass |
| HeatConduction.NeighbourCount | src/physics/heat_conduction.cpp:18-21 | an inner cell has 4 neighbours, an edge cell 3 and a corner cell 2 (with both directions of each iff) |
| HeatConduction.SumBounds | src/physics/heat_conduction.cpp:26-29 | the accumulated sum lies between count * lo and count * hi |
| HeatConduction.MeanBounds | src/physics/heat_conduction.cpp:26-30 | the average lies within any bounds of the neighbour temperatures |
| HeatConduction.MeanOfEqual | src/physics/heat_conduction.cpp:26-30 | the average of equal temperatures is that temperature |
| HeatConduction.CppRateBounds | src/physics/heat_conduction.cpp:34 | every conduction rate of the C++ table lies strictly between 0 and 1 |
| HeatConduction.RateDecreasesWithSpecificHeat | src/physics/heat_conduction.cpp:34 | a higher specific heat gives a strictly smaller rate |
| HeatConduction.TowardsAbove | src/physics/heat_conduction.cpp:37 | a cell colder than the mean warms, but not past the mean |
| HeatConduction.TowardsBelow | src/physics/heat_conduction.cpp:37 | a cell warmer than the mean cools, but not past the mean |
| HeatConduction.ConductedBetween | src/physics/heat_conduction.cpp:37 | the new temperature lies between the old one and the mean, and equals the old one iff the mean does |
| HeatConduction.HeatPass | src/physics/heat_conduction.cpp:7-46 | each cell's new temperature lies between its old one and its neighbours' mean, nothing else changes (HeatPassCell), and equal neighbours leave it alone (HeatEquilibrium) |
| HeatConduction.HeatPassCell | src/physics/heat_conduction.cpp:7-46 | only the temperature of a next-grid cell is written, and it lies between the cell's current temperature and its neighbours' mean |
| HeatConduction.HeatEquilibrium | src/physics/heat_conduction.cpp:18-38 | a cell whose neighbours all share its temperature keeps it |
| HeatConduction.Average | src/physics/heat_conduction.cpp:26-30 | the accumulation loop and division compute the mean |
| HeatConduction.ConductCell | src/physics/heat_conduction.cpp:10-43 | the loop body writes the conducted temperature of cell (x, y) and nothing else |
| HeatConduction.UpdateHeatConduction | src/physics/heat_conduction.cpp:7-46 | the next grid becomes HeatPass of the current grid |
| StateChange.PhaseTransition | src/physics/state_change.cpp:12-43 | the four transitions (TransitionTable); unchanged iff none applies (FixedPoints); never two in a row (OneStepPerPass) |
| StateChange.TransitionTable | src/physics/state_change.cpp:12-43 | ice above 0 becomes liquid water; water at or above 100 becomes steam gas; water at or below 0 becomes solid ice; steam below 100 becomes water; empty, wall, fire and others are unchanged |
| StateChange.FixedPoints | src/physics/state_change.cpp:12-43 | a cell is left unchanged iff it is not due for one of the four transitions |
| StateChange.OneStepPerPass | src/physics/state_change.cpp:20-43 | ice never becomes steam and steam never ice in one pass; hot ice becomes only water |
| StateChange.StateChangePass | src/physics/state_change.cpp:6-46 | every cell of the pass result is its own transition |
| StateChange.ChangeStateCell | src/physics/state_change.cpp:9-44 | the loop body applies the transition to cell (x, y) only |
| StateChange.UpdateStateChange | src/physics/state_change.cpp:6-46 | every cell of the next grid takes its transition |
| Forces.ClampProperties | src/physics/forces.cpp:23-26 | clamping lands in [-limit, limit], keeps a value already inside, is idempotent, and cuts values outside to the nearer limit |
| Forces.Forced | src/physics/forces.cpp:12-26 | the push and the clamps, velocities only (ForcedCell); the push's sign follows the density (GravityDirection) |
| Forces.ForcedCell | src/physics/forces.cpp:12-26 | only velocity changes; the new vy is the clamped old vy plus the gravity push, and vx is clamped; skipped cells are unchanged |
| Forces.GravityDirection | src/physics/forces.cpp:19-20 | denser-than-air materials are pulled down, lighter ones pushed up, and air-density ones keep vy |
| Forces.CppPushSigns | src/physics/forces.cpp:19-20 | sand, water and ice are pulled down; steam and fire rise; air feels nothing |
| Forces.ForcesPass | src/physics/forces.cpp:6-29 | every cell of the pass result is its forced cell |
| Forces.ForceCell | src/physics/forces.cpp:9-27 | the loop body forces cell (x, y) only |
| Forces.UpdateForces | src/physics/forces.cpp:6-29 | every cell of the next grid is forced |
| SpecialMaterials.LifeStep | src/materials/special_materials.cpp:10-69 | the own cell's countdown (LifeStepOwnCell); walls, and without heating immortal cells, are kept (LifeStepKeepsWalls, LifeStepKeepsDurable) |
| SpecialMaterials.Spread | src/materials/special_materials.cpp:48-66 | the gates, draws and child's life (SpreadOutcome); the fire cell itself is never written (SpreadSparesCentre) |
| SpecialMaterials.LifePass | src/materials/special_materials.cpp:7-71 | keeps walls and immortal cells (LifePassFrame); a vacant grid is unchanged and undrawn (LifePassVacant) |
| SpecialMaterials.HeatNeighboursSpec | src/simulation.cpp:208-223 | the heating loop warms exactly the in-grid eight neighbours of a fire cell, each once |
| SpecialMaterials.WarmedBounds | src/simulation.cpp:216-219 | a warmed neighbour ends at most at 200 and gains at most 30 degrees; one above 170 ends at 200; only the temperature changes |
| SpecialMaterials.SpreadOutcome | src/materials/special_materials.cpp:48-66 | a spread draws one to three times and does nothing, or, for a parent with more than 10 frames left, turns one empty cardinal neighbour hotter than 80 into gas-state fire with a positive life 5 to 10 frames shorter than its parent's, keeping that cell's other fields |
| SpecialMaterials.LifeStepOwnCell | src/materials/special_materials.cpp:13-25 | empty and wall cells are skipped; a positive life drops by one, and a life reaching 0 turns the cell into empty gas; other fields are kept |
| SpecialMaterials.HeatingSparesCentre | src/simulation.cpp:210 | the heating leaves the fire cell itself as it was |
| SpecialMaterials.SpreadSparesCentre | src/materials/special_materials.cpp:49-51 | a spread only ever writes a neighbour, never the fire cell itself |
| SpecialMaterials.LifeStepKeepsWalls | src/materials/special_materials.cpp:13-66 | one step never creates, moves or removes a wall |
| SpecialMaterials.LifeStepKeepsDurable | src/materials/special_materials.cpp:13-66 | without the heating, a step leaves every present immortal cell other than a spread target unchanged |
| SpecialMaterials.LifePassFrame | src/materials/special_materials.cpp:7-71 | the pass keeps every wall; without the heating it keeps every present immortal cell |
| SpecialMaterials.LifePassVacant | src/materials/special_materials.cpp:7-71 | on a grid with no cell present the pass changes nothing and draws nothing |
| SpecialMaterials.HeatNeighbours | src/simulation.cpp:208-223 | the heating double loop computes HeatNeighboursFrom |
| SpecialMaterials.SpreadFire | src/materials/special_materials.cpp:48-66 | the spread attempt on the next grid computes Spread with its draws |
| SpecialMaterials.LifeCell | src/materials/special_materials.cpp:10-69 | the loop body computes LifeStep |
| SpecialMaterials.LifeRow | src/materials/special_materials.cpp:9-70 | the column loop computes the rest of the pass from the next row |
| SpecialMaterials.UpdateLifeAndSpecialMaterials | src/materials/special_materials.cpp:7-71 | the pass on the next grid computes LifePass |
| Movement.CanMoveTo | src/physics/movement.cpp:8-18 | refuses off-grid cells, permits empty ones, permits an occupied one only to a denser mover and, under the JavaScript rule of web/simulation_js.js:258-267, never a solid one (CanMoveToProperties); refuses walls when they are out of reach (OneSwapKeepsWalls) |
| Movement.CanMoveToProperties | src/physics/movement.cpp:8-18 | off-grid cells are refused, in-bounds empty cells permitted, an occupied cell only to a strictly denser mover, and under the JavaScript rule never a solid occupied cell |
| Movement.Swap | src/physics/movement.cpp:46-49 | exchanges the two cells and flags the one that arrives (SwapExchanges); keeps the multiset of cells (OneSwapKeepsContents) |
| Movement.MoveCell | src/physics/movement.cpp:29-214 | skips, draws and the single swap or damping (MoveCellOutcome); keeps contents and walls (MoveCellKeepsContents, MoveCellKeepsWalls) |
| Movement.SwapExchanges | src/physics/movement.cpp:46-49 | a swap exchanges the two cells, flags the one landing at the destination, and changes nothing else |
| Movement.DampingKeepsContents | src/physics/movement.cpp:211-214 | damping changes no cell's material or state |
| Movement.OneSwapKeepsContents | src/physics/movement.cpp:44-49 | one swap neither creates nor destroys cells |
| Movement.OneSwapKeepsWalls | src/physics/movement.cpp:8-18 | a non-wall mover never swaps with a wall, since canMoveTo refuses it, so walls stay in place |
| Movement.FirstPermitted | src/physics/movement.cpp:82-109 | the chosen candidate is one of the list and is permitted by canMoveTo |
| Movement.FirstPermittedIsFirst | src/physics/movement.cpp:82-109 | an if-else chain takes the earliest permitted candidate, every earlier one being refused, and finds none iff all are refused |
| Movement.FirstMove | src/physics/movement.cpp:82-109 | a move found by a chain is one swap of the cell with a target canMoveTo permits |
| Movement.FirstMoveUnfold | src/physics/movement.cpp:82-91 | a chain is its first arm, else the rest of the chain |
| Movement.FirstMoveAppend | src/physics/movement.cpp:113-158 | a chain followed by another is the first chain, else the second |
| Movement.MoveCellOutcome | src/physics/movement.cpp:29-214 | empty, wall, solid and moved cells change nothing and draw nothing; fire draws once and makes at most a swap; other cells swap with a permitted target or are damped |
| Movement.FirstMoveTarget | src/physics/movement.cpp:82-109 | a move of a C++ chain is the swap with a permitted member of the list |
| Movement.FirstMoveInvariants | src/physics/movement.cpp:82-109 | a C++ chain's move keeps the cells and, for a non-wall mover, keeps walls in place |
| Movement.MoveCellKeepsContents | src/physics/movement.cpp:29-214 | one cell's step neither creates nor destroys cells |
| Movement.MoveCellKeepsWalls | src/physics/movement.cpp:29-214 | one cell's step keeps every wall in place when the next grid has the walls of the current one |
| Movement.SwapCells | src/physics/movement.cpp:45-49 | the two writes and the flag compute Swap |
| Movement.TryMove | src/physics/movement.cpp:44-51 | one arm of a chain moves iff canMoveTo permits the target, and then swaps with it |
| Movement.MoveFire | src/physics/movement.cpp:44-68 | the fire chain for a drawn direction computes FirstMove over the fire candidates |
| Movement.MoveFireSideways | src/physics/movement.cpp:52-68 | fire with a drift tries up, then the diagonal, then sideways |
| Movement.MoveFireStraight | src/physics/movement.cpp:44-68 | fire without drift tries up, then its own cell at offset (0, 0) |
| Movement.MovePowder | src/physics/movement.cpp:82-109 | powder tries down, down-left, down-right |
| Movement.MoveSideways | src/physics/movement.cpp:140-158 | the sideways tail tries left, then right |
| Movement.MoveRising | src/physics/movement.cpp:162-188 | the rising head of gas tries up, up-left, up-right |
| Movement.MoveLiquid | src/physics/movement.cpp:113-158 | liquid tries the powder candidates, then the sideways tail |
| Movement.MoveGas | src/physics/movement.cpp:162-207 | gas tries the rising head, then the sideways tail |
| Movement.MoveByState | src/physics/movement.cpp:81-208 | the chain of a non-fire cell is that of its state |
| Movement.DampCell | src/physics/movement.cpp:211-214 | both velocity components of the cell are damped, nothing else |
| Movement.MoveFireAt | src/physics/movement.cpp:42-68 | the fire branch computes FireOutcome |
| Movement.MoveStateAt | src/physics/movement.cpp:81-214 | the branch for powder, liquid and gas computes StateOutcome |
| Movement.MoveCellAt | src/physics/movement.cpp:30-214 | the loop body computes MoveCell |
| MovementScan.MovementPass | src/physics/movement.cpp:20-217 | only rearranges cells and keeps guarded walls (MovementPassInvariants); a grid where nothing moves is unchanged with one draw per row (MovementPassAllStay) |
| MovementScan.MovementPassInvariants | src/physics/movement.cpp:20-217 | the whole scan only rearranges cells, and keeps every wall in place when walls are guarded |
| MovementScan.MovementPassAllStay | src/physics/movement.cpp:20-35 | when no cell may start a move, the scan changes nothing and draws exactly one direction per row |
| MovementScan.UpdateMovement | src/physics/movement.cpp:20-217 | the row loop computes MovementPass |
| MovementScan.MoveRow | src/physics/movement.cpp:29-215 | the column loop computes the rest of the scan from the next row up |
| JsMovement.JsMoveCell | web/simulation_js.js:269-317 | keeps contents and, with solid walls, walls (JsMoveCellKeepsContents, JsMoveCellKeepsWalls); blocked iff no candidate is permitted (FireStepBlocked, PowderStepBlocked, LiquidStepBlocked, GasStepBlocked) |
| JsMovement.Coin | web/simulation_js.js:363 | the side is -1 iff the draw is below 0.5, else 1 |
| JsMovement.SlideNearest | web/simulation_js.js:407-414 | a slide finds nothing iff every distance 1..n is refused; otherwise it takes the nearest permitted one |
| JsMovement.FireStep | web/simulation_js.js:319-354 | a fire move is one swap with a permitted target |
| JsMovement.PowderStep | web/simulation_js.js:356-377 | a powder move is one swap with a permitted target |
| JsMovement.PreferredSide | web/simulation_js.js:386-391 | a liquid faster than 0.1 in vx prefers its direction of motion without drawing; otherwise it draws a side |
| JsMovement.LiquidStep | web/simulation_js.js:379-427 | a liquid move is one swap with a permitted target |
| JsMovement.GasStep | web/simulation_js.js:429-482 | a gas move is one swap with a permitted target |
| JsMovement.StateStep | web/simulation_js.js:296-309 | a non-fire cell's chain is the powder, liquid or gas step of its state, and any move it finds is one permitted swap |
| JsMovement.FireStepBlocked | web/simulation_js.js:319-354 | fire stays iff every fire candidate and every slide distance is refused; it draws the slide direction, a second draw, only when no fire candidate is permitted |
| JsMovement.PowderStepBlocked | web/simulation_js.js:356-377 | powder stays iff down and both diagonals are refused; its side is drawn only after down fails |
| JsMovement.LiquidStepBlocked | web/simulation_js.js:379-427 | a liquid stays iff down, both diagonals and both slides are refused |
| JsMovement.GasStepBlocked | web/simulation_js.js:429-482 | a gas stays iff it did not rise and both dispersions are refused |
| JsMovement.JsMoveCellKeepsContents | web/simulation_js.js:269-317 | one cell's step neither creates nor destroys cells |
| JsMovement.JsMoveCellKeepsWalls | web/simulation_js.js:258-267 | one cell's step keeps every wall in place when every wall is solid and the walls match the current grid |
| JsMovement.SlideMove | web/simulation_js.js:407-414 | the for loop takes the nearest permitted distance in the direction |
| JsMovement.DiagonalMove | web/simulation_js.js:364-374 | the two diagonals, towards the drawn side first |
| JsMovement.FireAt | web/simulation_js.js:319-354 | updateFire computes FireStep |
| JsMovement.PowderAt | web/simulation_js.js:356-377 | updatePowder computes PowderStep |
| JsMovement.BothWaysMove | web/simulation_js.js:404-423 | the two slide loops, the preferred side first |
| JsMovement.LiquidSpreadMove | web/simulation_js.js:393-423 | the diagonals, then the slides, of a liquid that could not fall |
| JsMovement.LiquidAt | web/simulation_js.js:379-427 | updateLiquid computes LiquidStep |
| JsMovement.RiseMove | web/simulation_js.js:436-451 | up, then the two up-diagonals, the drawn side first |
| JsMovement.GasAt | web/simulation_js.js:429-482 | updateGas computes GasStep |
| JsMovement.StateAt | web/simulation_js.js:296-309 | the state dispatch computes StateStep |
| JsMovement.JsMoveCellAt | web/simulation_js.js:280-315 | the loop body computes JsMoveCell |
| WebSimulation.JsLifePass | web/simulation_js.js:501-516 | creates no material, moves nothing, keeps immortal walls (JsLifePassFrame); agrees with the C++ step off walls (JsAgedMatchesCpp) |
| WebSimulation.JsAged | web/simulation_js.js:503-514 | empty cells and non-positive lives are skipped; a positive life drops by one; a cell changes material iff its life was 1, and then becomes empty gas |
| WebSimulation.JsAgedMatchesCpp | web/simulation_js.js:501-516 | on every non-wall cell the JavaScript countdown does what the C++ life step does to the cell itself |
| WebSimulation.JsLifePassFrame | web/simulation_js.js:501-516 | the countdown creates no material, moves nothing, keeps walls whose life is not positive, and leaves a vacant grid alone |
| WebSimulation.UpdateJsLife | web/simulation_js.js:501-516 | LifeSystem.update computes JsLifePass |
| WebSimulation.JsAdded | web/simulation_js.js:212-247 | fills only an in-bounds empty cell and keeps walls solid and immortal (JsAddedFrame) |
| WebSimulation.JsAddedFrame | web/simulation_js.js:212-247 | placing never overwrites a present cell and changes at most the target cell, which gets the seeded cell; solid and immortal walls stay so |
| WebSimulation.JsAddParticle | web/simulation_js.js:212-247 | only an in-bounds EMPTY cell is filled and its chunk marked; otherwise nothing changes |
| WebSimulation.JsFrame | web/simulation_js.js:946-969 | keeps every wall (JsFrameKeepsWalls); the empty world is a fixed point (JsFrameOfEmptyWorld) |
| WebSimulation.JsFrameKeepsWalls | web/simulation_js.js:946-969 | with rules that name no wall and solid, immortal walls, a frame never creates, moves or removes a wall |
| WebSimulation.JsInitialFrameKeepsWalls | web/simulation_js.js:946-969 | with the initial rules, a frame keeps the solid, immortal walls that addParticle places |
| WebSimulation.JsFrameOfEmptyWorld | web/simulation_js.js:946-969 | a frame of the empty world with the initial rules changes nothing and draws one direction per row |
| WebSimulation.RunJsPasses | web/simulation_js.js:953-960 | chemistry, life and movement in order compute JsFrame |
| WebSimulation.JsSimulation.constructor | web/simulation_js.js:926-939 | default buffers, every chunk active, an empty registry |
| WebSimulation.JsSimulation.Init | web/simulation_js.js:941-944 | the buffers initialised and the registry holding exactly the initial rules |
| WebSimulation.JsSimulation.AddParticle | web/simulation_js.js:979-981 | the grid becomes JsAdded of the old grid, and the chunk flags change only by marking the filled cell's chunk |
| WebSimulation.JsSimulation.Update | web/simulation_js.js:946-969 | the grid becomes JsFrame of the old grid; the next grid equals it and the render buffer shows its materials |
| Simulation.CppFrame | src/simulation.cpp:484-516 | keeps every wall (CppFrameKeepsWalls); the initialised world is a fixed point (CppFrameOfEmptyWorld) |
| Simulation.PassesKeepWalls | src/simulation.cpp:486-506 | the passes before movement leave every wall in place and create none |
| Simulation.CppFrameKeepsWalls | src/simulation.cpp:484-516 | a C++ frame never creates, moves or removes a wall |
| Simulation.CppFrameOfEmptyWorld | src/simulation.cpp:484-516 | a frame of the freshly initialised world leaves it as it is and draws one direction per row |
| Simulation.CppSimulation.constructor | src/simulation.cpp:14-23 | the static buffers start default, zeroed and inactive |
| Simulation.CppSimulation.Init | src/simulation.cpp:469-480 | both grids default, the render buffer EMPTY, every chunk active |
| Simulation.CppSimulation.AddParticle | src/simulation.cpp:538-575 | out of bounds nothing changes; otherwise the cell is seeded and its chunk marked |
| Simulation.CppSimulation.Update | src/simulation.cpp:484-516 | the grid becomes CppFrame of the old grid; the next grid equals it and the render buffer shows its materials |
| Simulation.PrepareNextGrid | src/simulation.cpp:486-491 | the next grid becomes the grid with every moved flag cleared |
| Simulation.RunCppPasses | src/simulation.cpp:496-509 | heat, state change, forces, life with heating, then movement compute CppFrame |
| Simulation.CommitNextGrid | src/simulation.cpp:512 | the grid becomes the next grid |

## Left out

- The user interface (`web/main.js`), the Emscripten getters (buffer addresses, particle size, width, height), and JSSimulation's getRenderBuffer and getParticleArray: they hand out buffers and do not compute.
- IEEE single- and double-precision arithmetic: temperatures, velocities and densities are exact reals. Rounding, NaN and overflow are not modelled.
- sqrtf and Math.sqrt are a parameter known only to be positive on positive arguments. The disc test is done on the integers dx*dx + dy*dy, which the exact square root would give.
- rand() and Math.random() are injected streams of draws, not generators.
- The chunk marking inside the passes (heat, state change, life, movement, fire spread) is not modelled. No pass reads the flags, and init sets them all active; Grid.MarkChunkActive is proved to change nothing on an all-active bitmap. addParticle's marking is modelled.
- HeatConduction.UpdateHeatConduction: the threshold test that only decides whether to mark a chunk is not modelled, for the same reason.
- The registry singleton (getInstance) is a plain object owned by the program.
- The reaction rules' debug names and the materials' colours and viscosities are not modelled: no pass reads them.
- The velocity-based targetX/targetY of the C++ movement pass are not modelled: they are computed and never used.
- The lambdas of the "(rev)" rules are the Handler constructor Reversed.
- The material ids WOOD, OIL, HYDROGEN, LITHIUM, SODIUM, CO2 and the others the reactions name are defined in a header that is not part of this model. Their values follow the JavaScript mirror (7..15). The C++ table has no entries for them, so it looks them up as Air.
- C++ chemistry: the pass is modelled (Chemistry.UpdateChemistry) but, as in the code, it is not part of the C++ frame.
- WebSimulation.JsLifePass has no wall skip, as in the code. Walls are immortal, so it keeps them; JsLifePassFrame states this under that condition.
- Every if-else chain of the movement code is an ordered list of candidate offsets tried in order. The methods still test and swap arm by arm.
- The grid keeps the program's size of 400 x 300.
