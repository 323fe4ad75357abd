/**
 * The world-morphing value types: the four crystal states, the blueprint
 * view of one cell, the simulation parameters with their defaults, and the
 * internal per-cell record the simulation updates.
 */
module WorldMorphingTypes {
  import opened Vectors

  /** ECrystalType: Empty, Alpha (growing), Beta (hardened), Human (settlement). */
  datatype CrystalType = Empty | Alpha | Beta | Human

  /** FCellState, the read-only view handed to blueprints. */
  datatype CellState = CellState(
    inWorld: bool,
    mantleEnergy: real,
    temperature: real,
    hasThunderstorm: bool,
    crystalType: CrystalType,
    storedEnergy: real,
    isAbsorbing: bool,
    prosperity: real)

  /** A default-constructed FCellState. */
  const DefaultCellState := CellState(false, 0.0, 0.0, false, Empty, 0.0, false, 0.0)

  /** FSimulationParams. */
  datatype SimulationParams = SimulationParams(
    mantleTimeScale: real,
    expansionThreshold: real,
    shrinkThreshold: real,
    mantleEnergyLevel: real,
    maxRadius: real,
    minRadius: real,
    distortionSpeed: real,
    edgeGenerationWidth: int,
    edgeGenerationEnergy: real,
    edgeGenerationOffset: int,
    edgeSupplyPointCount: int,
    edgeSupplyPointSpeed: real,
    diffusionRate: real,
    advectionRate: real,
    thunderstormThreshold: real,
    seasonalAmplitude: real,
    alphaEnergyDemand: real,
    betaEnergyDemand: real,
    mantleAbsorption: real,
    thunderstormEnergy: real,
    expansionCost: real,
    maxCrystalEnergy: real,
    energySharingRate: real,
    energySharingLimit: real,
    harvestThreshold: real,
    humanMinTemp: real,
    humanMaxTemp: real,
    humanSurvivalMinTemp: real,
    humanSurvivalMaxTemp: real,
    humanProsperityGrowth: real,
    humanProsperityDecay: real,
    humanExpansionThreshold: real,
    humanMiningReward: real,
    humanMigrationThreshold: real)

  /** The default-constructed FSimulationParams. */
  const DefaultParams := SimulationParams(
    0.002, 123.0, 2.0, 100.0, 25.0, 5.0, 0.01,
    2, 4.0, 1, 3, 0.05,
    0.12, 0.02, 18.0, 5.0,
    1.5, 2.0, 0.1, 10.0, 8.0, 80.0, 0.1, 1.2, 0.8,
    -10.0, 25.0, -30.0, 45.0, 0.5, 1.0, 80.0, 20.0, 40.0)

  /** FCell, the internal record of one grid cell. */
  datatype Cell = Cell(
    x: int,
    y: int,
    inWorld: bool,
    mantleEnergy: real,
    expansionPotential: real,
    expansionAccumulator: real,
    shrinkAccumulator: real,
    temperature: real,
    baseTemperature: real,
    temperatureChange: real,
    hasThunderstorm: bool,
    crystalState: CrystalType,
    crystalEnergy: real,
    storedEnergy: real,
    isAbsorbing: bool,
    energyFlow: seq<Vec3>,
    prosperity: real)
  {
    /** FCell::ToBlueprintState: the eight fields blueprints may read. */
    function ToBlueprintState(): (r: CellState)
      // the crystal is exposed as CrystalType; every other exposed field keeps its value
      ensures r.inWorld == inWorld && r.crystalType == crystalState
      ensures r.mantleEnergy == mantleEnergy && r.temperature == temperature
      ensures r.hasThunderstorm == hasThunderstorm && r.storedEnergy == storedEnergy
      ensures r.isAbsorbing == isAbsorbing && r.prosperity == prosperity
    {
      CellState(inWorld, mantleEnergy, temperature, hasThunderstorm,
                crystalState, storedEnergy, isAbsorbing, prosperity)
    }
  }

  /** A default-constructed FCell: everything zero, false or Empty, except ten units of stored energy. */
  const DefaultCell := Cell(0, 0, false, 0.0, 0.0, 0.0, 0.0, 0.0, 0.0, 0.0, false,
                            Empty, 0.0, 10.0, false, [], 0.0)

  /**
   * The uninterpreted maths the simulation calls: sine, cosine, two-argument
   * arctangent, and the Gaussian falloff exp(-d*d / (2*sigma*sigma)) used by
   * the edge supply density, as a function of (d, sigma).
   */
  datatype MathFns = MathFns(
    sin: real -> real,
    cos: real -> real,
    atan2: (real, real) -> real,
    gaussian: (real, real) -> real)
}
