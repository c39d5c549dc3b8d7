/**
 * Ghost-cell padding of the centred fields. The upwind and difference
 * stencils need one extra value below the bottom cell (the ocean) and one
 * above the top cell (the atmosphere); each field gets its own boundary
 * values.
 */
module BoundaryConditions {
  import opened Numerics
  import opened Grids
  import opened Params

  /** Dissolved gas: far-field saturation in the ocean, saturated (1) at the top. */
  function DissolvedGasBCs(centers: seq<real>, cfg: Config): (r: seq<real>)
    ensures |r| == |centers| + 2 && Interior(r) == centers
    ensures r[0] == cfg.boundary.farGasSat && r[|r| - 1] == 1.0
  {
    AddGhostCells(centers, cfg.boundary.farGasSat, 1.0)
  }

  /** Gas fraction: no bubbles enter through either boundary. */
  function GasFractionBCs(centers: seq<real>, cfg: Config): (r: seq<real>)
    ensures |r| == |centers| + 2 && Interior(r) == centers
    ensures r[0] == 0.0 && r[|r| - 1] == 0.0
  {
    AddGhostCells(centers, 0.0, 0.0)
  }

  /** Bulk gas: dissolved at the far-field saturation below, saturated liquid above. */
  function GasBCs(centers: seq<real>, cfg: Config): (r: seq<real>)
    ensures |r| == |centers| + 2 && Interior(r) == centers
    ensures r[0] == cfg.physical.expansionCoefficient * cfg.boundary.farGasSat
    ensures r[|r| - 1] == cfg.physical.expansionCoefficient
  {
    var chi := cfg.physical.expansionCoefficient;
    AddGhostCells(centers, chi * cfg.boundary.farGasSat, chi)
  }

  /**
   * A padding whose top ghost repeats the topmost centre has zero gradient
   * at the top edge: the forward difference across the top edge vanishes.
   */
  predicate NoFluxAtTop(r: seq<real>) {
    2 <= |r| && r[|r| - 1] - r[|r| - 2] == 0.0
  }

  predicate NoFluxAtBottom(r: seq<real>) {
    2 <= |r| && r[1] - r[0] == 0.0
  }

  /** Liquid salinity: far-field bulk salinity below, zero gradient at the top. */
  function LiquidSalinityBCs(centers: seq<real>, cfg: Config): (r: seq<real>)
    requires 1 <= |centers|
    ensures |r| == |centers| + 2 && Interior(r) == centers
    ensures r[0] == cfg.boundary.farBulkSalinity && NoFluxAtTop(r)
  {
    AddGhostCells(centers, cfg.boundary.farBulkSalinity, centers[|centers| - 1])
  }

  /**
   * Temperature: both ghosts are forced. The bottom and top temperatures at
   * `time` are supplied by the forcing, which is a parameter here.
   */
  function TemperatureBCs(centers: seq<real>, time: real, bottomForcing: real -> real,
                          topForcing: real -> real): (r: seq<real>)
    ensures |r| == |centers| + 2 && Interior(r) == centers
    ensures r[0] == bottomForcing(time) && r[|r| - 1] == topForcing(time)
  {
    AddGhostCells(centers, bottomForcing(time), topForcing(time))
  }

  /** Enthalpy: the far-field temperature (the liquid's enthalpy) below, zero gradient at the top. */
  function EnthalpyBCs(centers: seq<real>, cfg: Config): (r: seq<real>)
    requires 1 <= |centers|
    ensures |r| == |centers| + 2 && Interior(r) == centers
    ensures r[0] == cfg.boundary.farTemp && NoFluxAtTop(r)
  {
    AddGhostCells(centers, cfg.boundary.farTemp, centers[|centers| - 1])
  }

  /** Bulk salinity: far-field bulk salinity below, zero gradient at the top. */
  function SaltBCs(centers: seq<real>, cfg: Config): (r: seq<real>)
    requires 1 <= |centers|
    ensures |r| == |centers| + 2 && Interior(r) == centers
    ensures r[0] == cfg.boundary.farBulkSalinity && NoFluxAtTop(r)
  {
    AddGhostCells(centers, cfg.boundary.farBulkSalinity, centers[|centers| - 1])
  }

  /** Liquid fraction: zero gradient at both boundaries. */
  function LiquidFractionBCs(centers: seq<real>, cfg: Config): (r: seq<real>)
    requires 1 <= |centers|
    ensures |r| == |centers| + 2 && Interior(r) == centers
    ensures NoFluxAtBottom(r) && NoFluxAtTop(r)
  {
    AddGhostCells(centers, centers[0], centers[|centers| - 1])
  }

  /** Pressure: zero in the ocean, zero gradient at the top so the liquid does not flow out. */
  function PressureBCs(centers: seq<real>, cfg: Config): (r: seq<real>)
    requires 1 <= |centers|
    ensures |r| == |centers| + 2 && Interior(r) == centers
    ensures r[0] == 0.0 && NoFluxAtTop(r)
  {
    AddGhostCells(centers, 0.0, centers[|centers| - 1])
  }
}
