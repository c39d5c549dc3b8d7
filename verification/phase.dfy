/**
 * Phase classification shared by the reduced and the full enthalpy methods.
 *
 * Both methods compare the enthalpy of a cell with three boundary values
 * (liquidus, eutectic, solidus) to build four masks, then write each derived
 * quantity into an array one mask at a time in the order liquid, mush,
 * eutectic, solid. Where two masks overlap the later write survives, so a
 * cell's effective region is the LAST mask that holds for it.
 */
module Phase {

  /** The non-dimensional material numbers the phase boundaries depend on. */
  datatype PhaseParams = PhaseParams(
    chi: real,  // expansion coefficient: saturation gas content of the liquid
    C: real,    // concentration ratio
    St: real)   // Stefan number

  datatype Region = Liquid | Mush | Eutectic | Solid

  /** The four thermal masks of one cell. */
  datatype CellMasks = CellMasks(liquid: bool, mush: bool, eutectic: bool, solid: bool)

  /** The masks the source computes from the three boundary values. */
  function ThermalMasks(h: real, liquidus: real, eutectic: real, solidus: real): CellMasks {
    CellMasks(h >= liquidus, eutectic <= h && h < liquidus, solidus <= h && h < eutectic, h < solidus)
  }

  predicate Holds(m: CellMasks, r: Region) {
    match r
    case Liquid => m.liquid
    case Mush => m.mush
    case Eutectic => m.eutectic
    case Solid => m.solid
  }

  /** No mask written after region `r`'s mask holds, so `r`'s value is the one left. */
  predicate NoLaterMask(m: CellMasks, r: Region) {
    match r
    case Liquid => !m.mush && !m.eutectic && !m.solid
    case Mush => !m.eutectic && !m.solid
    case Eutectic => !m.solid
    case Solid => true
  }

  /**
   * The region whose value survives the masked writes. Every cell gets one:
   * the masks cover all reals whatever the order of the boundaries.
   */
  function Classify(h: real, liquidus: real, eutectic: real, solidus: real): (r: Region)
    ensures Holds(ThermalMasks(h, liquidus, eutectic, solidus), r)
    ensures NoLaterMask(ThermalMasks(h, liquidus, eutectic, solidus), r)
  {
    if h < solidus then Solid
    else if h < eutectic then Eutectic
    else if h < liquidus then Mush
    else Liquid
  }

  /**
   * With ordered boundaries the masks partition the enthalpy axis: a mask
   * holds exactly for the region the cell is classified into.
   */
  lemma OrderedMasksPartition(h: real, liquidus: real, eutectic: real, solidus: real, r: Region)
    requires solidus <= eutectic <= liquidus
    ensures Holds(ThermalMasks(h, liquidus, eutectic, solidus), r) <==> r == Classify(h, liquidus, eutectic, solidus)
  {
  }

  /** Out of order boundaries can make two masks hold at once (solidus above eutectic). */
  lemma UnorderedMasksOverlap()
    ensures ThermalMasks(0.0, 2.0, -1.0, 1.0).mush && ThermalMasks(0.0, 2.0, -1.0, 1.0).solid
    ensures Classify(0.0, 2.0, -1.0, 1.0) == Solid
  {
  }
}
