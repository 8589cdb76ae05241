/**
 The data model of the femto producer-for-specific-analysis task: the particle records
 it reads, the collision and particle rows it writes, and the configuration it is run with.
 */
module FemtoTypes {

  /** The cut container: every selection bitmask, PID bitmask and configured mask is one
      32-bit unsigned value. */
  type Mask = bv32

  /** The particle-type tag stored with every record. The producer branches on `Track`,
      `V0`, `V0Child` and `Cascade`; the cascade daughters carry the remaining tags. */
  datatype PartType = Track | V0 | V0Child | Cascade | CascadeV0Child | CascadeBachelor

  /** Columns that are copied verbatim from an input record to its output row. */
  datatype Payload = Payload(pt: real, eta: real, phi: real, tempFitVar: real,
                             mLambda: real, mAntiLambda: real)

  /** Outcomes of the floating-point comparisons made on a record against the configuration.
      Their arithmetic is not modelled; only their verdicts flow into the selection. */
  datatype FloatCuts = FloatCuts(
    belowPidThreshold: bool,   // the combined momentum pt·cosh(eta) is at most the PID threshold
    trackWindows: bool,        // pt, eta and DCA (flat or pt-dependent) windows of the track species
    cascadeWindows: bool,      // pt, eta, cascade mass and daughter mass windows of the cascade species
    inLambdaWindow: bool,      // mLambda lies strictly inside the particle V0 mass window
    inAntiLambdaWindow: bool)  // mAntiLambda lies strictly inside the antiparticle V0 mass window

  /** One record of the input particle table. Its position in the table is its index. */
  datatype Particle = Particle(partType: PartType, cut: Mask, pidcut: Mask,
                               childrenIds: seq<int>, payload: Payload, floats: FloatCuts)

  /** Event-level columns, passed through to the output collision table. */
  datatype Collision = Collision(posZ: real, multV0M: real, multNtr: int,
                                 sphericity: real, magField: real)

  /** One row of the output particle table: the row index of its collision, the copied
      columns of the record it was made from, and rewritten child references. */
  datatype OutParticle = OutParticle(collisionRow: int, partType: PartType, cut: Mask,
                                     pidcut: Mask, childIds: seq<int>, payload: Payload)

  /** The two output tables, which keep growing across events. */
  datatype Tables = Tables(collisions: seq<Collision>, parts: seq<OutParticle>)

  /** One event: its collision columns and the slice [lo, hi) of the particle table that
      holds its records. */
  datatype Event = Event(collision: Collision, lo: nat, hi: nat)

  /** Masks of the track species ("Track1"). */
  datatype TrackSelection = TrackSelection(cutBit: Mask, cutBitAnti: Mask, tpcBit: Mask,
                                           tpcBitReject: Mask, tpcTofBit: Mask)

  /** Required selection and PID masks of the three cascade daughters under one hypothesis. */
  datatype ChildMasks = ChildMasks(posCut: Mask, posTpc: Mask, negCut: Mask, negTpc: Mask,
                                   bachCut: Mask, bachTpc: Mask)

  /** Masks and switches of the cascade species ("Cascade2"). */
  datatype CascadeSelection = CascadeSelection(cutBit: Mask, cutBitAnti: Mask,
                                               particleChildren: ChildMasks,
                                               antiChildren: ChildMasks,
                                               useChildCuts: bool, useChildPidCuts: bool)

  /** The task's configuration: multiplicity floors and the two species' masks. */
  datatype Config = Config(numberOfTracks: int, numberOfV0: int, numberOfCascades: int,
                           track1: TrackSelection, cascade2: CascadeSelection)

  /** The configuration the task ships with. */
  const DefaultChildMasks := ChildMasks(278, 1024, 277, 4096, 277, 64)
  const DefaultConfig := Config(
    3, 0, 0,
    TrackSelection(5542474, 5542473, 4, 0, 2),
    CascadeSelection(32221874, 32221874, DefaultChildMasks, DefaultChildMasks, true, true))

  /** Mask containment: every bit of `mask` is set in `value`. */
  predicate Contains(value: Mask, mask: Mask) {
    value & mask == mask
  }

  /** The row written for record `p` in the collision at row `colRow`, with child references `childIds`. */
  function Emit(colRow: int, p: Particle, childIds: seq<int>): OutParticle {
    OutParticle(colRow, p.partType, p.cut, p.pidcut, childIds, p.payload)
  }

  /** Row `row` copies record `p`'s tag, masks and kinematics and belongs to collision row `colRow`. */
  predicate Copies(row: OutParticle, colRow: int, p: Particle) {
    && row.collisionRow == colRow
    && row.partType == p.partType
    && row.cut == p.cut
    && row.pidcut == p.pidcut
    && row.payload == p.payload
  }
}
