/**
 Which records the task selects, and how a selected record is classified as particle or
 antiparticle in each of the two processing paths.
 */
module Selection {
  import opened FemtoTypes

  /** The charge class a selected record is counted under. */
  datatype ChargeClass = Matter | Antimatter | Unmatched

  /** The bitmask part of the track partition: below the PID momentum threshold the TPC
      bit is required and no reject bit may be set; above it the TPC+TOF bit is required. */
  predicate PidAccepts(t: TrackSelection, pidcut: Mask, belowThreshold: bool) {
    if belowThreshold then Contains(pidcut, t.tpcBit) && pidcut & t.tpcBitReject == 0
    else Contains(pidcut, t.tpcTofBit)
  }

  /** The track partition: a track whose PID mask passes and whose kinematic windows pass. */
  predicate IsSelectedTrack(t: TrackSelection, p: Particle) {
    p.partType == Track && PidAccepts(t, p.pidcut, p.floats.belowPidThreshold) && p.floats.trackWindows
  }

  /** The V0 partition takes every V0 record. */
  predicate IsSelectedV0(p: Particle) {
    p.partType == V0
  }

  /** The cascade partition: a cascade whose kinematic and mass windows pass. */
  predicate IsSelectedCascade(p: Particle) {
    p.partType == Cascade && p.floats.cascadeWindows
  }

  /** Classification by mask containment with the antiparticle mask tested first; a value
      containing neither mask is not counted. Used for tracks and cascades in the cascade path. */
  function ClassByMasks(cut: Mask, matterMask: Mask, antiMask: Mask): ChargeClass {
    if Contains(cut, antiMask) then Antimatter
    else if Contains(cut, matterMask) then Matter
    else Unmatched
  }

  /** Track classification in the V0 path: bit 0 of the selection mask marks an antiparticle. */
  function TrackClassV0Path(p: Particle): ChargeClass {
    if p.cut & 1 != 0 then Antimatter else Matter
  }

  /** Track classification in the cascade path. */
  function TrackClassCascadePath(t: TrackSelection, p: Particle): ChargeClass {
    ClassByMasks(p.cut, t.cutBit, t.cutBitAnti)
  }

  /** V0 classification: the particle mass window is tested first. */
  function V0Class(p: Particle): ChargeClass {
    if p.floats.inLambdaWindow then Matter
    else if p.floats.inAntiLambdaWindow then Antimatter
    else Unmatched
  }

  /** Cascade classification in the cascade path. */
  function CascadeClass(c: CascadeSelection, p: Particle): ChargeClass {
    ClassByMasks(p.cut, c.cutBit, c.cutBitAnti)
  }

  /** A zero reject mask turns the rejection off, as the configuration's documentation says. */
  lemma ZeroRejectMaskDisablesRejection(t: TrackSelection, pidcut: Mask)
    requires t.tpcBitReject == 0
    ensures PidAccepts(t, pidcut, true) <==> Contains(pidcut, t.tpcBit)
  {
  }

  /** Any reject bit present in the PID mask vetoes a low-momentum track, whatever its TPC bit;
      above the threshold the reject mask plays no part. */
  lemma RejectBitVetoesOnlyBelowThreshold(t: TrackSelection, pidcut: Mask)
    ensures pidcut & t.tpcBitReject != 0 ==> !PidAccepts(t, pidcut, true)
    ensures PidAccepts(t, pidcut, false) <==> Contains(pidcut, t.tpcTofBit)
  {
  }

  /** The V0 path never leaves a track unclassified, and calls it an antiparticle exactly
      when bit 0 of its selection mask is set. */
  lemma V0PathTrackClassIsBitZero(p: Particle)
    ensures TrackClassV0Path(p) != Unmatched
    ensures TrackClassV0Path(p) == Antimatter <==> p.cut & 1 == 1
  {
  }

  /** In mask classification the antiparticle mask wins when both masks are contained, and
      a value is left out exactly when it contains neither mask. */
  lemma AntiMaskTakesPrecedence(cut: Mask, matterMask: Mask, antiMask: Mask)
    ensures Contains(cut, antiMask) ==> ClassByMasks(cut, matterMask, antiMask) == Antimatter
    ensures ClassByMasks(cut, matterMask, antiMask) == Matter <==> !Contains(cut, antiMask) && Contains(cut, matterMask)
    ensures ClassByMasks(cut, matterMask, antiMask) == Unmatched <==> !Contains(cut, antiMask) && !Contains(cut, matterMask)
  {
  }

  /** The particle mass window wins when a V0 lies in both windows; a V0 in neither is not counted. */
  lemma ParticleWindowTakesPrecedence(p: Particle)
    ensures p.floats.inLambdaWindow ==> V0Class(p) == Matter
    ensures V0Class(p) == Antimatter <==> !p.floats.inLambdaWindow && p.floats.inAntiLambdaWindow
    ensures V0Class(p) == Unmatched <==> !p.floats.inLambdaWindow && !p.floats.inAntiLambdaWindow
  {
  }

  /** With the shipped track masks the antiparticle mask has bit 0 set, so a track the
      cascade path counts as an antiparticle is one the V0 path counts as an antiparticle too. */
  lemma DefaultAntiTrackAgreesAcrossPaths(p: Particle)
    ensures TrackClassCascadePath(DefaultConfig.track1, p) == Antimatter ==> TrackClassV0Path(p) == Antimatter
  {
  }

  /** With the shipped cascade masks the two hypotheses use the same mask, so every cascade
      containing it is counted as an antiparticle and none as a particle. */
  lemma DefaultCascadesAreCountedAsAnti(p: Particle)
    ensures CascadeClass(DefaultConfig.cascade2, p) != Matter
  {
  }
}
