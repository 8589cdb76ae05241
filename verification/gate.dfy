/**
 The event gate: an event is kept when the particle hypothesis meets both multiplicity
 floors, or the antiparticle hypothesis does. The two hypotheses are never summed.
 */
module Gate {
  import opened Counting

  /** The gate on track counts and partner (V0 or cascade) counts. */
  predicate Accepts(tracks: Counts, partners: Counts, minTracks: int, minPartners: int) {
    || (partners.matter >= minPartners && tracks.matter >= minTracks)
    || (partners.antimatter >= minPartners && tracks.antimatter >= minTracks)
  }

  /** Counts with the roles of particle and antiparticle exchanged. */
  function Conjugate(n: Counts): Counts {
    Counts(n.antimatter, n.matter)
  }

  /** Three tracks and two anti-V0s against floors of three and two: each species passes
      its floor when both charges are summed, yet neither hypothesis alone meets both
      floors, so the event is rejected. */
  lemma MixedHypothesesAreRejected()
    ensures var tracks := Counts(3, 0);
            var v0s := Counts(0, 2);
            && tracks.matter + tracks.antimatter >= 3
            && v0s.matter + v0s.antimatter >= 2
            && !Accepts(tracks, v0s, 3, 2)
  {
  }

  /** The gate is the same under charge conjugation of both species. */
  lemma AcceptsIsChargeSymmetric(tracks: Counts, partners: Counts, minTracks: int, minPartners: int)
    ensures Accepts(Conjugate(tracks), Conjugate(partners), minTracks, minPartners)
        <==> Accepts(tracks, partners, minTracks, minPartners)
  {
  }

  /** More particles of either kind never turn an accepted event into a rejected one. */
  lemma AcceptsIsMonotone(tracks: Counts, partners: Counts, more: Counts, morePartners: Counts,
                          minTracks: int, minPartners: int)
    requires tracks.matter <= more.matter && tracks.antimatter <= more.antimatter
    requires partners.matter <= morePartners.matter && partners.antimatter <= morePartners.antimatter
    requires Accepts(tracks, partners, minTracks, minPartners)
    ensures Accepts(more, morePartners, minTracks, minPartners)
  {
  }

  /** Acceptance implies, per hypothesis, both floors; rejection means each hypothesis
      misses at least one floor. */
  lemma AcceptsIsOrOfAnds(tracks: Counts, partners: Counts, minTracks: int, minPartners: int)
    ensures Accepts(tracks, partners, minTracks, minPartners) ==>
              (tracks.matter >= minTracks || tracks.antimatter >= minTracks)
              && (partners.matter >= minPartners || partners.antimatter >= minPartners)
    ensures !Accepts(tracks, partners, minTracks, minPartners) <==>
              (tracks.matter < minTracks || partners.matter < minPartners)
              && (tracks.antimatter < minTracks || partners.antimatter < minPartners)
  {
  }

  /** With a partner floor of zero (the shipped value for V0s and cascades) the gate
      reduces to one track floor met by either charge alone. */
  lemma ZeroPartnerFloorLeavesTrackFloor(tracks: Counts, partners: Counts, minTracks: int)
    ensures Accepts(tracks, partners, minTracks, 0)
        <==> tracks.matter >= minTracks || tracks.antimatter >= minTracks
  {
  }
}
