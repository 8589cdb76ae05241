/**
 The per-event counts of selected particles and antiparticles that the event gate reads.
 A partition is a filter of the event's records; counting tallies the charge classes of
 the filtered records.
 */
module Counting {
  import opened FemtoTypes
  import opened Selection

  /** Per-event counts of one species: particles and antiparticles. */
  datatype Counts = Counts(matter: nat, antimatter: nat)

  /** The records of `ps` that `keep` accepts, in order. */
  function Filter(ps: seq<Particle>, keep: Particle -> bool): (r: seq<Particle>)
    ensures |r| <= |ps|
    ensures forall p :: p in r <==> p in ps && keep(p)
  {
    if |ps| == 0 then []
    else (if keep(ps[0]) then [ps[0]] else []) + Filter(ps[1..], keep)
  }

  /** The charge class of each record of `ps`. */
  function Classify(ps: seq<Particle>, f: Particle -> ChargeClass): (cs: seq<ChargeClass>)
    ensures |cs| == |ps|
    ensures forall i :: 0 <= i < |ps| ==> cs[i] == f(ps[i])
  {
    seq(|ps|, i requires 0 <= i < |ps| => f(ps[i]))
  }

  /** Counting loop over classified records: each particle bumps one counter, each
      antiparticle the other, and an unclassified record neither. */
  function Tally(cs: seq<ChargeClass>): (n: Counts)
    ensures n.matter == multiset(cs)[Matter]
    ensures n.antimatter == multiset(cs)[Antimatter]
  {
    if |cs| == 0 then Counts(0, 0)
    else
      var init := cs[..|cs| - 1];
      assert cs == init + [cs[|cs| - 1]];
      var n := Tally(init);
      match cs[|cs| - 1]
      case Matter => Counts(n.matter + 1, n.antimatter)
      case Antimatter => Counts(n.matter, n.antimatter + 1)
      case Unmatched => n
  }

  /** The partitions and classifiers, as values. */
  function TrackFilter(t: TrackSelection): Particle -> bool {
    p => IsSelectedTrack(t, p)
  }

  function TrackClassifier(t: TrackSelection): Particle -> ChargeClass {
    p => TrackClassCascadePath(t, p)
  }

  function CascadeClassifier(c: CascadeSelection): Particle -> ChargeClass {
    p => CascadeClass(c, p)
  }

  function HasClass(f: Particle -> ChargeClass, c: ChargeClass): Particle -> bool {
    p => f(p) == c
  }

  predicate HasAntiBit(p: Particle) {
    p.cut & 1 != 0
  }

  /** Track counts of the V0 path. */
  function TrackCountsV0Path(t: TrackSelection, ps: seq<Particle>): Counts {
    Tally(Classify(Filter(ps, TrackFilter(t)), TrackClassV0Path))
  }

  /** V0 counts of the V0 path. */
  function V0Counts(ps: seq<Particle>): Counts {
    Tally(Classify(Filter(ps, IsSelectedV0), V0Class))
  }

  /** Track counts of the cascade path. */
  function TrackCountsCascadePath(t: TrackSelection, ps: seq<Particle>): Counts {
    Tally(Classify(Filter(ps, TrackFilter(t)), TrackClassifier(t)))
  }

  /** Cascade counts of the cascade path. */
  function CascadeCounts(c: CascadeSelection, ps: seq<Particle>): Counts {
    Tally(Classify(Filter(ps, IsSelectedCascade), CascadeClassifier(c)))
  }

  /** Every classified record is counted once: the two counters and the unclassified
      records together account for every record. */
  lemma {:induction false} TallyTotal(cs: seq<ChargeClass>)
    ensures Tally(cs).matter + Tally(cs).antimatter + multiset(cs)[Unmatched] == |cs|
  {
    if |cs| > 0 {
      var init := cs[..|cs| - 1];
      assert cs == init + [cs[|cs| - 1]];
      TallyTotal(init);
    }
  }

  /** One more record adds at most one to the combined count, and exactly one unless it
      is unclassified. */
  lemma TallyAppend(cs: seq<ChargeClass>, c: ChargeClass)
    ensures Tally(cs + [c]).matter + Tally(cs + [c]).antimatter
         == Tally(cs).matter + Tally(cs).antimatter + (if c == Unmatched then 0 else 1)
  {
  }

  /** Filters that agree on every record select the same records. */
  lemma {:induction false} FilterExtensional(ps: seq<Particle>, f: Particle -> bool, g: Particle -> bool)
    requires forall p :: f(p) == g(p)
    ensures Filter(ps, f) == Filter(ps, g)
  {
    if |ps| > 0 {
      FilterExtensional(ps[1..], f, g);
    }
  }

  /** The number of records classified as `c` is the number of records a filter on
      class `c` keeps. */
  lemma {:induction false} ClassCountIsFilterLength(ps: seq<Particle>, f: Particle -> ChargeClass, c: ChargeClass)
    ensures multiset(Classify(ps, f))[c] == |Filter(ps, HasClass(f, c))|
  {
    if |ps| > 0 {
      ClassCountIsFilterLength(ps[1..], f, c);
      assert Classify(ps, f) == [f(ps[0])] + Classify(ps[1..], f);
    }
  }

  /** V0 path: every selected track is counted exactly once, and as an antiparticle
      exactly when bit 0 of its selection mask is set. */
  lemma V0PathCountsEveryTrack(t: TrackSelection, ps: seq<Particle>)
    ensures var n := TrackCountsV0Path(t, ps);
            var selected := Filter(ps, TrackFilter(t));
            && n.matter + n.antimatter == |selected|
            && n.antimatter == |Filter(selected, HasAntiBit)|
            && n.matter == |selected| - |Filter(selected, HasAntiBit)|
  {
    var selected := Filter(ps, TrackFilter(t));
    var cs := Classify(selected, TrackClassV0Path);
    TallyTotal(cs);
    ClassCountIsFilterLength(selected, TrackClassV0Path, Unmatched);
    ClassCountIsFilterLength(selected, TrackClassV0Path, Antimatter);
    forall p: Particle
      ensures HasClass(TrackClassV0Path, Antimatter)(p) == HasAntiBit(p)
    {
      V0PathTrackClassIsBitZero(p);
    }
    FilterExtensional(selected, HasClass(TrackClassV0Path, Antimatter), HasAntiBit);
    var none := Filter(selected, HasClass(TrackClassV0Path, Unmatched));
    if |none| > 0 {
      assert none[0] in none;
      V0PathTrackClassIsBitZero(none[0]);
      assert false;
    }
  }

  /** Tracks containing neither track mask, and tracks containing the antiparticle mask. */
  function MatchesNeitherMask(t: TrackSelection): Particle -> bool {
    (p: Particle) => !Contains(p.cut, t.cutBit) && !Contains(p.cut, t.cutBitAnti)
  }

  function ContainsAntiMask(t: TrackSelection): Particle -> bool {
    (p: Particle) => Contains(p.cut, t.cutBitAnti)
  }

  /** Cascade path: a selected track is counted unless it contains neither mask, so the
      counts fall short of the selection by exactly the tracks matching neither; the
      antiparticles are exactly the tracks containing the antiparticle mask. */
  lemma CascadePathSkipsUnmatchedTracks(t: TrackSelection, ps: seq<Particle>)
    ensures var n := TrackCountsCascadePath(t, ps);
            var selected := Filter(ps, TrackFilter(t));
            && n.matter + n.antimatter + |Filter(selected, MatchesNeitherMask(t))| == |selected|
            && n.antimatter == |Filter(selected, ContainsAntiMask(t))|
  {
    var selected := Filter(ps, TrackFilter(t));
    var cs := Classify(selected, TrackClassifier(t));
    TallyTotal(cs);
    ClassCountIsFilterLength(selected, TrackClassifier(t), Unmatched);
    ClassCountIsFilterLength(selected, TrackClassifier(t), Antimatter);
    forall p: Particle
      ensures HasClass(TrackClassifier(t), Unmatched)(p) == MatchesNeitherMask(t)(p)
      ensures HasClass(TrackClassifier(t), Antimatter)(p) == ContainsAntiMask(t)(p)
    {
      AntiMaskTakesPrecedence(p.cut, t.cutBit, t.cutBitAnti);
    }
    FilterExtensional(selected, HasClass(TrackClassifier(t), Unmatched), MatchesNeitherMask(t));
    FilterExtensional(selected, HasClass(TrackClassifier(t), Antimatter), ContainsAntiMask(t));
  }

  /** A V0 adds at most one to the combined V0 count. */
  lemma V0CountsBoundedBySelection(ps: seq<Particle>)
    ensures V0Counts(ps).matter + V0Counts(ps).antimatter <= |Filter(ps, IsSelectedV0)|
  {
    TallyTotal(Classify(Filter(ps, IsSelectedV0), V0Class));
  }

  /** A cascade adds at most one to the combined cascade count. */
  lemma CascadeCountsBoundedBySelection(c: CascadeSelection, ps: seq<Particle>)
    ensures CascadeCounts(c, ps).matter + CascadeCounts(c, ps).antimatter <= |Filter(ps, IsSelectedCascade)|
  {
    TallyTotal(Classify(Filter(ps, IsSelectedCascade), CascadeClassifier(c)));
  }
}
