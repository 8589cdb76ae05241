/**
 The per-event entry points of the task: count the selected particles, apply the event gate,
 and on acceptance write one collision row and run the compaction pass of the path. Events
 are processed one after another into the same two output tables.
 */
module Producer {
  import opened FemtoTypes
  import opened Selection
  import opened Counting
  import opened Gate
  import V0Compaction
  import CascadeCompaction

  /** The event's records lie inside the particle table. */
  predicate InTable(table: seq<Particle>, ev: Event) {
    ev.lo <= ev.hi <= |table|
  }

  /** The event's records: the collision's group, in stored order. Record indices and
      the cascade daughters' offsets are positions in this group. */
  function Parts(table: seq<Particle>, ev: Event): (ps: seq<Particle>)
    requires InTable(table, ev)
    ensures |ps| == ev.hi - ev.lo
  {
    table[ev.lo..ev.hi]
  }

  /** Every particle row references an existing collision row, and the references never
      decrease: the rows of each collision follow its collision row's predecessors' rows. */
  predicate Consistent(t: Tables) {
    && (forall r :: 0 <= r < |t.parts| ==> 0 <= t.parts[r].collisionRow < |t.collisions|)
    && (forall r, r' :: 0 <= r < r' < |t.parts| ==> t.parts[r].collisionRow <= t.parts[r'].collisionRow)
  }

  // ---------------------------------------------------------------------------------------
  // Track + V0 path

  /** The gate of the track + V0 path on the event's records. */
  predicate AcceptsV0Event(cfg: Config, table: seq<Particle>, ev: Event)
    requires InTable(table, ev)
  {
    var ps := Parts(table, ev);
    Accepts(TrackCountsV0Path(cfg.track1, ps), V0Counts(ps), cfg.numberOfTracks, cfg.numberOfV0)
  }

  /** The event lies in the table, and when the gate accepts it, its records carry the
      reference slots the pass reads. A rejected event's records are never read. */
  predicate ReadableV0Event(cfg: Config, table: seq<Particle>, ev: Event) {
    && InTable(table, ev)
    && (AcceptsV0Event(cfg, table, ev) ==> V0Compaction.RangeReadable(Parts(table, ev), 0, ev.hi - ev.lo))
  }

  /** One event of the track + V0 path. A rejected event writes nothing; an accepted one
      writes its collision row, then one particle row per track, V0 daughter and V0, all
      pointing at that collision row, behind the rows already written. */
  function ProcessEventV0(cfg: Config, table: seq<Particle>, ev: Event, t: Tables): (t': Tables)
    requires ReadableV0Event(cfg, table, ev)
    ensures !AcceptsV0Event(cfg, table, ev) ==> t' == t
    ensures AcceptsV0Event(cfg, table, ev) ==>
              && t'.collisions == t.collisions + [ev.collision]
              && |t'.parts| == |t.parts| + V0Compaction.WrittenCount(Parts(table, ev), 0, ev.hi - ev.lo)
              && t'.parts[..|t.parts|] == t.parts
              && (forall r :: |t.parts| <= r < |t'.parts| ==> t'.parts[r].collisionRow == |t.collisions|)
  {
    if !AcceptsV0Event(cfg, table, ev) then t
    else
      var colRow := |t.collisions|;
      var ps := Parts(table, ev);
      V0Compaction.ScanShape(ps, colRow, 0, |ps|, V0Compaction.Scan(t.parts, []));
      Tables(t.collisions + [ev.collision], V0Compaction.ScanEvent(ps, colRow, t.parts).rows)
  }

  predicate ReadableV0Events(cfg: Config, table: seq<Particle>, events: seq<Event>) {
    forall k :: 0 <= k < |events| ==> ReadableV0Event(cfg, table, events[k])
  }

  /** The track + V0 path over a sequence of events. */
  function ProcessEventsV0(cfg: Config, table: seq<Particle>, events: seq<Event>, t: Tables): Tables
    requires ReadableV0Events(cfg, table, events)
    decreases |events|
  {
    if |events| == 0 then t
    else ProcessEventsV0(cfg, table, events[1..], ProcessEventV0(cfg, table, events[0], t))
  }

  /** The number of events the track + V0 gate accepts. */
  function AcceptedV0(cfg: Config, table: seq<Particle>, events: seq<Event>): nat
    requires ReadableV0Events(cfg, table, events)
    decreases |events|
  {
    if |events| == 0 then 0
    else (if AcceptsV0Event(cfg, table, events[0]) then 1 else 0) + AcceptedV0(cfg, table, events[1..])
  }

  /** Writing one event keeps the tables consistent: the new collision row is the largest
      and every new particle row points at it. */
  lemma AppendEventKeepsConsistent(t: Tables, t': Tables, col: Collision)
    requires Consistent(t)
    requires t'.collisions == t.collisions + [col]
    requires |t.parts| <= |t'.parts| && t'.parts[..|t.parts|] == t.parts
    requires forall r :: |t.parts| <= r < |t'.parts| ==> t'.parts[r].collisionRow == |t.collisions|
    ensures Consistent(t')
  {
    forall r | 0 <= r < |t.parts|
      ensures t'.parts[r] == t.parts[r]
    {
      assert t'.parts[r] == t'.parts[..|t.parts|][r];
    }
  }

  /** One event of the track + V0 path keeps the tables consistent, adds one collision row
      exactly when it is accepted, and never changes a written row. */
  lemma EventV0KeepsConsistent(cfg: Config, table: seq<Particle>, ev: Event, t: Tables)
    requires ReadableV0Event(cfg, table, ev)
    requires Consistent(t)
    ensures var t' := ProcessEventV0(cfg, table, ev, t);
            && Consistent(t')
            && |t'.collisions| == |t.collisions| + (if AcceptsV0Event(cfg, table, ev) then 1 else 0)
            && t'.collisions[..|t.collisions|] == t.collisions
            && |t.parts| <= |t'.parts| && t'.parts[..|t.parts|] == t.parts
  {
    var t' := ProcessEventV0(cfg, table, ev, t);
    if AcceptsV0Event(cfg, table, ev) {
      AppendEventKeepsConsistent(t, t', ev.collision);
      assert t'.collisions[..|t.collisions|] == t.collisions;
    }
  }

  /** The V0-path gate stated on the event's records: with `sel` the selected tracks and
      `anti` those of them with bit 0 set, the event is kept iff enough V0s lie in the
      particle window and enough tracks lack bit 0, or enough V0s lie only in the
      antiparticle window and enough tracks have it. */
  lemma V0GateOnRecords(cfg: Config, table: seq<Particle>, ev: Event)
    requires InTable(table, ev)
    ensures var ps := Parts(table, ev);
            var sel := Filter(ps, TrackFilter(cfg.track1));
            var anti := |Filter(sel, HasAntiBit)|;
            var v0s := Filter(ps, IsSelectedV0);
            var lambdas := |Filter(v0s, HasClass(V0Class, Matter))|;
            var antiLambdas := |Filter(v0s, HasClass(V0Class, Antimatter))|;
            AcceptsV0Event(cfg, table, ev) <==>
              || (lambdas >= cfg.numberOfV0 && |sel| - anti >= cfg.numberOfTracks)
              || (antiLambdas >= cfg.numberOfV0 && anti >= cfg.numberOfTracks)
  {
    var ps := Parts(table, ev);
    V0PathCountsEveryTrack(cfg.track1, ps);
    var v0s := Filter(ps, IsSelectedV0);
    ClassCountIsFilterLength(v0s, V0Class, Matter);
    ClassCountIsFilterLength(v0s, V0Class, Antimatter);
  }

  /** A rejected event is never read: an event whose only record is a V0 daughter without
      any child reference, under a track floor of one, leaves both tables as they were. */
  lemma RejectedEventIsNotRead(daughter: Particle, col: Collision, cfg: Config, t: Tables)
    requires daughter.partType == V0Child && daughter.childrenIds == []
    requires cfg.numberOfTracks == 1
    ensures ReadableV0Event(cfg, [daughter], Event(col, 0, 1))
    ensures ProcessEventV0(cfg, [daughter], Event(col, 0, 1), t) == t
  {
    var ps := Parts([daughter], Event(col, 0, 1));
    assert ps == [daughter];
    assert ps[1..] == [];
    assert Filter(ps, TrackFilter(cfg.track1)) == [];
    assert TrackCountsV0Path(cfg.track1, ps) == Counts(0, 0);
  }

  /** Across events the track + V0 path keeps the tables consistent, writes exactly one
      collision row per accepted event and never changes a row once written. */
  lemma {:induction false} ProcessEventsV0Consistent(cfg: Config, table: seq<Particle>, events: seq<Event>, t: Tables)
    requires ReadableV0Events(cfg, table, events)
    requires Consistent(t)
    ensures var t' := ProcessEventsV0(cfg, table, events, t);
            && Consistent(t')
            && |t'.collisions| == |t.collisions| + AcceptedV0(cfg, table, events)
            && t'.collisions[..|t.collisions|] == t.collisions
            && |t.parts| <= |t'.parts| && t'.parts[..|t.parts|] == t.parts
    decreases |events|
  {
    if |events| > 0 {
      var t1 := ProcessEventV0(cfg, table, events[0], t);
      EventV0KeepsConsistent(cfg, table, events[0], t);
      assert ReadableV0Events(cfg, table, events[1..]);
      ProcessEventsV0Consistent(cfg, table, events[1..], t1);
      var t' := ProcessEventsV0(cfg, table, events[1..], t1);
      assert ProcessEventsV0(cfg, table, events, t) == t';
      assert AcceptedV0(cfg, table, events)
          == (if AcceptsV0Event(cfg, table, events[0]) then 1 else 0) + AcceptedV0(cfg, table, events[1..]);
      assert t'.collisions[..|t.collisions|] == t'.collisions[..|t1.collisions|][..|t.collisions|];
      assert t'.parts[..|t.parts|] == t'.parts[..|t1.parts|][..|t.parts|];
    }
  }

  /** The event of `SingleV0EventExample` passes the gate: its V0 lies in the particle
      mass window and the floors ask for no track and at most one V0. */
  lemma SingleV0EventAccepted(daughter: Particle, v0: Particle, col: Collision, cfg: Config)
    requires daughter.partType == V0Child
    requires v0.partType == V0 && v0.floats.inLambdaWindow
    requires cfg.numberOfTracks <= 0 && cfg.numberOfV0 <= 1
    ensures var table := [daughter, daughter, v0];
            InTable(table, Event(col, 0, 3)) && AcceptsV0Event(cfg, table, Event(col, 0, 3))
  {
    var table := [daughter, daughter, v0];
    var ps := Parts(table, Event(col, 0, 3));
    assert ps == table;
    assert [v0][1..] == [];
    assert Filter([v0], IsSelectedV0) == [v0];
    assert [daughter, v0][1..] == [v0];
    assert Filter([daughter, v0], IsSelectedV0) == [v0];
    assert ps[1..] == [daughter, v0];
    assert Filter(ps, IsSelectedV0) == [v0];
    assert Classify([v0], V0Class) == [Matter];
    assert V0Counts(ps).matter == 1;
  }

  /** The rows the V0 pass writes for the records of `SingleV0EventExample`. */
  lemma SingleV0EventRows(daughter: Particle, v0: Particle)
    requires daughter.partType == V0Child && |daughter.childrenIds| == 2
    requires v0.partType == V0
    ensures var rows := V0Compaction.ScanEvent([daughter, daughter, v0], 0, []).rows;
            |rows| == 3 && rows[2].childIds == [0, 1]
  {
    var ps := [daughter, daughter, v0];
    var s0 := V0Compaction.Scan([], []);
    var s1 := V0Compaction.Step(daughter, 0, 0, s0);
    var s2 := V0Compaction.Step(daughter, 1, 0, s1);
    var s3 := V0Compaction.Step(v0, 2, 0, s2);
    assert |s2.rows| == 2;
    assert V0Compaction.ScanRange(ps, 0, 3, 3, s3) == s3;
    assert V0Compaction.ScanRange(ps, 0, 2, 3, s2) == s3;
    assert V0Compaction.ScanRange(ps, 0, 1, 3, s1) == s3;
  }

  /** A small compaction example: an event holding two V0 daughters at positions
      0 and 1 and their V0 at position 2, written into empty tables, gets exactly three rows,
      and the V0's row references rows 0 and 1. */
  lemma SingleV0EventExample(daughter: Particle, v0: Particle, col: Collision, cfg: Config)
    requires daughter.partType == V0Child && |daughter.childrenIds| == 2
    requires v0.partType == V0 && v0.floats.inLambdaWindow
    requires cfg.numberOfTracks <= 0 && cfg.numberOfV0 <= 1
    ensures var table := [daughter, daughter, v0];
            var t' := ProcessEventV0(cfg, table, Event(col, 0, 3), Tables([], []));
            && t'.collisions == [col]
            && |t'.parts| == 3
            && t'.parts[2].childIds == [0, 1]
  {
    var table := [daughter, daughter, v0];
    var ev := Event(col, 0, 3);
    SingleV0EventAccepted(daughter, v0, col, cfg);
    SingleV0EventRows(daughter, v0);
    assert Parts(table, ev) == table;
  }

  // ---------------------------------------------------------------------------------------
  // Track + cascade path

  /** The gate of the track + cascade path on the event's records. */
  predicate AcceptsCascadeEvent(cfg: Config, table: seq<Particle>, ev: Event)
    requires InTable(table, ev)
  {
    var ps := Parts(table, ev);
    Accepts(TrackCountsCascadePath(cfg.track1, ps), CascadeCounts(cfg.cascade2, ps),
            cfg.numberOfTracks, cfg.numberOfCascades)
  }

  /** The event lies in the table, and when the gate accepts it, its cascades have their
      daughters inside the event. A rejected event's records are never read. */
  predicate ReadableCascadeEvent(cfg: Config, table: seq<Particle>, ev: Event) {
    && InTable(table, ev)
    && (AcceptsCascadeEvent(cfg, table, ev) ==>
          CascadeCompaction.RangeReadable(cfg.cascade2, Parts(table, ev), 0, ev.hi - ev.lo))
  }

  /** One event of the track + cascade path. A rejected event writes nothing; an accepted
      one writes its collision row, then one row per track and four per kept cascade, all
      pointing at that collision row, behind the rows already written. */
  function ProcessEventCascade(cfg: Config, table: seq<Particle>, ev: Event, t: Tables): (t': Tables)
    requires ReadableCascadeEvent(cfg, table, ev)
    ensures !AcceptsCascadeEvent(cfg, table, ev) ==> t' == t
    ensures AcceptsCascadeEvent(cfg, table, ev) ==>
              && t'.collisions == t.collisions + [ev.collision]
              && |t'.parts| == |t.parts| + CascadeCompaction.RowsWritten(cfg.cascade2, Parts(table, ev), 0, ev.hi - ev.lo)
              && t'.parts[..|t.parts|] == t.parts
              && (forall r :: |t.parts| <= r < |t'.parts| ==> t'.parts[r].collisionRow == |t.collisions|)
  {
    if !AcceptsCascadeEvent(cfg, table, ev) then t
    else
      var colRow := |t.collisions|;
      var ps := Parts(table, ev);
      CascadeCompaction.ScanShape(cfg.cascade2, ps, colRow, 0, |ps|, t.parts);
      Tables(t.collisions + [ev.collision], CascadeCompaction.ScanEvent(cfg.cascade2, ps, colRow, t.parts))
  }

  predicate ReadableCascadeEvents(cfg: Config, table: seq<Particle>, events: seq<Event>) {
    forall k :: 0 <= k < |events| ==> ReadableCascadeEvent(cfg, table, events[k])
  }

  /** The track + cascade path over a sequence of events. */
  function ProcessEventsCascade(cfg: Config, table: seq<Particle>, events: seq<Event>, t: Tables): Tables
    requires ReadableCascadeEvents(cfg, table, events)
    decreases |events|
  {
    if |events| == 0 then t
    else ProcessEventsCascade(cfg, table, events[1..], ProcessEventCascade(cfg, table, events[0], t))
  }

  /** The number of events the track + cascade gate accepts. */
  function AcceptedCascade(cfg: Config, table: seq<Particle>, events: seq<Event>): nat
    requires ReadableCascadeEvents(cfg, table, events)
    decreases |events|
  {
    if |events| == 0 then 0
    else (if AcceptsCascadeEvent(cfg, table, events[0]) then 1 else 0) + AcceptedCascade(cfg, table, events[1..])
  }

  /** One event of the track + cascade path keeps the tables consistent, adds one collision
      row exactly when it is accepted, and never changes a written row. */
  lemma EventCascadeKeepsConsistent(cfg: Config, table: seq<Particle>, ev: Event, t: Tables)
    requires ReadableCascadeEvent(cfg, table, ev)
    requires Consistent(t)
    ensures var t' := ProcessEventCascade(cfg, table, ev, t);
            && Consistent(t')
            && |t'.collisions| == |t.collisions| + (if AcceptsCascadeEvent(cfg, table, ev) then 1 else 0)
            && t'.collisions[..|t.collisions|] == t.collisions
            && |t.parts| <= |t'.parts| && t'.parts[..|t.parts|] == t.parts
  {
    var t' := ProcessEventCascade(cfg, table, ev, t);
    if AcceptsCascadeEvent(cfg, table, ev) {
      AppendEventKeepsConsistent(t, t', ev.collision);
      assert t'.collisions[..|t.collisions|] == t.collisions;
    }
  }

  /** Across events the track + cascade path keeps the tables consistent, writes exactly
      one collision row per accepted event and never changes a row once written. */
  lemma {:induction false} ProcessEventsCascadeConsistent(cfg: Config, table: seq<Particle>, events: seq<Event>, t: Tables)
    requires ReadableCascadeEvents(cfg, table, events)
    requires Consistent(t)
    ensures var t' := ProcessEventsCascade(cfg, table, events, t);
            && Consistent(t')
            && |t'.collisions| == |t.collisions| + AcceptedCascade(cfg, table, events)
            && t'.collisions[..|t.collisions|] == t.collisions
            && |t.parts| <= |t'.parts| && t'.parts[..|t.parts|] == t.parts
    decreases |events|
  {
    if |events| > 0 {
      var t1 := ProcessEventCascade(cfg, table, events[0], t);
      EventCascadeKeepsConsistent(cfg, table, events[0], t);
      assert ReadableCascadeEvents(cfg, table, events[1..]);
      ProcessEventsCascadeConsistent(cfg, table, events[1..], t1);
      var t' := ProcessEventsCascade(cfg, table, events[1..], t1);
      assert t'.collisions[..|t.collisions|] == t'.collisions[..|t1.collisions|][..|t.collisions|];
      assert t'.parts[..|t.parts|] == t'.parts[..|t1.parts|][..|t.parts|];
    }
  }

  /** Counting and daughter-mask choice resolve a doubly matching cascade differently: with
      the shipped masks (particle mask equal to antiparticle mask) a cascade carrying that
      mask is counted as an antiparticle, yet its daughters are held to the particle masks. */
  lemma CountingAndDaughterMasksDisagree(casc: Particle, pos: Particle, neg: Particle, bach: Particle)
    requires casc.cut == DefaultConfig.cascade2.cutBit
    ensures CascadeClass(DefaultConfig.cascade2, casc) == Antimatter
    ensures CascadeCompaction.KeepsCascade(DefaultConfig.cascade2, casc, pos, neg, bach)
        <==> CascadeCompaction.DaughtersPass(DefaultConfig.cascade2, DefaultConfig.cascade2.particleChildren, pos, neg, bach)
  {
  }
}
