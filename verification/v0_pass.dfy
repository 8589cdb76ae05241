/**
 The compaction pass of the track + V0 path. It walks the records of one accepted event in
 stored order and appends a row to the output particle table for every track, V0 daughter
 and V0, rewriting child references as it goes. The event's records are the collision's
 group `parts`, and a record's index is its position in that group.
 */
module V0Compaction {
  import opened FemtoTypes
  import opened Lookup

  /** State of the pass: the output particle table, and the indices of the tracks written
      so far in this event (the lookup vector). */
  datatype Scan = Scan(rows: seq<OutParticle>, tmpIdTrack: seq<int>)

  /** The tags the V0 pass writes a row for. */
  predicate WritesRow(t: PartType) {
    t == Track || t == V0Child || t == V0
  }

  /** The reference slots a V0 daughter's resolution reads: the first slot always, the
      second only when the first is zero. */
  predicate SlotsReadable(p: Particle) {
    |p.childrenIds| >= 1 && (p.childrenIds[0] == 0 ==> |p.childrenIds| >= 2)
  }

  predicate ChildrenReadable(p: Particle) {
    p.partType == V0Child ==> SlotsReadable(p)
  }

  predicate RangeReadable(parts: seq<Particle>, lo: nat, hi: nat)
    requires lo <= hi <= |parts|
  {
    forall j :: lo <= j < hi ==> ChildrenReadable(parts[j])
  }

  /** The slot holding a V0 daughter's reference: the first one unless it is zero. */
  function ActiveSlot(p: Particle): (k: nat)
    requires SlotsReadable(p)
    ensures k < 2 && k < |p.childrenIds|
    ensures k == 1 <==> p.childrenIds[0] == 0
  {
    if p.childrenIds[0] != 0 then 0 else 1
  }

  /** The rewritten references of a V0 daughter: the active slot gets the position of the
      referenced track among the tracks written so far, or -1 when the reference is -1 or
      no such track was written; the other slot gets 0. */
  function V0ChildRefs(p: Particle, tmpIdTrack: seq<int>): (ids: seq<int>)
    requires SlotsReadable(p)
    ensures |ids| == 2
    ensures ids[1 - ActiveSlot(p)] == 0
    ensures var id := p.childrenIds[ActiveSlot(p)];
            var ref := ids[ActiveSlot(p)];
            && (ref == -1 <==> id == -1 || id !in tmpIdTrack)
            && (ref != -1 ==> 0 <= ref < |tmpIdTrack| && tmpIdTrack[ref] == id)
            && (forall k :: 0 <= k < ref ==> tmpIdTrack[k] != id)
  {
    var slot := ActiveSlot(p);
    var id := p.childrenIds[slot];
    var ref := if id != -1 then FirstIndexOf(id, tmpIdTrack) else -1;
    if slot == 0 then [ref, 0] else [0, ref]
  }

  /** One record of the pass, at position `index` of the event. A V0 takes the last two
      rows of the output table as its daughters, whatever event or record wrote them. */
  function Step(p: Particle, index: nat, colRow: int, s: Scan): Scan
    requires ChildrenReadable(p)
  {
    match p.partType
    case Track => Scan(s.rows + [Emit(colRow, p, [0, 0])], s.tmpIdTrack + [index])
    case V0Child => Scan(s.rows + [Emit(colRow, p, V0ChildRefs(p, s.tmpIdTrack))], s.tmpIdTrack)
    case V0 =>
      var last := |s.rows| - 1;
      Scan(s.rows + [Emit(colRow, p, [last - 1, last])], s.tmpIdTrack)
    case _ => s
  }

  /** The pass over the records [i, hi) of the event. */
  function ScanRange(parts: seq<Particle>, colRow: int, i: nat, hi: nat, s: Scan): Scan
    requires i <= hi <= |parts| && RangeReadable(parts, i, hi)
    decreases hi - i
  {
    if i == hi then s
    else ScanRange(parts, colRow, i + 1, hi, Step(parts[i], i, colRow, s))
  }

  /** The pass over a whole event, starting from output rows `rows` and an empty lookup vector. */
  function ScanEvent(parts: seq<Particle>, colRow: int, rows: seq<OutParticle>): Scan
    requires RangeReadable(parts, 0, |parts|)
  {
    ScanRange(parts, colRow, 0, |parts|, Scan(rows, []))
  }

  /** The number of records in [i, hi) the pass writes a row for. */
  function WrittenCount(parts: seq<Particle>, i: nat, hi: nat): nat
    requires i <= hi <= |parts|
    decreases hi - i
  {
    if i == hi then 0
    else (if WritesRow(parts[i].partType) then 1 else 0) + WrittenCount(parts, i + 1, hi)
  }

  /** The positions of the tracks in [i, hi), in order. */
  function TrackIndices(parts: seq<Particle>, i: nat, hi: nat): seq<int>
    requires i <= hi <= |parts|
    decreases hi - i
  {
    if i == hi then []
    else (if parts[i].partType == Track then [i] else []) + TrackIndices(parts, i + 1, hi)
  }

  /** The pass appends exactly one row per written record, leaves the rows before it
      alone, points every new row at the current collision, writes only the three handled
      tags, and records the positions of the tracks it met. */
  lemma {:induction false} ScanShape(parts: seq<Particle>, colRow: int, i: nat, hi: nat, s: Scan)
    requires i <= hi <= |parts| && RangeReadable(parts, i, hi)
    ensures var s' := ScanRange(parts, colRow, i, hi, s);
            && |s'.rows| == |s.rows| + WrittenCount(parts, i, hi)
            && s'.rows[..|s.rows|] == s.rows
            && s'.tmpIdTrack == s.tmpIdTrack + TrackIndices(parts, i, hi)
            && (forall r :: |s.rows| <= r < |s'.rows| ==>
                  s'.rows[r].collisionRow == colRow && WritesRow(s'.rows[r].partType))
    decreases hi - i
  {
    if i < hi {
      var s1 := Step(parts[i], i, colRow, s);
      ScanShape(parts, colRow, i + 1, hi, s1);
      var s' := ScanRange(parts, colRow, i + 1, hi, s1);
      assert s'.rows[..|s1.rows|] == s1.rows;
      assert s1.rows[..|s.rows|] == s.rows;
      assert s'.rows[..|s.rows|] == s'.rows[..|s1.rows|][..|s.rows|];
      if parts[i].partType == Track {
        assert s1.tmpIdTrack + TrackIndices(parts, i + 1, hi)
            == s.tmpIdTrack + ([i] + TrackIndices(parts, i + 1, hi));
      } else {
        assert s1.tmpIdTrack == s.tmpIdTrack;
        assert TrackIndices(parts, i, hi) == TrackIndices(parts, i + 1, hi);
      }
      forall r | |s.rows| <= r < |s'.rows|
        ensures s'.rows[r].collisionRow == colRow && WritesRow(s'.rows[r].partType)
      {
        if r < |s1.rows| {
          assert s'.rows[r] == s'.rows[..|s1.rows|][r];
          assert s'.rows[r] == s1.rows[r];
        }
      }
    }
  }

  /** Running the pass over [i, j) and then over [j, hi) is running it over [i, hi). */
  lemma {:induction false} ScanSplit(parts: seq<Particle>, colRow: int, i: nat, j: nat, hi: nat, s: Scan)
    requires i <= j <= hi <= |parts| && RangeReadable(parts, i, hi)
    ensures ScanRange(parts, colRow, i, hi, s)
         == ScanRange(parts, colRow, j, hi, ScanRange(parts, colRow, i, j, s))
    decreases j - i
  {
    if i < j {
      ScanSplit(parts, colRow, i + 1, j, hi, Step(parts[i], i, colRow, s));
    }
  }

  /** Counting the written records of [i, j + 1) adds record j to those of [i, j). */
  lemma {:induction false} WrittenCountSnoc(parts: seq<Particle>, i: nat, j: nat)
    requires i <= j < |parts|
    ensures WrittenCount(parts, i, j + 1) == WrittenCount(parts, i, j) + (if WritesRow(parts[j].partType) then 1 else 0)
    decreases j - i
  {
    if i < j {
      WrittenCountSnoc(parts, i + 1, j);
    }
  }

  /** The track positions of [i, hi) are those of [i, j) followed by those of [j, hi). */
  lemma {:induction false} TrackIndicesSplit(parts: seq<Particle>, i: nat, j: nat, hi: nat)
    requires i <= j <= hi <= |parts|
    ensures TrackIndices(parts, i, hi) == TrackIndices(parts, i, j) + TrackIndices(parts, j, hi)
    decreases j - i
  {
    if i < j {
      TrackIndicesSplit(parts, i + 1, j, hi);
      var head := if parts[i].partType == Track then [i] else [];
      assert head + (TrackIndices(parts, i + 1, j) + TrackIndices(parts, j, hi))
          == (head + TrackIndices(parts, i + 1, j)) + TrackIndices(parts, j, hi);
    }
  }

  /** The row a written record of the event lands in: the rows before the event, plus one
      per written record before it in the event. */
  function RowOf(parts: seq<Particle>, j: nat, base: nat): nat
    requires j <= |parts|
  {
    base + WrittenCount(parts, 0, j)
  }

  /** Order preservation: the row of a written record j is the row that record's own step
      writes, given the state the pass had reached when it met j. */
  lemma RowOfRecordIsItsStep(parts: seq<Particle>, colRow: int, j: nat, rows: seq<OutParticle>)
    requires j < |parts| && RangeReadable(parts, 0, |parts|)
    requires WritesRow(parts[j].partType)
    ensures var before := ScanRange(parts, colRow, 0, j, Scan(rows, []));
            var r := RowOf(parts, j, |rows|);
            var s' := ScanEvent(parts, colRow, rows);
            && |before.rows| == r
            && r < |s'.rows|
            && s'.rows[r] == Step(parts[j], j, colRow, before).rows[r]
  {
    var s := Scan(rows, []);
    var before := ScanRange(parts, colRow, 0, j, s);
    var after := Step(parts[j], j, colRow, before);
    ScanSplit(parts, colRow, 0, j, |parts|, s);
    ScanShape(parts, colRow, 0, j, s);
    ScanShape(parts, colRow, j + 1, |parts|, after);
    var s' := ScanRange(parts, colRow, j + 1, |parts|, after);
    assert s'.rows[..|after.rows|] == after.rows;
    var r := RowOf(parts, j, |rows|);
    assert s'.rows[r] == s'.rows[..|after.rows|][r];
  }

  /** What the row of each written record j of an event holds: the record's own columns,
      the event's collision row, and the child references its tag calls for. A track's
      references are {0, 0}; a V0 daughter's are resolved against the tracks of the event
      met before it; a V0's are the two rows just before its own. */
  lemma RowOfRecord(parts: seq<Particle>, colRow: int, j: nat, rows: seq<OutParticle>)
    requires j < |parts| && RangeReadable(parts, 0, |parts|)
    requires WritesRow(parts[j].partType)
    ensures var s' := ScanEvent(parts, colRow, rows);
            var r := RowOf(parts, j, |rows|);
            var p := parts[j];
            && r < |s'.rows|
            && s'.rows[r].collisionRow == colRow
            && s'.rows[r].partType == p.partType
            && s'.rows[r].cut == p.cut
            && s'.rows[r].pidcut == p.pidcut
            && s'.rows[r].payload == p.payload
            && (p.partType == Track ==> s'.rows[r].childIds == [0, 0])
            && (p.partType == V0 ==> s'.rows[r].childIds == [r - 2, r - 1])
            && (p.partType == V0Child ==> s'.rows[r].childIds == V0ChildRefs(p, TrackIndices(parts, 0, j)))
  {
    RowOfRecordIsItsStep(parts, colRow, j, rows);
    ScanShape(parts, colRow, 0, j, Scan(rows, []));
    assert [] + TrackIndices(parts, 0, j) == TrackIndices(parts, 0, j);
  }

  /** A V0 daughter's row resolves its reference to the first track of the event, met
      before it, whose position in the event is the reference; the result is that track's
      ordinal among the event's tracks, or -1. */
  lemma V0ChildRowResolvesTrack(parts: seq<Particle>, colRow: int, j: nat, rows: seq<OutParticle>)
    requires j < |parts| && RangeReadable(parts, 0, |parts|)
    requires parts[j].partType == V0Child
    ensures var s' := ScanEvent(parts, colRow, rows);
            var r := RowOf(parts, j, |rows|);
            var p := parts[j];
            var slot := ActiveSlot(p);
            var id := p.childrenIds[slot];
            var tracks := TrackIndices(parts, 0, j);
            && r < |s'.rows|
            && |s'.rows[r].childIds| == 2
            && s'.rows[r].childIds[1 - slot] == 0
            && (s'.rows[r].childIds[slot] == -1 <==> id == -1 || id !in tracks)
            && (s'.rows[r].childIds[slot] != -1 ==>
                  var k := s'.rows[r].childIds[slot];
                  0 <= k < |tracks| && tracks[k] == id && forall m :: 0 <= m < k ==> tracks[m] != id)
  {
    RowOfRecord(parts, colRow, j, rows);
  }

  /** A resolved V0 daughter reference is final: looking the same id up in the lookup
      vector the pass ends the event with, after the later tracks were pushed, gives the
      same ordinal. */
  lemma ResolvedReferenceIsStable(parts: seq<Particle>, colRow: int, j: nat, rows: seq<OutParticle>)
    requires j < |parts| && RangeReadable(parts, 0, |parts|)
    requires parts[j].partType == V0Child
    ensures var s' := ScanEvent(parts, colRow, rows);
            var r := RowOf(parts, j, |rows|);
            var p := parts[j];
            var slot := ActiveSlot(p);
            var id := p.childrenIds[slot];
            && r < |s'.rows|
            && |s'.rows[r].childIds| == 2
            && (s'.rows[r].childIds[slot] != -1 ==>
                  s'.rows[r].childIds[slot] == FirstIndexOf(id, s'.tmpIdTrack))
  {
    RowOfRecord(parts, colRow, j, rows);
    ScanShape(parts, colRow, 0, |parts|, Scan(rows, []));
    TrackIndicesSplit(parts, 0, j, |parts|);
    var p := parts[j];
    var id := p.childrenIds[ActiveSlot(p)];
    var before := TrackIndices(parts, 0, j);
    assert [] + TrackIndices(parts, 0, |parts|) == before + TrackIndices(parts, j, |parts|);
    if id != -1 && id in before {
      FirstIndexOfAppend(id, before, TrackIndices(parts, j, |parts|));
    }
  }

  /** When a V0 is stored right after two written records of its event (its daughters, in
      the upstream producer's layout), its references are exactly their rows. */
  lemma V0ReferencesItsDaughters(parts: seq<Particle>, colRow: int, j: nat, rows: seq<OutParticle>)
    requires 2 <= j < |parts| && RangeReadable(parts, 0, |parts|)
    requires parts[j].partType == V0
    requires WritesRow(parts[j - 2].partType) && WritesRow(parts[j - 1].partType)
    ensures var s' := ScanEvent(parts, colRow, rows);
            var r := RowOf(parts, j, |rows|);
            && RowOf(parts, j - 2, |rows|) < RowOf(parts, j - 1, |rows|) < r < |s'.rows|
            && s'.rows[r].childIds == [RowOf(parts, j - 2, |rows|), RowOf(parts, j - 1, |rows|)]
            && s'.rows[RowOf(parts, j - 2, |rows|)].payload == parts[j - 2].payload
            && s'.rows[RowOf(parts, j - 1, |rows|)].payload == parts[j - 1].payload
  {
    RowOfRecord(parts, colRow, j, rows);
    RowOfRecord(parts, colRow, j - 2, rows);
    RowOfRecord(parts, colRow, j - 1, rows);
    WrittenCountSnoc(parts, 0, j - 2);
    WrittenCountSnoc(parts, 0, j - 1);
  }
}
