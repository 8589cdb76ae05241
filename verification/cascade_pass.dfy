/**
 The compaction pass of the track + cascade path. It walks the records of one accepted
 event in stored order; a track gets one row, and a cascade whose daughters pass the
 child cuts gets four: its positive, negative and bachelor daughters, then itself.
 */
module CascadeCompaction {
  import opened FemtoTypes

  /** A cascade's daughters are the three records stored just before it in the event, and
      when it is kept each carries the child-reference slot the pass copies from it. */
  predicate DaughtersReadable(c: CascadeSelection, parts: seq<Particle>, j: nat)
    requires j < |parts|
  {
    parts[j].partType == Cascade ==>
      && j >= 3
      && (KeepsCascade(c, parts[j], parts[j - 3], parts[j - 2], parts[j - 1]) ==>
            && |parts[j - 3].childrenIds| >= 1
            && |parts[j - 2].childrenIds| >= 2
            && |parts[j - 1].childrenIds| >= 3)
  }

  predicate RangeReadable(c: CascadeSelection, parts: seq<Particle>, lo: nat, hi: nat)
    requires lo <= hi <= |parts|
  {
    forall j :: lo <= j < hi ==> DaughtersReadable(c, parts, j)
  }

  /** The child cuts under one set of daughter masks; a switched-off kind of cut passes. */
  predicate DaughtersPass(c: CascadeSelection, m: ChildMasks, pos: Particle, neg: Particle, bach: Particle) {
    && (c.useChildCuts ==>
          Contains(pos.cut, m.posCut) && Contains(neg.cut, m.negCut) && Contains(bach.cut, m.bachCut))
    && (c.useChildPidCuts ==>
          Contains(pos.pidcut, m.posTpc) && Contains(neg.pidcut, m.negTpc) && Contains(bach.pidcut, m.bachTpc))
  }

  /** Whether a cascade is written: a selection mask equal to the particle mask applies the
      particle daughter masks, else one equal to the antiparticle mask applies the
      antiparticle daughter masks, else no daughter test is made. */
  predicate KeepsCascade(c: CascadeSelection, casc: Particle, pos: Particle, neg: Particle, bach: Particle) {
    if casc.cut == c.cutBit then DaughtersPass(c, c.particleChildren, pos, neg, bach)
    else if casc.cut == c.cutBitAnti then DaughtersPass(c, c.antiChildren, pos, neg, bach)
    else true
  }

  /** The four rows of a kept cascade whose first row is row `r`: each daughter keeps its
      own slot of its original references and zeros elsewhere, and the cascade references
      the three daughter rows. */
  function CascadeRows(colRow: int, casc: Particle, pos: Particle, neg: Particle, bach: Particle, r: int): seq<OutParticle>
    requires |pos.childrenIds| >= 1 && |neg.childrenIds| >= 2 && |bach.childrenIds| >= 3
  {
    [ Emit(colRow, pos, [pos.childrenIds[0], 0, 0]),
      Emit(colRow, neg, [0, neg.childrenIds[1], 0]),
      Emit(colRow, bach, [0, 0, bach.childrenIds[2]]),
      Emit(colRow, casc, [r, r + 1, r + 2]) ]
  }

  /** Whether record j is a cascade the pass keeps. */
  predicate KeptAt(c: CascadeSelection, parts: seq<Particle>, j: nat)
    requires j < |parts| && DaughtersReadable(c, parts, j)
  {
    parts[j].partType == Cascade && KeepsCascade(c, parts[j], parts[j - 3], parts[j - 2], parts[j - 1])
  }

  /** One record of the pass. */
  function Step(c: CascadeSelection, parts: seq<Particle>, j: nat, colRow: int, rows: seq<OutParticle>): seq<OutParticle>
    requires j < |parts| && DaughtersReadable(c, parts, j)
  {
    var p := parts[j];
    match p.partType
    case Track => rows + [Emit(colRow, p, [0, 0])]
    case Cascade =>
      if KeptAt(c, parts, j) then rows + CascadeRows(colRow, p, parts[j - 3], parts[j - 2], parts[j - 1], |rows|)
      else rows
    case _ => rows
  }

  /** The pass over the records [i, hi) of the event. */
  function ScanRange(c: CascadeSelection, parts: seq<Particle>, colRow: int, i: nat, hi: nat, rows: seq<OutParticle>): seq<OutParticle>
    requires i <= hi <= |parts| && RangeReadable(c, parts, i, hi)
    decreases hi - i
  {
    if i == hi then rows
    else ScanRange(c, parts, colRow, i + 1, hi, Step(c, parts, i, colRow, rows))
  }

  /** How many rows record j gets: one for a track, four for a kept cascade, none otherwise. */
  function RecordRows(c: CascadeSelection, parts: seq<Particle>, j: nat): nat
    requires j < |parts| && DaughtersReadable(c, parts, j)
  {
    if parts[j].partType == Track then 1
    else if KeptAt(c, parts, j) then 4
    else 0
  }

  /** The number of rows the records [i, hi) get. */
  function RowsWritten(c: CascadeSelection, parts: seq<Particle>, i: nat, hi: nat): nat
    requires i <= hi <= |parts| && RangeReadable(c, parts, i, hi)
    decreases hi - i
  {
    if i == hi then 0
    else RecordRows(c, parts, i) + RowsWritten(c, parts, i + 1, hi)
  }

  /** Each record adds the rows its kind calls for and leaves the earlier rows alone; a
      cascade adds none or four. */
  lemma StepShape(c: CascadeSelection, parts: seq<Particle>, j: nat, colRow: int, rows: seq<OutParticle>)
    requires j < |parts| && DaughtersReadable(c, parts, j)
    ensures var rows' := Step(c, parts, j, colRow, rows);
            && |rows'| == |rows| + RecordRows(c, parts, j)
            && rows'[..|rows|] == rows
            && (parts[j].partType == Cascade ==> |rows'| == |rows| || |rows'| == |rows| + 4)
            && (forall r :: |rows| <= r < |rows'| ==> rows'[r].collisionRow == colRow)
  {
    var rows' := Step(c, parts, j, colRow, rows);
    assert rows'[..|rows|] == rows;
  }

  /** The pass appends the rows its records call for, leaves the rows before it alone, and
      points every new row at the current collision. */
  lemma {:induction false} ScanShape(c: CascadeSelection, parts: seq<Particle>, colRow: int, i: nat, hi: nat, rows: seq<OutParticle>)
    requires i <= hi <= |parts| && RangeReadable(c, parts, i, hi)
    ensures var rows' := ScanRange(c, parts, colRow, i, hi, rows);
            && |rows'| == |rows| + RowsWritten(c, parts, i, hi)
            && rows'[..|rows|] == rows
            && (forall r :: |rows| <= r < |rows'| ==> rows'[r].collisionRow == colRow)
    decreases hi - i
  {
    if i < hi {
      var rows1 := Step(c, parts, i, colRow, rows);
      StepShape(c, parts, i, colRow, rows);
      ScanShape(c, parts, colRow, i + 1, hi, rows1);
      var rows' := ScanRange(c, parts, colRow, i + 1, hi, rows1);
      assert rows'[..|rows|] == rows'[..|rows1|][..|rows|];
      forall r | |rows| <= r < |rows'|
        ensures rows'[r].collisionRow == colRow
      {
        if r < |rows1| {
          assert rows'[r] == rows'[..|rows1|][r];
        }
      }
    }
  }

  /** Running the pass over [i, j) and then over [j, hi) is running it over [i, hi). */
  lemma {:induction false} ScanSplit(c: CascadeSelection, parts: seq<Particle>, colRow: int, i: nat, j: nat, hi: nat, rows: seq<OutParticle>)
    requires i <= j <= hi <= |parts| && RangeReadable(c, parts, i, hi)
    ensures ScanRange(c, parts, colRow, i, hi, rows)
         == ScanRange(c, parts, colRow, j, hi, ScanRange(c, parts, colRow, i, j, rows))
    decreases j - i
  {
    if i < j {
      var rows1 := Step(c, parts, i, colRow, rows);
      ScanSplit(c, parts, colRow, i + 1, j, hi, rows1);
      assert ScanRange(c, parts, colRow, i, j, rows) == ScanRange(c, parts, colRow, i + 1, j, rows1);
      assert ScanRange(c, parts, colRow, i, hi, rows) == ScanRange(c, parts, colRow, i + 1, hi, rows1);
    }
  }

  /** The pass over a whole event, behind the output rows `rows`. */
  function ScanEvent(c: CascadeSelection, parts: seq<Particle>, colRow: int, rows: seq<OutParticle>): seq<OutParticle>
    requires RangeReadable(c, parts, 0, |parts|)
  {
    ScanRange(c, parts, colRow, 0, |parts|, rows)
  }

  /** The first row of record j of the event: the rows before the event, plus the rows of
      the records before it in the event. */
  function RowOf(c: CascadeSelection, parts: seq<Particle>, j: nat, base: nat): nat
    requires j <= |parts| && RangeReadable(c, parts, 0, j)
  {
    base + RowsWritten(c, parts, 0, j)
  }

  /** Order preservation: the rows of record j are the rows its own step appends, given the
      rows the pass had written when it met j. */
  lemma RowsOfRecordAreItsStep(c: CascadeSelection, parts: seq<Particle>, colRow: int, j: nat, rows: seq<OutParticle>)
    requires j < |parts| && RangeReadable(c, parts, 0, |parts|)
    ensures var before := ScanRange(c, parts, colRow, 0, j, rows);
            var r := RowOf(c, parts, j, |rows|);
            var rows' := ScanEvent(c, parts, colRow, rows);
            var mine := Step(c, parts, j, colRow, before);
            && |before| == r
            && |mine| == r + RecordRows(c, parts, j) <= |rows'|
            && rows'[r..|mine|] == mine[r..]
  {
    var before := ScanRange(c, parts, colRow, 0, j, rows);
    var mine := Step(c, parts, j, colRow, before);
    ScanSplit(c, parts, colRow, 0, j, |parts|, rows);
    ScanShape(c, parts, colRow, 0, j, rows);
    StepShape(c, parts, j, colRow, before);
    ScanShape(c, parts, colRow, j + 1, |parts|, mine);
    var rows' := ScanRange(c, parts, colRow, j + 1, |parts|, mine);
    var r := RowOf(c, parts, j, |rows|);
    assert rows'[r..|mine|] == rows'[..|mine|][r..];
  }

  /** The rows a kept cascade's step appends are the four rows of `CascadeRows`. */
  lemma KeptRowsAreCascadeRows(c: CascadeSelection, parts: seq<Particle>, colRow: int, j: nat, rows: seq<OutParticle>)
    requires j < |parts| && RangeReadable(c, parts, 0, |parts|)
    requires KeptAt(c, parts, j)
    ensures var rows' := ScanEvent(c, parts, colRow, rows);
            var r := RowOf(c, parts, j, |rows|);
            && r + 4 <= |rows'|
            && rows'[r..r + 4] == CascadeRows(colRow, parts[j], parts[j - 3], parts[j - 2], parts[j - 1], r)
  {
    RowsOfRecordAreItsStep(c, parts, colRow, j, rows);
    var r := RowOf(c, parts, j, |rows|);
    var before := ScanRange(c, parts, colRow, 0, j, rows);
    var mine := Step(c, parts, j, colRow, before);
    assert mine[r..] == CascadeRows(colRow, parts[j], parts[j - 3], parts[j - 2], parts[j - 1], r);
  }

  /** A kept cascade at record j gets four consecutive rows r .. r + 3, written in the order
      positive, negative, bachelor daughter, cascade: each row copies its record's tag,
      masks and kinematics, each daughter row keeps slot k of its original references with
      zeros elsewhere, and the cascade row references the three rows just before it. */
  lemma KeptCascadeRows(c: CascadeSelection, parts: seq<Particle>, colRow: int, j: nat, rows: seq<OutParticle>)
    requires j < |parts| && RangeReadable(c, parts, 0, |parts|)
    requires KeptAt(c, parts, j)
    ensures var rows' := ScanEvent(c, parts, colRow, rows);
            var r := RowOf(c, parts, j, |rows|);
            var pos := parts[j - 3];
            var neg := parts[j - 2];
            var bach := parts[j - 1];
            && r + 4 <= |rows'|
            && Copies(rows'[r], colRow, pos) && rows'[r].childIds == [pos.childrenIds[0], 0, 0]
            && Copies(rows'[r + 1], colRow, neg) && rows'[r + 1].childIds == [0, neg.childrenIds[1], 0]
            && Copies(rows'[r + 2], colRow, bach) && rows'[r + 2].childIds == [0, 0, bach.childrenIds[2]]
            && Copies(rows'[r + 3], colRow, parts[j]) && rows'[r + 3].childIds == [r, r + 1, r + 2]
  {
    KeptRowsAreCascadeRows(c, parts, colRow, j, rows);
    var r := RowOf(c, parts, j, |rows|);
    var rows' := ScanEvent(c, parts, colRow, rows);
    var quad := rows'[r..r + 4];
    assert rows'[r] == quad[0] && rows'[r + 1] == quad[1] && rows'[r + 2] == quad[2] && rows'[r + 3] == quad[3];
  }

  /** A track gets one row copying its record, with references {0, 0}; a cascade that fails
      its daughter cuts gets no row, and the pass goes on with the next record. */
  lemma TrackAndDroppedCascadeRows(c: CascadeSelection, parts: seq<Particle>, colRow: int, j: nat, rows: seq<OutParticle>)
    requires j < |parts| && RangeReadable(c, parts, 0, |parts|)
    ensures var rows' := ScanEvent(c, parts, colRow, rows);
            var r := RowOf(c, parts, j, |rows|);
            var p := parts[j];
            && (p.partType == Track ==>
                  r < |rows'| && Copies(rows'[r], colRow, p) && rows'[r].childIds == [0, 0])
            && (p.partType == Cascade && !KeptAt(c, parts, j) ==>
                  RowOf(c, parts, j + 1, |rows|) == r)
  {
    RowsOfRecordAreItsStep(c, parts, colRow, j, rows);
    RowsWrittenSnoc(c, parts, 0, j);
    var r := RowOf(c, parts, j, |rows|);
    var rows' := ScanEvent(c, parts, colRow, rows);
    var before := ScanRange(c, parts, colRow, 0, j, rows);
    var mine := Step(c, parts, j, colRow, before);
    if parts[j].partType == Track {
      assert rows'[r] == rows'[r..|mine|][0];
    }
  }

  /** Counting the rows of [i, j + 1) adds record j's rows to those of [i, j). */
  lemma {:induction false} RowsWrittenSnoc(c: CascadeSelection, parts: seq<Particle>, i: nat, j: nat)
    requires i <= j < |parts| && RangeReadable(c, parts, i, j + 1)
    ensures RowsWritten(c, parts, i, j + 1) == RowsWritten(c, parts, i, j) + RecordRows(c, parts, j)
    decreases j - i
  {
    if i < j {
      RowsWrittenSnoc(c, parts, i + 1, j);
    }
  }

  /** Which daughter masks a cascade is held to: the particle set when its mask equals the
      particle mask (even if it also equals the antiparticle mask), the antiparticle set when
      it equals only the antiparticle mask, and none otherwise. */
  lemma ChildMaskSelection(c: CascadeSelection, casc: Particle, pos: Particle, neg: Particle, bach: Particle)
    ensures casc.cut == c.cutBit ==>
              (KeepsCascade(c, casc, pos, neg, bach) <==> DaughtersPass(c, c.particleChildren, pos, neg, bach))
    ensures casc.cut != c.cutBit && casc.cut == c.cutBitAnti ==>
              (KeepsCascade(c, casc, pos, neg, bach) <==> DaughtersPass(c, c.antiChildren, pos, neg, bach))
    ensures casc.cut != c.cutBit && casc.cut != c.cutBitAnti ==> KeepsCascade(c, casc, pos, neg, bach)
    ensures !c.useChildCuts && !c.useChildPidCuts ==> KeepsCascade(c, casc, pos, neg, bach)
  {
  }

  /** With a daughter cut switched on, one daughter missing one bit of its mask drops the cascade. */
  lemma FailedDaughterContainmentDrops(c: CascadeSelection, casc: Particle, pos: Particle, neg: Particle, bach: Particle)
    requires casc.cut == c.cutBit
    requires c.useChildCuts
    requires !Contains(pos.cut, c.particleChildren.posCut) || !Contains(neg.cut, c.particleChildren.negCut)
             || !Contains(bach.cut, c.particleChildren.bachCut)
    ensures !KeepsCascade(c, casc, pos, neg, bach)
  {
  }
}
