# Femto derived-data producer for a specific analysis — Dafny model

This project models the per-event gate and compaction pass of the FemtoDream producer task
for a specific analysis (`femtoDreamProducerTaskForSpecificAnalysis`). The task reads the
femto particle table of each collision. It counts the selected tracks, V0s or cascades of
each charge class. It keeps the event only when the particle hypothesis, or the
antiparticle hypothesis, meets both multiplicity floors. For a kept event it writes one
collision row and a compacted set of particle rows, rewriting the child references.

There are two processing paths:

- **track + V0**: tracks are written with references `{0, 0}`. A V0 daughter's reference
  is resolved with a linear lookup among the in-event positions of the tracks written so
  far in the event. A V0 references the last two rows of the output table.
- **track + cascade**: tracks are written as above. A cascade takes the three records
  stored just before it as its positive, negative and bachelor daughters. If the daughters
  pass the daughter cuts (chosen by exact equality of the cascade's mask with the particle
  or antiparticle mask), four rows are written: the three daughters, then the cascade,
  which references the three daughter rows.

The model is functional. The input particle table is a `seq<Particle>`, and an event is
the slice `[lo, hi)` of it that belongs to one collision (`Producer.Parts`). The passes work
on that group alone: a record's index, the value pushed into the lookup vector, and the
offsets of a cascade's daughters are positions within the collision's group. The two output
tables are sequences that keep growing across events. Each pass is a left fold over the
event's records.

Modules: `FemtoTypes` (records, rows, configuration and shipped defaults, mask
containment), `Lookup` (the id lookup), `Selection` (partitions and charge classification),
`Counting` (per-event counts), `Gate` (the OR-of-two-ANDs event gate), `V0Compaction` and
`CascadeCompaction` (the two passes), and `Producer` (per-event and multi-event entry points).

In these respects the model follows the code's actual behaviour:

- Every track, V0 daughter and V0 of a kept event is written, and so is every cascade whose
  daughters pass. Selection only decides the counts, not which records are written.
- A V0 daughter's resolved reference is the position of the track among this event's
  tracks (the lookup vector is local to the event). It is not the track's row in the
  output table.
- A V0's references are the two rows written last in the output table, whoever wrote them.
  They are its daughters' rows only when the daughters are stored right before it
  (`V0ReferencesItsDaughters`).
- Cascade daughters keep their original child reference in their own slot; it is not
  remapped.
- Counting resolves a cascade matching both masks as an antiparticle, while daughter-mask
  choice resolves it as a particle (`CountingAndDaughterMasksDisagree`).

## Model

| member | source | states |
|---|---|---|
| Lookup.FirstIndexOf | PWGCF/FemtoDream/TableProducer/femtoDreamProducerTaskForSpecificAnalysis.cxx:156-166 | The lookup result lies in [-1, n); it is -1 exactly when the id is absent, and otherwise the id sits there and at no earlier position. |
| Lookup.GetRowDaughters | PWGCF/FemtoDream/TableProducer/femtoDreamProducerTaskForSpecificAnalysis.cxx:156-166 | The scanning loop that breaks at the first match returns -1 iff the id is absent, otherwise the smallest matching position; it agrees with `FirstIndexOf`. |
| Lookup.FirstIndexOfAppend | PWGCF/FemtoDream/TableProducer/femtoDreamProducerTaskForSpecificAnalysis.cxx:224 | Appending track indices behind a match does not move it; an id first present in the appended part is found shifted by the old length. |
| Selection.ZeroRejectMaskDisablesRejection | PWGCF/FemtoDream/TableProducer/femtoDreamProducerTaskForSpecificAnalysis.cxx:73-85 | With a zero TPC reject mask, a low-momentum track passes the PID test exactly when it contains the TPC mask. |
| Selection.RejectBitVetoesOnlyBelowThreshold | PWGCF/FemtoDream/TableProducer/femtoDreamProducerTaskForSpecificAnalysis.cxx:85 | Below the momentum threshold any reject bit present vetoes the track; above it the test is containment of the TPC+TOF mask alone. |
| Selection.V0PathTrackClassIsBitZero | PWGCF/FemtoDream/TableProducer/femtoDreamProducerTaskForSpecificAnalysis.cxx:186-192 | In the V0 path every track gets a class, antiparticle exactly when bit 0 of its mask is set. |
| Selection.AntiMaskTakesPrecedence | PWGCF/FemtoDream/TableProducer/femtoDreamProducerTaskForSpecificAnalysis.cxx:298-306 | Mask classification gives antiparticle whenever the anti mask is contained, particle iff only the particle mask is, and no class iff neither is. |
| Selection.ParticleWindowTakesPrecedence | PWGCF/FemtoDream/TableProducer/femtoDreamProducerTaskForSpecificAnalysis.cxx:197-203 | A V0 in the particle mass window is a particle even if also in the anti window; it is an antiparticle iff only in the anti window, and uncounted iff in neither. |
| Selection.DefaultAntiTrackAgreesAcrossPaths | PWGCF/FemtoDream/TableProducer/femtoDreamProducerTaskForSpecificAnalysis.cxx:70-71 | With the shipped track masks, a track the cascade path counts as an antiparticle is also one in the V0 path. |
| Selection.DefaultCascadesAreCountedAsAnti | PWGCF/FemtoDream/TableProducer/femtoDreamProducerTaskForSpecificAnalysis.cxx:110-117 | With the shipped cascade masks (both equal), no cascade is ever counted as a particle. |
| Counting.Tally | PWGCF/FemtoDream/TableProducer/femtoDreamProducerTaskForSpecificAnalysis.cxx:184-203 | The counting loop's particle and antiparticle counters equal the multiplicities of those classes among the counted records. |
| Counting.TallyTotal | PWGCF/FemtoDream/TableProducer/femtoDreamProducerTaskForSpecificAnalysis.cxx:184-192 | Particles plus antiparticles plus unclassified records make up all the records: each is counted at most once. |
| Counting.TallyAppend | PWGCF/FemtoDream/TableProducer/femtoDreamProducerTaskForSpecificAnalysis.cxx:197-203 | One more record adds at most one to the combined count, exactly one unless it is unclassified. |
| Counting.V0PathCountsEveryTrack | PWGCF/FemtoDream/TableProducer/femtoDreamProducerTaskForSpecificAnalysis.cxx:184-192 | In the V0 path tracks + antitracks equals the number of selected tracks, and the antitracks are exactly the selected tracks with bit 0 set. |
| Counting.CascadePathSkipsUnmatchedTracks | PWGCF/FemtoDream/TableProducer/femtoDreamProducerTaskForSpecificAnalysis.cxx:296-306 | In the cascade path the counts miss exactly the selected tracks matching neither mask; the antitracks are those containing the anti mask. |
| Counting.V0CountsBoundedBySelection | PWGCF/FemtoDream/TableProducer/femtoDreamProducerTaskForSpecificAnalysis.cxx:195-203 | The combined V0 count never exceeds the number of selected V0s. |
| Counting.CascadeCountsBoundedBySelection | PWGCF/FemtoDream/TableProducer/femtoDreamProducerTaskForSpecificAnalysis.cxx:309-324 | The combined cascade count never exceeds the number of selected cascades. |
| Gate.MixedHypothesesAreRejected | PWGCF/FemtoDream/TableProducer/femtoDreamProducerTaskForSpecificAnalysis.cxx:207 | Counts (tracks 3, antitracks 0, V0s 0, anti-V0s 2) with floors (3, 2) are rejected, although each species' summed count meets its floor. |
| Gate.AcceptsIsChargeSymmetric | PWGCF/FemtoDream/TableProducer/femtoDreamProducerTaskForSpecificAnalysis.cxx:207 | Exchanging particles and antiparticles in both species leaves the verdict unchanged. |
| Gate.AcceptsIsMonotone | PWGCF/FemtoDream/TableProducer/femtoDreamProducerTaskForSpecificAnalysis.cxx:207 | Raising any count never turns an accepted event into a rejected one. |
| Gate.AcceptsIsOrOfAnds | PWGCF/FemtoDream/TableProducer/femtoDreamProducerTaskForSpecificAnalysis.cxx:327 | An event is rejected iff each hypothesis misses at least one of its two floors. |
| Gate.ZeroPartnerFloorLeavesTrackFloor | PWGCF/FemtoDream/TableProducer/femtoDreamProducerTaskForSpecificAnalysis.cxx:53-55 | With the shipped partner floor of 0, the gate accepts iff one charge class of tracks alone meets the track floor. |
| V0Compaction.V0ChildRefs | PWGCF/FemtoDream/TableProducer/femtoDreamProducerTaskForSpecificAnalysis.cxx:226-235 | A V0 daughter's inactive slot is 0; its active slot is -1 iff the reference is -1 or not among the tracks so far, and otherwise the first position of that track. |
| V0Compaction.ScanShape | PWGCF/FemtoDream/TableProducer/femtoDreamProducerTaskForSpecificAnalysis.cxx:210-264 | The pass appends one row per track, V0 daughter and V0 and nothing else; it keeps earlier rows; every new row points at the current collision; the lookup vector ends as the event's track indices. |
| V0Compaction.RowOfRecordIsItsStep | PWGCF/FemtoDream/TableProducer/femtoDreamProducerTaskForSpecificAnalysis.cxx:210-264 | Order preservation: a written record's row is the row just past those of the written records before it, and holds what its own step writes. |
| V0Compaction.RowOfRecord | PWGCF/FemtoDream/TableProducer/femtoDreamProducerTaskForSpecificAnalysis.cxx:211-262 | A written record's row copies its columns and collision; a track gets {0,0}, a V0 at row r gets {r-2, r-1}, a V0 daughter its lookup against the event's earlier tracks. |
| V0Compaction.V0ChildRowResolvesTrack | PWGCF/FemtoDream/TableProducer/femtoDreamProducerTaskForSpecificAnalysis.cxx:226-235 | A V0 daughter's reference is -1 (an orphan) iff its id is -1 or no earlier track of the event has it, else the first such track's ordinal among the event's tracks. |
| V0Compaction.ResolvedReferenceIsStable | PWGCF/FemtoDream/TableProducer/femtoDreamProducerTaskForSpecificAnalysis.cxx:224-235 | A resolved V0 daughter reference equals the lookup of the same id in the vector the event ends with: tracks pushed later never change it. |
| V0Compaction.V0ReferencesItsDaughters | PWGCF/FemtoDream/TableProducer/femtoDreamProducerTaskForSpecificAnalysis.cxx:248-251 | When a V0 is stored right after two written records, its references are exactly those records' rows, both before its own. |
| CascadeCompaction.StepShape | PWGCF/FemtoDream/TableProducer/femtoDreamProducerTaskForSpecificAnalysis.cxx:332-462 | A record appends one row if a track, four if a kept cascade, none otherwise; a cascade adds 0 or 4 rows; earlier rows are kept. |
| CascadeCompaction.ScanShape | PWGCF/FemtoDream/TableProducer/femtoDreamProducerTaskForSpecificAnalysis.cxx:331-463 | The pass appends exactly the rows its records call for, keeps earlier rows, and points every new row at the current collision. |
| CascadeCompaction.RowsOfRecordAreItsStep | PWGCF/FemtoDream/TableProducer/femtoDreamProducerTaskForSpecificAnalysis.cxx:331-463 | Order preservation: a record's rows follow those of the records before it and are exactly what its own step appends. |
| CascadeCompaction.KeptCascadeRows | PWGCF/FemtoDream/TableProducer/femtoDreamProducerTaskForSpecificAnalysis.cxx:390-461 | A kept cascade gets rows r..r+3 in the order pos, neg, bach, cascade; each row copies its record's tag, masks, kinematics and the collision row; daughter k keeps its original reference k in slot k and 0 elsewhere; the cascade references {r, r+1, r+2}. |
| CascadeCompaction.TrackAndDroppedCascadeRows | PWGCF/FemtoDream/TableProducer/femtoDreamProducerTaskForSpecificAnalysis.cxx:332-388 | A track gets one row copying its tag, masks, kinematics and collision, with {0,0}; a cascade failing its daughter cuts gets no row and the next record starts at the same row. |
| CascadeCompaction.ChildMaskSelection | PWGCF/FemtoDream/TableProducer/femtoDreamProducerTaskForSpecificAnalysis.cxx:354-388 | Mask equal to the particle mask applies the particle daughter masks; else equal to the anti mask applies the anti masks; else no test; with both switches off every cascade is kept. |
| CascadeCompaction.FailedDaughterContainmentDrops | PWGCF/FemtoDream/TableProducer/femtoDreamProducerTaskForSpecificAnalysis.cxx:356-361 | With daughter cuts on, one daughter missing a bit of its mask drops the cascade. |
| Producer.ProcessEventV0 | PWGCF/FemtoDream/TableProducer/femtoDreamProducerTaskForSpecificAnalysis.cxx:205-267 | A rejected event changes neither table; an accepted one appends one collision row and one particle row per track/V0 daughter/V0, all pointing at that collision, after the old rows. |
| Producer.AppendEventKeepsConsistent | PWGCF/FemtoDream/TableProducer/femtoDreamProducerTaskForSpecificAnalysis.cxx:209-213 | Appending a collision row and particle rows pointing at it keeps every reference valid and the references non-decreasing. |
| Producer.EventV0KeepsConsistent | PWGCF/FemtoDream/TableProducer/femtoDreamProducerTaskForSpecificAnalysis.cxx:205-267 | One event of the V0 path keeps the tables consistent, adds a collision row exactly when accepted, and keeps every written row. |
| Producer.V0GateOnRecords | PWGCF/FemtoDream/TableProducer/femtoDreamProducerTaskForSpecificAnalysis.cxx:184-207 | The V0-path gate holds iff enough particle-window V0s meet enough selected tracks without bit 0, or enough anti-window-only V0s meet enough selected tracks with bit 0. |
| Producer.RejectedEventIsNotRead | PWGCF/FemtoDream/TableProducer/femtoDreamProducerTaskForSpecificAnalysis.cxx:265-267 | A rejected event whose V0 daughter has no child reference at all is processed and leaves both tables unchanged: records of rejected events are never read. |
| Producer.ProcessEventsV0Consistent | PWGCF/FemtoDream/TableProducer/femtoDreamProducerTaskForSpecificAnalysis.cxx:273-280 | Over many events the V0 path keeps the tables consistent, writes one collision row per accepted event, and never changes a written row. |
| Producer.SingleV0EventExample | PWGCF/FemtoDream/TableProducer/femtoDreamProducerTaskForSpecificAnalysis.cxx:248-251 | Two V0 daughters and their V0 written into empty tables give exactly three rows, the V0's references being {0, 1}. |
| Producer.ProcessEventCascade | PWGCF/FemtoDream/TableProducer/femtoDreamProducerTaskForSpecificAnalysis.cxx:325-466 | A rejected event changes neither table; an accepted one appends one collision row and one row per track plus four per kept cascade, all pointing at that collision. |
| Producer.EventCascadeKeepsConsistent | PWGCF/FemtoDream/TableProducer/femtoDreamProducerTaskForSpecificAnalysis.cxx:325-466 | One event of the cascade path keeps the tables consistent, adds a collision row exactly when accepted, and keeps every written row. |
| Producer.ProcessEventsCascadeConsistent | PWGCF/FemtoDream/TableProducer/femtoDreamProducerTaskForSpecificAnalysis.cxx:472-479 | Over many events the cascade path keeps the tables consistent, writes one collision row per accepted event, and never changes a written row. |
| Producer.CountingAndDaughterMasksDisagree | PWGCF/FemtoDream/TableProducer/femtoDreamProducerTaskForSpecificAnalysis.cxx:319-371 | With the shipped masks a cascade carrying the cascade mask is counted as an antiparticle, yet held to the particle daughter masks. |

## Left out

- Floating-point kinematics: the combined momentum pt·cosh(eta) against the PID threshold,
  the pt/eta windows, the flat or pt-dependent DCA cut, and the V0 and cascade mass windows.
  Their outcomes are boolean inputs per record (`FloatCuts`).
- Histogram bookkeeping (the event statistics histogram) and framework plumbing
  (partitions, slicing by collision, table cursors, process switches). Slicing is modelled
  as the slice `[lo, hi)` of the particle table.
- The cascade path also fills a vector of track indices, but never reads it (its lookups are
  commented out). The model leaves that vector out.
- The isMC template parameter, the unused sign-plus mask constant, commented-out
  configurables, and the Omega switch and competing-mass configurables, which are never read.
- The offline cut configurator (bit-layout encoding and variation enumeration) is not part of
  this model. Its layout logic lives in headers that are not part of this model either. The
  tutorial task only fills histograms.
- Out-of-range reads in an accepted event are undefined in the source: a cascade stored
  fewer than three records into its collision's group, a kept cascade whose daughters have
  too few child references, or a V0 daughter missing the slot its resolution reads. The
  model requires them away for accepted events only (`ReadableV0Event`,
  `ReadableCascadeEvent`), rather than modelling an error outcome; rejected events are
  never read and carry no such requirement.
- The particle-type numbering and the width of the cut container are declared in a data-model
  header that is not part of this model. Masks are modelled as 32-bit values, which holds
  every shipped default.
- Idempotence of re-running the pass on its own output is not stated. Output rows carry no
  selection verdicts, and cascade daughters are re-emitted with their own type tags.
