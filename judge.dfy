/** The hit judge: on a hit action at game time `t` with the hitbox at depth
    `z`, every unhit note inside both the time window and the distance window
    records `t` as its hit time. A hit time of 0.0 means "not hit". */
module HitJudge {
  import opened Tuning
  import opened Schedule
  import Hitbox

  /** `t` lies within `HIT_TIME` of the note's scheduled time, both ends included. */
  predicate InHitWindow(noteTime: real, t: real) {
    noteTime - HIT_TIME <= t <= noteTime + HIT_TIME
  }

  /** Signed offset between a note at radial `distance` and the hitbox at
      depth `z`, in note-distance units. */
  function PositionDiff(distance: real, z: real): (r: real)
    ensures r == 0.0 <==> z == -distance / NOTE_TO_HITBOX_RATIO
    ensures z < -distance / NOTE_TO_HITBOX_RATIO ==> r < 0.0
  {
    distance + z * NOTE_TO_HITBOX_RATIO
  }

  predicate NearHitbox(distance: real, z: real) {
    -MAX_NOTE_TO_HITBOX_DIST <= PositionDiff(distance, z) <= MAX_NOTE_TO_HITBOX_DIST
  }

  /** Note `i`, whose recorded hit time is `h`, is struck by a hit at time `t`
      with the hitbox at depth `z`. */
  predicate Qualifies(notes: seq<real>, distances: seq<real>, i: nat, t: real, z: real, h: real)
    requires i < |notes| && i < |distances|
  {
    InHitWindow(NoteTime(notes, i), t) && h == 0.0 && NearHitbox(distances[i], z)
  }

  /** The hit times after one hit action: qualifying notes record `t`. */
  function Judge(notes: seq<real>, distances: seq<real>, hitTimes: seq<real>, t: real, z: real): (r: seq<real>)
    requires |notes| == NUM_NOTES && |distances| == NUM_NOTES && |hitTimes| == NUM_NOTES
    ensures |r| == NUM_NOTES
    ensures forall i :: 0 <= i < NUM_NOTES ==> r[i] == hitTimes[i] || (hitTimes[i] == 0.0 && r[i] == t)
    ensures forall i :: 0 <= i < NUM_NOTES && Qualifies(notes, distances, i, t, z, hitTimes[i]) ==> r[i] == t
  {
    seq(NUM_NOTES, i requires 0 <= i < NUM_NOTES =>
      if Qualifies(notes, distances, i, t, z, hitTimes[i]) then t else hitTimes[i])
  }

  /** Every time inside the hit window of a note of a valid schedule is
      positive, so recording it can never be mistaken for the 0.0 "not hit"
      sentinel. */
  lemma HitWindowPositive(notes: seq<real>, distances: seq<real>, i: nat, t: real)
    requires ValidSchedule(notes, distances) && i < NUM_NOTES
    requires InHitWindow(NoteTime(notes, i), t)
    ensures t > 0.0
  {}

  /** An entry changes exactly when its note qualifies, and then it becomes
      `t`: every qualifying note is marked in the same action, not only the
      nearest one, and every other entry is left alone. */
  lemma JudgeMarksExactlyQualifying(notes: seq<real>, distances: seq<real>, hitTimes: seq<real>, t: real, z: real)
    requires ValidSchedule(notes, distances) && |hitTimes| == NUM_NOTES
    ensures forall i :: 0 <= i < NUM_NOTES ==>
      (Judge(notes, distances, hitTimes, t, z)[i] != hitTimes[i] <==> Qualifies(notes, distances, i, t, z, hitTimes[i]))
    ensures forall i :: 0 <= i < NUM_NOTES && Qualifies(notes, distances, i, t, z, hitTimes[i]) ==>
      Judge(notes, distances, hitTimes, t, z)[i] == t
  {}

  /** A note that already has a hit time keeps it: a note is judged at most once. */
  lemma JudgeKeepsRecorded(notes: seq<real>, distances: seq<real>, hitTimes: seq<real>, t: real, z: real, i: nat)
    requires |notes| == NUM_NOTES && |distances| == NUM_NOTES && |hitTimes| == NUM_NOTES
    requires i < NUM_NOTES && hitTimes[i] != 0.0
    ensures Judge(notes, distances, hitTimes, t, z)[i] == hitTimes[i]
  {}

  /** Judging twice with the same time and depth is the same as judging once. */
  lemma JudgeIdempotent(notes: seq<real>, distances: seq<real>, hitTimes: seq<real>, t: real, z: real)
    requires |notes| == NUM_NOTES && |distances| == NUM_NOTES && |hitTimes| == NUM_NOTES
    ensures Judge(notes, distances, Judge(notes, distances, hitTimes, t, z), t, z) == Judge(notes, distances, hitTimes, t, z)
  {}

  /** The distance window, read in hitbox terms: a note is near the hitbox
      exactly when the hitbox depth is within `MAX_NOTE_TO_HITBOX_DIST /
      NOTE_TO_HITBOX_RATIO` of the depth aligned with the note. */
  lemma QualifiesInDepthTerms(notes: seq<real>, distances: seq<real>, i: nat, t: real, z: real, h: real)
    requires i < |notes| && i < |distances|
    ensures Qualifies(notes, distances, i, t, z, h) <==>
      (&& h == 0.0
       && NoteTime(notes, i) - HIT_TIME <= t <= NoteTime(notes, i) + HIT_TIME
       && AlignedDepth(distances[i]) - MAX_NOTE_TO_HITBOX_DIST / NOTE_TO_HITBOX_RATIO <= z
       && z <= AlignedDepth(distances[i]) + MAX_NOTE_TO_HITBOX_DIST / NOTE_TO_HITBOX_RATIO)
  {
    assert PositionDiff(distances[i], z) == (z - AlignedDepth(distances[i])) * NOTE_TO_HITBOX_RATIO;
  }

  /** A recorded hit time of note `i` is either the sentinel or a positive
      instant of its hit window no later than the current time `now`. */
  predicate WellRecorded(notes: seq<real>, i: nat, h: real, now: real)
    requires i < |notes|
  {
    h == 0.0 || (0.0 < h <= now && InHitWindow(NoteTime(notes, i), h))
  }

  predicate AllWellRecorded(notes: seq<real>, hitTimes: seq<real>, now: real) {
    |hitTimes| == |notes| && forall i :: 0 <= i < |notes| ==> WellRecorded(notes, i, hitTimes[i], now)
  }

  /** Judging at the current time keeps every hit time well recorded. */
  lemma JudgeKeepsWellRecorded(notes: seq<real>, distances: seq<real>, hitTimes: seq<real>, t: real, z: real)
    requires ValidSchedule(notes, distances) && AllWellRecorded(notes, hitTimes, t)
    ensures AllWellRecorded(notes, Judge(notes, distances, hitTimes, t, z), t)
  {}

  /** Recorded hit times stay well recorded as the clock advances. */
  lemma WellRecordedLater(notes: seq<real>, hitTimes: seq<real>, t1: real, t2: real)
    requires AllWellRecorded(notes, hitTimes, t1) && t1 <= t2
    ensures AllWellRecorded(notes, hitTimes, t2)
  {}

  /** Hitbox depth that puts a note at radial `distance` exactly under the hitbox. */
  function AlignedDepth(distance: real): (z: real)
    ensures PositionDiff(distance, z) == 0.0
  {
    -distance / NOTE_TO_HITBOX_RATIO
  }

  /** The note on beat 12 (index 1), struck exactly on time with the hitbox
      aligned to it, is recorded as hit at that instant. */
  lemma OnTimeAlignedHitIsJudged(hitTimes: seq<real>)
    requires |hitTimes| == NUM_NOTES && hitTimes[1] == 0.0
    ensures Notes[1] == 12.0
    ensures PositionDiff(NotesDistance[1], AlignedDepth(NotesDistance[1])) == 0.0
    ensures HITBOX_MOVEMENT_OUTWARD_BOUND <= AlignedDepth(NotesDistance[1]) <= HITBOX_MOVEMENT_INWARD_BOUND
    ensures Judge(Notes, NotesDistance, hitTimes, NoteTime(Notes, 1), AlignedDepth(NotesDistance[1]))[1]
      == NoteTime(Notes, 1)
  {}

  /** The same note struck 0.01 s after its hit window closes is not judged. */
  lemma LateHitIsNotJudged(hitTimes: seq<real>)
    requires |hitTimes| == NUM_NOTES
    ensures Judge(Notes, NotesDistance, hitTimes, NoteTime(Notes, 1) + HIT_TIME + 0.01, AlignedDepth(NotesDistance[1]))[1]
      == hitTimes[1]
  {}

  /** In the built-in schedule two notes are more than two hit tolerances
      apart, so no instant lies in the hit window of two notes. */
  lemma BuiltInHitWindowsDisjoint(i: nat, j: nat, t: real)
    requires i < NUM_NOTES && j < NUM_NOTES
    requires InHitWindow(NoteTime(Notes, i), t) && InHitWindow(NoteTime(Notes, j), t)
    ensures i == j
  {
    if i < j {
      NotesAtLeastOneBeatApart(i, j);
    } else if j < i {
      NotesAtLeastOneBeatApart(j, i);
    }
  }

  /** Although the judge marks every qualifying note, with the built-in
      schedule one hit action marks at most one note. */
  lemma BuiltInJudgeMarksAtMostOne(hitTimes: seq<real>, t: real, z: real)
    requires |hitTimes| == NUM_NOTES
    ensures forall i, j ::
              (&& 0 <= i < NUM_NOTES && 0 <= j < NUM_NOTES
               && Judge(Notes, NotesDistance, hitTimes, t, z)[i] != hitTimes[i]
               && Judge(Notes, NotesDistance, hitTimes, t, z)[j] != hitTimes[j])
              ==> i == j
  {
    forall i, j | 0 <= i < NUM_NOTES && 0 <= j < NUM_NOTES
      && Judge(Notes, NotesDistance, hitTimes, t, z)[i] != hitTimes[i]
      && Judge(Notes, NotesDistance, hitTimes, t, z)[j] != hitTimes[j]
      ensures i == j
    {
      BuiltInHitWindowsDisjoint(i, j, t);
    }
  }

  /** Every note of the built-in schedule can be put exactly under the
      hitbox without leaving the hitbox's travel range. */
  lemma BuiltInNotesReachable()
    ensures forall i :: 0 <= i < NUM_NOTES ==>
      Hitbox.InTravelRange(AlignedDepth(NotesDistance[i])) && PositionDiff(NotesDistance[i], AlignedDepth(NotesDistance[i])) == 0.0
  {}
}
