/** The compiled-in note schedule: for each of the `num_notes` notes, its beat
    and its radial distance from the clock centre. The two lists are parallel:
    entry `i` of each describes note `i`. */
module Schedule {
  import opened Tuning

  const NUM_NOTES: nat := 60

  /** Beat of each note, one row per line of the `notes` vector in
      PlayMode.hpp. */
  const Notes: seq<real> :=
    [6.0] +
    [12.0, 14.0, 15.0, 17.0, 18.0, 20.0, 21.0] +
    [24.0, 26.0, 27.0, 28.0, 29.0, 30.0, 33.0] +
    [36.0, 38.0, 39.0, 41.0, 42.0, 44.0, 45.0] +
    [48.0, 50.0, 51.0, 52.0, 54.0, 55.0, 58.0, 59.0] +
    [60.0, 63.0, 65.0, 66.0, 69.0] +
    [72.0, 75.0, 76.0, 77.0, 78.0, 81.0] +
    [84.0, 87.0, 90.0, 92.0, 93.0, 95.0] +
    [96.0, 99.0, 101.0, 102.0, 105.0, 107.0] +
    [108.0, 109.0, 110.0, 111.0, 112.0, 113.0, 114.0]

  /** Radial distance of each note, parallel to `Notes`. */
  const NotesDistance: seq<real> :=
    [0.7] +
    [0.3, 0.4, 0.5, 0.8, 0.7, 0.5, 0.5] +
    [0.8, 0.7, 0.6, 0.5, 0.3, 0.4, 0.7] +
    [0.3, 0.4, 0.5, 0.6, 0.7, 0.8, 0.7] +
    [0.6, 0.5, 0.5, 0.4, 0.3, 0.4, 0.5, 0.5] +
    [0.6, 0.7, 0.5, 0.5, 0.6] +
    [0.7, 0.8, 0.8, 0.7, 0.6, 0.5] +
    [0.6, 0.8, 0.4, 0.5, 0.6, 0.3] +
    [0.4, 0.6, 0.6, 0.7, 0.5, 0.4] +
    [0.5, 0.5, 0.5, 0.7, 0.7, 0.7, 0.6]

  /** A later index is a strictly later beat. */
  predicate Increasing(notes: seq<real>) {
    forall i, j :: 0 <= i < j < |notes| ==> notes[i] < notes[j]
  }

  /** What the play mode relies on in a schedule: one beat and one distance
      per note, beats strictly increasing from beat 6 on, distances on the
      clock face. */
  predicate ValidSchedule(notes: seq<real>, distances: seq<real>) {
    && |notes| == NUM_NOTES
    && |distances| == NUM_NOTES
    && Increasing(notes)
    && 6.0 <= notes[0]
    && (forall i :: 0 <= i < NUM_NOTES ==> 0.18 <= distances[i] <= 0.84)
  }

  /** Scheduled time of note `i` in seconds of game time. */
  function NoteTime(notes: seq<real>, i: nat): (r: real)
    requires i < |notes|
  {
    notes[i] * BEAT_SPEED
  }

  /** Both lists hold exactly one entry per note, so indexing either by a note
      index is in bounds. */
  lemma ScheduleLengths()
    ensures |Notes| == NUM_NOTES && |NotesDistance| == NUM_NOTES
  {}

  /** Each beat is strictly later than the one before it. */
  lemma NotesAdjacentIncreasing()
    ensures forall i :: 0 <= i < NUM_NOTES - 1 ==> Notes[i] < Notes[i + 1]
  {}

  lemma {:induction false} NotesIncreasingPair(i: nat, j: nat)
    requires i < j < NUM_NOTES
    ensures Notes[i] < Notes[j]
    decreases j - i
  {
    NotesAdjacentIncreasing();
    if i + 1 < j {
      NotesIncreasingPair(i + 1, j);
    }
  }

  /** The schedule is strictly increasing: a later index is a later beat. */
  lemma NotesIncreasing()
    ensures forall i, j :: 0 <= i < j < NUM_NOTES ==> Notes[i] < Notes[j]
  {
    forall i, j | 0 <= i < j < NUM_NOTES
      ensures Notes[i] < Notes[j]
    {
      NotesIncreasingPair(i, j);
    }
  }

  /** Consecutive notes are at least one beat apart. */
  lemma NotesAdjacentGap()
    ensures forall i :: 0 <= i < NUM_NOTES - 1 ==> Notes[i] + 1.0 <= Notes[i + 1]
  {}

  /** Any two notes of the schedule are at least one beat apart. */
  lemma {:induction false} NotesAtLeastOneBeatApart(i: nat, j: nat)
    requires i < j < NUM_NOTES
    ensures Notes[i] + 1.0 <= Notes[j]
    decreases j - i
  {
    NotesAdjacentGap();
    if i + 1 < j {
      NotesAtLeastOneBeatApart(i + 1, j);
    }
  }

  /** Every note lies between the inner and the outer ring of the clock face. */
  lemma DistancesInRange()
    ensures forall i :: 0 <= i < NUM_NOTES ==> 0.18 <= NotesDistance[i] <= 0.84
  {}

  /** The compiled-in schedule has every property the play mode relies on. */
  lemma BuiltInScheduleIsValid()
    ensures ValidSchedule(Notes, NotesDistance)
  {
    NotesIncreasing();
  }

  /** No note of a valid schedule comes before beat 6, so every note time,
      even minus the hit tolerance, is positive. */
  lemma NoteTimesExceedHitTime(notes: seq<real>, distances: seq<real>, i: nat)
    requires ValidSchedule(notes, distances) && i < NUM_NOTES
    ensures notes[i] >= 6.0
    ensures NoteTime(notes, i) - HIT_TIME > 0.0
  {}
}
