/** The note envelope: the displayed size of a note as a function of game time
    and of the instant it was hit (0.0 while unhit), and the early stop of the
    per-frame envelope pass at the first note that is not yet visible. */
module NoteEnvelope {
  import opened Tuning
  import opened Schedule

  /** First instant at which a note scheduled at `noteTime` shows at all. */
  function AppearTime(noteTime: real): (r: real)
    ensures r < noteTime
  {
    noteTime - HOLD_TIME - FADE_IN_TIME
  }

  /** Size of a note scheduled at `noteTime`, at game time `t`, whose recorded
      hit time is `hitTime` (0.0 meaning "not hit"): hidden, fading in, and then
      either decaying from the hit instant or held and fading out. */
  function Envelope(noteTime: real, t: real, hitTime: real): (s: real)
    ensures (hitTime > 0.0 ==> hitTime <= t) ==> 0.0 <= s <= NOTE_SCALE
    ensures t < AppearTime(noteTime) ==> s == 0.0
  {
    if t < AppearTime(noteTime) then
      0.0
    else if t < noteTime - HOLD_TIME then
      (t - AppearTime(noteTime)) * FADE_IN_SPEED
    else if hitTime > 0.0 then
      Max(0.0, NOTE_SCALE - (t - hitTime) * HIT_OUT_SPEED)
    else if t < noteTime + HOLD_TIME then
      NOTE_SCALE
    else if t < noteTime + HOLD_TIME + FADE_OUT_TIME then
      NOTE_SCALE - (t - (noteTime + HOLD_TIME)) * FADE_OUT_SPEED
    else
      0.0
  }

  /** While fading in, the size grows linearly from 0 at the appear time and
      is half the full size at the midpoint of the fade-in phase. */
  lemma FadeIn(noteTime: real, t: real, hitTime: real)
    requires AppearTime(noteTime) <= t < noteTime - HOLD_TIME
    ensures Envelope(noteTime, t, hitTime) == (t - AppearTime(noteTime)) * (NOTE_SCALE / FADE_IN_TIME)
    ensures 0.0 <= Envelope(noteTime, t, hitTime) < NOTE_SCALE
    ensures t == AppearTime(noteTime) + FADE_IN_TIME / 2.0 ==> Envelope(noteTime, t, hitTime) == NOTE_SCALE / 2.0
  {}

  /** Once the fade-in is over, a hit note decays linearly from the hit instant
      and is gone `HIT_OUT_TIME` after it; the hold and fade-out phases are not
      used. */
  lemma HitDecay(noteTime: real, t: real, hitTime: real)
    requires hitTime > 0.0 && noteTime - HOLD_TIME <= t
    ensures Envelope(noteTime, t, hitTime) == Max(0.0, NOTE_SCALE - (t - hitTime) * HIT_OUT_SPEED)
    ensures t >= hitTime + HIT_OUT_TIME ==> Envelope(noteTime, t, hitTime) == 0.0
  {}

  /** A hit can only be recorded inside the hit window, which lies inside the
      hold phase; so from the hit instant on, the note follows the hit decay
      and never the fade-in, hold or fade-out formulas. */
  lemma RecordedHitDecays(noteTime: real, t: real, hitTime: real)
    requires hitTime > 0.0 && noteTime - HIT_TIME <= hitTime <= noteTime + HIT_TIME
    requires hitTime <= t
    ensures Envelope(noteTime, t, hitTime) == Max(0.0, NOTE_SCALE - (t - hitTime) * HIT_OUT_SPEED)
    ensures Envelope(noteTime, hitTime, hitTime) == NOTE_SCALE
  {}

  /** An unhit note is at full size during the whole hit window, so a note the
      player can still strike is always fully shown. */
  lemma FullSizeDuringHitWindow(noteTime: real, t: real)
    requires noteTime - HIT_TIME <= t <= noteTime + HIT_TIME
    ensures Envelope(noteTime, t, 0.0) == NOTE_SCALE
  {}

  /** An unhit note only grows before its scheduled time and only shrinks
      after it. */
  lemma UnhitRisesThenFalls(noteTime: real, t1: real, t2: real)
    requires t1 <= t2
    ensures t2 <= noteTime ==> Envelope(noteTime, t1, 0.0) <= Envelope(noteTime, t2, 0.0)
    ensures noteTime <= t1 ==> Envelope(noteTime, t1, 0.0) >= Envelope(noteTime, t2, 0.0)
  {
    if noteTime <= t1 && noteTime + HOLD_TIME <= t1 && t2 < noteTime + HOLD_TIME + FADE_OUT_TIME {
      assert Envelope(noteTime, t1, 0.0) - Envelope(noteTime, t2, 0.0) == (t2 - t1) * FADE_OUT_SPEED;
    }
  }

  /** A hit note never grows again after the hit instant. */
  lemma HitOnlyShrinks(noteTime: real, t1: real, t2: real, hitTime: real)
    requires hitTime > 0.0 && noteTime - HIT_TIME <= hitTime <= noteTime + HIT_TIME
    requires hitTime <= t1 <= t2
    ensures Envelope(noteTime, t2, hitTime) <= Envelope(noteTime, t1, hitTime)
  {}

  /** First instant at which note `i` of the schedule shows. */
  function NoteAppearTime(notes: seq<real>, i: nat): (r: real)
    requires i < |notes|
    ensures r < NoteTime(notes, i)
  {
    AppearTime(NoteTime(notes, i))
  }

  /** Index at which the envelope pass, started at note `from`, stops: the
      first note not yet visible at time `t`, or the number of notes if there
      is none. */
  function FirstHiddenFrom(notes: seq<real>, t: real, from: nat): (k: nat)
    requires from <= |notes|
    ensures from <= k <= |notes|
    ensures forall i :: from <= i < k ==> NoteAppearTime(notes, i) <= t
    ensures k < |notes| ==> t < NoteAppearTime(notes, k)
    decreases |notes| - from
  {
    if from == |notes| then from
    else if t < NoteAppearTime(notes, from) then from
    else FirstHiddenFrom(notes, t, from + 1)
  }

  /** Index at which the envelope pass over the whole schedule stops. */
  function FirstHidden(notes: seq<real>, t: real): (k: nat)
    ensures k <= |notes|
    ensures forall i :: 0 <= i < k ==> NoteAppearTime(notes, i) <= t
    ensures k < |notes| ==> t < NoteAppearTime(notes, k)
  {
    FirstHiddenFrom(notes, t, 0)
  }

  /** The first built-in note (beat 6) appears 3/13 s before the clock
      starts, so at time 0 its envelope is already 3/26 of full size (about
      11.5 %). Scales are only recomputed while the game is in progress, so on
      the first frame of play that note jumps from 0 to that size rather than
      fading in from 0. */
  lemma FirstNoteVisibleAtClockStart()
    ensures NoteAppearTime(Notes, 0) == -3.0 / 13.0
    ensures NoteAppearTime(Notes, 0) < 0.0
    ensures Envelope(NoteTime(Notes, 0), 0.0, 0.0) == NOTE_SCALE * 3.0 / 26.0
  {}

  /** Because the schedule is increasing, the notes before the stop index are
      exactly the visible ones: stopping at the first hidden note skips only
      hidden notes. */
  lemma FirstHiddenSplits(notes: seq<real>, t: real)
    requires Increasing(notes)
    ensures forall i :: 0 <= i < |notes| ==> (i < FirstHidden(notes, t) <==> NoteAppearTime(notes, i) <= t)
  {}

  /** The stop index never moves back as time advances. */
  lemma FirstHiddenMonotone(notes: seq<real>, t1: real, t2: real)
    requires Increasing(notes) && t1 <= t2
    ensures FirstHidden(notes, t1) <= FirstHidden(notes, t2)
  {}

  /** A scale array fits the state of the game at time `t`: one scale per
      note, every scale within the envelope's range, and 0 for a note that
      has not appeared yet. */
  predicate ScalesConsistent(notes: seq<real>, scales: seq<real>, t: real) {
    && |scales| == |notes|
    && (forall i :: 0 <= i < |notes| ==> 0.0 <= scales[i] <= NOTE_SCALE)
    && (forall i :: 0 <= i < |notes| && t < NoteAppearTime(notes, i) ==> scales[i] == 0.0)
  }

  /** The envelope pass that recomputes the notes before the first hidden one
      and leaves the rest alone yields the envelope of EVERY note, because the
      notes it skips are hidden and were already at 0. */
  lemma PassYieldsEnvelope(notes: seq<real>, before: seq<real>, after: seq<real>, hitTimes: seq<real>, t: real)
    requires Increasing(notes) && ScalesConsistent(notes, before, t)
    requires |after| == |notes| && |hitTimes| == |notes|
    requires forall i :: 0 <= i < |notes| ==> hitTimes[i] > 0.0 ==> hitTimes[i] <= t
    requires forall i :: 0 <= i < FirstHidden(notes, t) ==> after[i] == Envelope(NoteTime(notes, i), t, hitTimes[i])
    requires forall i :: FirstHidden(notes, t) <= i < |notes| ==> after[i] == before[i]
    ensures forall i :: 0 <= i < |notes| ==> after[i] == Envelope(NoteTime(notes, i), t, hitTimes[i])
    ensures ScalesConsistent(notes, after, t)
  {}

  /** Advancing the clock keeps a scale array consistent: a note hidden at the
      later time was hidden at the earlier one. */
  lemma ScalesConsistentLater(notes: seq<real>, scales: seq<real>, t1: real, t2: real)
    requires ScalesConsistent(notes, scales, t1) && t1 <= t2
    ensures ScalesConsistent(notes, scales, t2)
  {}
}
