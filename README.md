# Rhythm-timing play mode, modelled in Dafny

This project models the gameplay core of a clock-face rhythm game (`PlayMode`).
A fixed schedule of 60 notes, each a beat and a radial distance, plays at 130
beats per minute. Each frame of play (once RETURN has started the clock),
every note that has appeared gets a displayed scale from its envelope: it fades in, holds, then fades out, or it shrinks
away from the instant it was hit. The player moves a hitbox in and out along
one axis. A hit action marks every unhit note that is inside both the time
window and the distance window around the hitbox. RETURN starts the game
clock, which then advances by each frame's duration.

Modules, leaf to root:

- `Tuning` (`tuning.dfy`): the gameplay constants, read as exact reals.
- `Schedule` (`schedule.dfy`): the built-in beat and distance lists, and
  `ValidSchedule`, the facts about a schedule that the rest of the model uses.
- `NoteEnvelope` (`envelope.dfy`): the envelope as a pure function, and the
  early stop of the per-frame pass at the first hidden note.
- `HitJudge` (`judge.dfy`): the hit test and `Judge`, which gives the hit-time
  list after one hit action.
- `Hitbox` (`hitbox.dfy`): one frame of clamped hitbox movement, and runs of
  many frames.
- `Game` (`game.dfy`): the session object as the class `PlayMode`.
  - Its fields are the game state, the clock, the seven logical buttons, the
    hitbox depth, the two schedule lists, and two arrays of 60 entries: the
    hit times and the note scales.
  - Its methods change those fields in place, as `update_note`, `hit_note`,
    `update` and the key branches of `handle_event` do.
  - Its invariant `Valid()` says:
    - the end state is never entered;
    - the clock is 0 until the game starts;
    - the hitbox stays within its travel range;
    - every stored hit time is 0.0 ("not hit") or a positive instant inside
      that note's hit window and no later than now;
    - every scale is in `[0, NOTE_SCALE]`, and is 0 for a note that has not
      appeared yet.

The loops of `update_note` and `hit_note` become `while` loops over the
arrays. Each is proved against a pure function: `Envelope` for the scales,
`Judge` for the hit times. The properties of those functions are lemmas.

Three facts about the code that the model follows:

- `NOTE_TO_HITBOX_RATIO` in `PlayMode.cpp` is
  `-NOTE_OUTWARD_BOUND / HITBOX_MOVEMENT_OUTWARD_BOUND`, a positive number
  (about 0.454).
- `update_note` in `PlayMode.cpp` writes no scale for a note that is not yet
  visible: it stops the whole pass at the first such note. That is correct only because the schedule is increasing
  (`NoteEnvelope.FirstHiddenSplits`). It is also correct only because a
  hidden note's scale is still 0 from its initialisation (part of `Valid()`).
- `PlayMode.hpp` declares the two lists separately, and no code compares their
  lengths. The model proves that both built-in lists have 60 entries.

## Model

| member | source | states |
|---|---|---|
| Schedule.ScheduleLengths | PlayMode.hpp:57-81 | The beat list and the distance list each have exactly `num_notes` = 60 entries, so indexing either by a note index is in bounds. |
| Schedule.NotesIncreasing | PlayMode.hpp:60-70 | The beat list is strictly increasing over every pair of indices. |
| Schedule.NotesIncreasingPair | PlayMode.hpp:60-70 | For any two indices `i < j`, beat `i` is strictly smaller than beat `j`. |
| Schedule.NotesAtLeastOneBeatApart | PlayMode.hpp:60-70 | Any two notes are at least one whole beat apart. |
| Schedule.DistancesInRange | PlayMode.hpp:71-81 | Every note distance lies in `[0.18, 0.84]`, as the list's trailing comment claims. |
| Schedule.BuiltInScheduleIsValid | PlayMode.hpp:57-81 | The built-in lists satisfy `ValidSchedule`: right lengths, strictly increasing beats starting at beat 6 or later, distances in range. |
| Schedule.NoteTimesExceedHitTime | PlayMode.hpp:60-61 | In a valid schedule every beat is at least 6, so every note time minus `HIT_TIME` is positive. |
| Tuning.Min | PlayMode.cpp:315 | `std::min`: the result is one of the two arguments and no larger than either. |
| Tuning.Max | PlayMode.cpp:319 | `std::max`: the result is one of the two arguments and no smaller than either. |
| NoteEnvelope.AppearTime | PlayMode.cpp:189 | A note appears strictly earlier than its scheduled time. |
| NoteEnvelope.Envelope | PlayMode.cpp:189-211 | Before the appear time the scale is exactly 0. The scale lies in `[0, NOTE_SCALE]` in every branch, given one condition: a recorded (positive) hit time is not later than the current time. |
| NoteEnvelope.FadeIn | PlayMode.cpp:191-194 | During fade-in the scale is `(t - (noteTime - HOLD - FADE_IN)) * NOTE_SCALE / FADE_IN_TIME`. It stays below full size and is exactly half of it at the fade-in midpoint. |
| NoteEnvelope.HitDecay | PlayMode.cpp:195-199 | After fade-in, a hit note's scale is `max(0, NOTE_SCALE - (t - h) * HIT_OUT_SPEED)`. It is 0 from `h + HIT_OUT_TIME` on. |
| NoteEnvelope.RecordedHitDecays | PlayMode.cpp:195-199 | A hit recorded inside the hit window runs the hit decay at every `t >= h`, never the fade-in, hold or fade-out formulas. At the hit instant the note is at full size. |
| NoteEnvelope.FullSizeDuringHitWindow | PlayMode.cpp:200-203 | An unhit note is at full size throughout its hit window. |
| NoteEnvelope.UnhitRisesThenFalls | PlayMode.cpp:191-211 | An unhit note's scale never decreases before its scheduled time and never increases after it. |
| NoteEnvelope.HitOnlyShrinks | PlayMode.cpp:196-199 | A hit note's scale never increases after the hit instant. |
| NoteEnvelope.FirstHiddenFrom | PlayMode.cpp:188-190 | The stop index of the pass: every note before it has appeared, and the note at it (if any) has not. |
| NoteEnvelope.NoteAppearTime | PlayMode.cpp:189 | The appear instant of note `i` of a schedule comes strictly before that note's time. |
| NoteEnvelope.FirstHidden | PlayMode.cpp:188-190 | The index at which the pass over the whole schedule stops: at most the number of notes, every earlier note has appeared, and the note at it (if any) has not. |
| NoteEnvelope.FirstNoteVisibleAtClockStart | PlayMode.cpp:322-338 | Note 0 (beat 6) appears at −3/13 s, so at clock 0 its envelope is already 3/26 of full size. Scales are recomputed only while in progress, so on the first frame of play it jumps from 0 to that size instead of fading in from 0. |
| NoteEnvelope.FirstHiddenSplits | PlayMode.cpp:188-190 | In an increasing schedule, a note is before the stop index exactly when it has appeared. So the early stop skips only hidden notes. |
| NoteEnvelope.FirstHiddenMonotone | PlayMode.cpp:188-190 | The stop index never moves back as time advances. |
| NoteEnvelope.PassYieldsEnvelope | PlayMode.cpp:187-215 | The pass recomputes the notes before the stop index and leaves the rest alone. The result is the envelope of every note, and the scales stay consistent. |
| NoteEnvelope.ScalesConsistentLater | PlayMode.cpp:322-323 | Advancing the clock keeps the scales consistent: a note hidden later was already hidden earlier. |
| HitJudge.PositionDiff | PlayMode.cpp:219 | The note/hitbox offset `distance + z * NOTE_TO_HITBOX_RATIO` is 0 exactly at depth `-distance / NOTE_TO_HITBOX_RATIO`, and negative at any depth further outward (smaller `z`) than that. |
| HitJudge.AlignedDepth | PlayMode.cpp:219 | At the aligned depth the note/hitbox offset is exactly 0. |
| HitJudge.QualifiesInDepthTerms | PlayMode.cpp:219-221 | A note qualifies exactly when it is unhit, `t` is within `HIT_TIME` of its time (ends included), and the hitbox depth is within `MAX_NOTE_TO_HITBOX_DIST / NOTE_TO_HITBOX_RATIO` of the aligned depth. |
| HitJudge.Judge | PlayMode.cpp:217-225 | The result has `num_notes` entries. Each entry either keeps its old value or goes from 0.0 ("not hit") to `t`, and every qualifying note is set to `t`. |
| HitJudge.HitWindowPositive | PlayMode.cpp:220-222 | Any time that can be recorded as a hit is positive, so it is never mistaken for the 0.0 "not hit" sentinel. |
| HitJudge.JudgeMarksExactlyQualifying | PlayMode.cpp:217-225 | An entry changes exactly when its note qualifies (time window, unhit, distance window), and it then becomes the current time. Every qualifying note is marked and no other entry changes. |
| HitJudge.JudgeKeepsRecorded | PlayMode.cpp:221 | A nonzero hit time is never overwritten. |
| HitJudge.JudgeIdempotent | PlayMode.cpp:217-225 | For any schedule of the right lengths, judging twice with the same time and depth gives the same list as judging once. |
| HitJudge.JudgeKeepsWellRecorded | PlayMode.cpp:220-222 | After judging at the current time, every hit time is still 0.0 or a positive instant of its window, not later than now. |
| HitJudge.WellRecordedLater | PlayMode.cpp:323 | Hit times stay well recorded as the clock advances. |
| HitJudge.OnTimeAlignedHitIsJudged | PlayMode.cpp:219-222 | The beat-12 note (index 1) is struck exactly on time with the hitbox aligned to it (the aligned depth is within travel). It is recorded as hit at that instant. |
| HitJudge.LateHitIsNotJudged | PlayMode.cpp:220 | The same note struck 0.01 s after its window closes is not judged. |
| HitJudge.BuiltInHitWindowsDisjoint | PlayMode.hpp:60-70 | With the built-in schedule, no instant lies in two notes' hit windows. |
| HitJudge.BuiltInJudgeMarksAtMostOne | PlayMode.cpp:218-224 | With the built-in schedule, one hit action changes at most one entry, although the judge marks every qualifying note. |
| HitJudge.BuiltInNotesReachable | PlayMode.cpp:22-27 | Every built-in note can be put exactly under the hitbox, at a depth inside the hitbox's travel range. |
| Hitbox.Step | PlayMode.cpp:313-320 | With a non-negative frame time, a depth inside the travel range stays inside it. |
| Hitbox.StepCases | PlayMode.cpp:313-320 | Inward-only input gives `min(INWARD, z + SPEED*elapsed)`. Outward-only gives `max(OUTWARD, z - SPEED*elapsed)`. Both held or neither held leaves `z` unchanged. |
| Hitbox.StepSaturates | PlayMode.cpp:313-320 | Input held long enough to overshoot leaves the hitbox exactly on the inward (or outward) bound. |
| Hitbox.StepMovesTowardInput | PlayMode.cpp:313-320 | Inward input never moves the hitbox outward, and outward input never moves it inward. |
| Hitbox.RunStaysInRange | PlayMode.cpp:313-320 | From any depth in range, including the initial outward bound, any sequence of frames with non-negative frame times keeps the depth in range. |
| Game.Press | PlayMode.cpp:234-235 | A key-down holds the button and counts one press in 8 bits: below 255 the counter goes up by one, at 255 it wraps to 0. |
| Game.Release | PlayMode.cpp:271 | A key-up releases the button and leaves its press counter as it was. |
| Game.ClearDowns | PlayMode.cpp:363-368 | The press counter becomes 0 and the held flag is kept. |
| Game.HeldButton | PlayMode.cpp:233-256 | A, D, W, S, Z and X map to a movement button; ESCAPE, RETURN, SPACE and every other key map to none; no key maps to the hit button. |
| Game.PressReleaseClear | PlayMode.cpp:363-368 | After key-down and key-up in one frame the press is still counted (one more, below the wrap) and the button is not held; the end-of-frame reset then leaves it fully released. |
| Game.HeldButtonInjective | PlayMode.cpp:270-287 | Two keys that hold a button hold the same button only if they are the same key, so each key-up releases exactly one button. |
| Game.PlayMode.constructor | PlayMode.hpp:32-39 | A fresh game is in START with `global_timer == 0`. Every button has `downs == 0` and is not pressed. The hitbox is at the outward bound (PlayMode.cpp line 143). Every hit time is 0 (PlayMode.cpp line 160) and every scale is 0 (PlayMode.cpp line 172). The invariant holds. |
| Game.PlayMode.UpdateNote | PlayMode.cpp:187-215 | Notes before the first hidden one get their envelope scale, and that note and all later ones keep their scale. So afterwards every scale equals the note's envelope. The invariant is kept. |
| Game.PlayMode.HitNote | PlayMode.cpp:217-225 | The hit-time array becomes `Judge` of its old contents at the current time and hitbox depth. The invariant is kept. |
| Game.PlayMode.KeyDown | PlayMode.cpp:229-268 | A/D/W/S/Z/X count one press (8-bit wrap) and hold their button. RETURN enters IN_PROGRESS, but only from another state. SPACE arms the hit flag only while IN_PROGRESS. The result is true exactly for ESCAPE and the six movement keys. Nothing else changes. |
| Game.PlayMode.KeyUp | PlayMode.cpp:269-288 | A/D/W/S/Z/X release their button and return true. Every other key changes nothing and returns false. |
| Game.PlayMode.MoveHitbox | PlayMode.cpp:313-320 | The hitbox depth becomes `Hitbox.Step` of the old depth under the held inward/outward input. |
| Game.PlayMode.ResetDowns | PlayMode.cpp:362-368 | The six movement buttons' press counters become 0, and their held flags are kept. |
| Game.PlayMode.Update | PlayMode.cpp:312-369 | One frame. The hitbox moves regardless of state. Only while IN_PROGRESS does the clock grow by `elapsed`, is a pending hit judged at the new time and depth and cleared, and is every scale recomputed to its envelope. Outside IN_PROGRESS the clock, hit times and scales are unchanged. The movement press counters are cleared. |

## Left out

- Drawing, GL state and the text overlay (`draw`): rendering only.
- The mesh, scene and sample loaders, and the constructor's pipeline lookup
  and transform setup: asset and scene-graph plumbing. Only the initial
  hitbox depth, hit times and note scales are modelled.
- Note placement on the clock face with `sin`/`cos`: trigonometry, which
  exact reals cannot express.
- Gear and arm rotation, camera movement from the WASD buttons, and mouse
  look with SDL relative mouse mode: quaternion and vector float maths, and
  calls into SDL. The WASD buttons' press and release bookkeeping is
  modelled; what they do to the camera is not. The ESCAPE branch is modelled
  only as "consumed" (its SDL call is left out). Mouse events are not
  modelled.
- `Sound::play` on RETURN: audio. Only the state change is modelled.
- The `score` field: no logic reads or writes it. The `END` state is declared
  but no transition enters it; `Valid()` proves it is never reached.
- Float rounding: every value is an exact real. The `float` constants (for
  example `60.0f/130`) are read as the exact decimals and fractions written
  in the source.
- Game.PlayMode.Update: requires `elapsed >= 0`. The source does not check
  this; its frame loop supplies non-negative frame durations. Clock
  monotonicity and the bounds on hit times and scales rest on it.
- `Button.pressed` is a `uint8_t` in the source but is only ever assigned
  `true` or `false`, so it is modelled as `bool`. `downs` is an 8-bit counter
  that wraps at 256. The hit button's `downs` is never changed by the source.
