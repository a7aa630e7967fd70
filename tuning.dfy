/** Fixed gameplay configuration of the play mode: hitbox travel, note-to-hitbox
    proximity, tempo and the note envelope timings. Every value is the source's
    `float` constant read as an exact real number. */
module Tuning {

  // Hitbox depth travel (the hitbox moves along its local z axis).
  const HITBOX_MOVEMENT_OUTWARD_BOUND: real := -1.85
  const HITBOX_MOVEMENT_INWARD_BOUND: real := -0.4
  const HITBOX_MOVEMENT_SPEED: real := 1.5

  // Normalises a hitbox depth into note-distance units.
  const NOTE_OUTWARD_BOUND: real := 0.84
  const NOTE_TO_HITBOX_RATIO: real := -NOTE_OUTWARD_BOUND / HITBOX_MOVEMENT_OUTWARD_BOUND
  const MAX_NOTE_TO_HITBOX_DIST: real := 0.1

  // Seconds per beat at 130 beats per minute.
  const BEAT_SPEED: real := 60.0 / 130.0

  // Note envelope: full size, phase lengths in seconds and the slopes derived from them.
  const NOTE_SCALE: real := 0.07
  const FADE_IN_TIME: real := 2.0
  const FADE_IN_SPEED: real := NOTE_SCALE / FADE_IN_TIME
  const HOLD_TIME: real := 1.0
  const HIT_TIME: real := 0.2
  const FADE_OUT_TIME: real := 1.0
  const FADE_OUT_SPEED: real := NOTE_SCALE / FADE_OUT_TIME
  const HIT_OUT_TIME: real := 0.3
  const HIT_OUT_SPEED: real := NOTE_SCALE / HIT_OUT_TIME

  /** `std::min` on two floats. */
  function Min(a: real, b: real): (r: real)
    ensures r <= a && r <= b
    ensures r == a || r == b
  {
    if b < a then b else a
  }

  /** `std::max` on two floats. */
  function Max(a: real, b: real): (r: real)
    ensures a <= r && b <= r
    ensures r == a || r == b
  {
    if a < b then b else a
  }
}
