/** The hitbox controller: held inward/outward input moves the hitbox depth at
    a fixed speed and clamps it to the travel range, independently of the game
    state. */
module Hitbox {
  import opened Tuning

  predicate InTravelRange(z: real) {
    HITBOX_MOVEMENT_OUTWARD_BOUND <= z <= HITBOX_MOVEMENT_INWARD_BOUND
  }

  /** Depth after one frame of `elapsed` seconds: inward-only input moves in
      and clamps at the inward bound, then outward-only input moves out and
      clamps at the outward bound. */
  function Step(z: real, inward: bool, outward: bool, elapsed: real): (r: real)
    ensures elapsed >= 0.0 && InTravelRange(z) ==> InTravelRange(r)
  {
    var movedIn :=
      if inward && !outward then Min(HITBOX_MOVEMENT_INWARD_BOUND, z + HITBOX_MOVEMENT_SPEED * elapsed)
      else z;
    if !inward && outward then Max(HITBOX_MOVEMENT_OUTWARD_BOUND, movedIn - HITBOX_MOVEMENT_SPEED * elapsed)
    else movedIn
  }

  /** The two guarded moves never both apply: each input combination has one
      outcome, and held-both or held-neither leaves the depth where it is. */
  lemma StepCases(z: real, inward: bool, outward: bool, elapsed: real)
    ensures inward && !outward ==>
      Step(z, inward, outward, elapsed) == Min(HITBOX_MOVEMENT_INWARD_BOUND, z + HITBOX_MOVEMENT_SPEED * elapsed)
    ensures !inward && outward ==>
      Step(z, inward, outward, elapsed) == Max(HITBOX_MOVEMENT_OUTWARD_BOUND, z - HITBOX_MOVEMENT_SPEED * elapsed)
    ensures inward == outward ==> Step(z, inward, outward, elapsed) == z
  {}

  /** Held inward long enough to overshoot, the hitbox rests exactly on the
      inward bound; likewise outward. */
  lemma StepSaturates(z: real, elapsed: real)
    ensures z + HITBOX_MOVEMENT_SPEED * elapsed >= HITBOX_MOVEMENT_INWARD_BOUND ==>
      Step(z, true, false, elapsed) == HITBOX_MOVEMENT_INWARD_BOUND
    ensures z - HITBOX_MOVEMENT_SPEED * elapsed <= HITBOX_MOVEMENT_OUTWARD_BOUND ==>
      Step(z, false, true, elapsed) == HITBOX_MOVEMENT_OUTWARD_BOUND
  {}

  /** Inward input never moves the hitbox outward and vice versa, for
      non-negative frame times starting inside the travel range. */
  lemma StepMovesTowardInput(z: real, inward: bool, outward: bool, elapsed: real)
    requires elapsed >= 0.0 && InTravelRange(z)
    ensures inward && !outward ==> z <= Step(z, inward, outward, elapsed)
    ensures !inward && outward ==> Step(z, inward, outward, elapsed) <= z
  {}

  /** One frame of hitbox input. */
  datatype Input = Input(inward: bool, outward: bool, elapsed: real)

  /** Depth after a whole sequence of frames. */
  function Run(z: real, frames: seq<Input>): (r: real)
    decreases |frames|
  {
    if frames == [] then z
    else Run(Step(z, frames[0].inward, frames[0].outward, frames[0].elapsed), frames[1..])
  }

  /** Starting anywhere in the travel range, and in particular at the initial
      outward bound, the hitbox stays in range over any number of frames with
      non-negative frame times, however long. */
  lemma {:induction false} RunStaysInRange(z: real, frames: seq<Input>)
    requires InTravelRange(z)
    requires forall k :: 0 <= k < |frames| ==> frames[k].elapsed >= 0.0
    ensures InTravelRange(Run(z, frames))
    decreases |frames|
  {
    if frames != [] {
      RunStaysInRange(Step(z, frames[0].inward, frames[0].outward, frames[0].elapsed), frames[1..]);
    }
  }
}
