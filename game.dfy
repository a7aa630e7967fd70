/** The play-mode session object: game state, game clock, hitbox depth, the
    logical buttons and the two per-note arrays (hit times and displayed
    scales), updated in place by key events and by the per-frame update. */
module Game {
  import opened Tuning
  import opened Schedule
  import opened NoteEnvelope
  import opened HitJudge
  import Hitbox

  datatype GameState = Start | InProgress | End

  /** An unsigned 8-bit counter. */
  newtype uint8 = x: int | 0 <= x < 256

  /** A logical button: presses seen since the last frame (8-bit, wrapping)
      and whether it is held. */
  datatype Button = Button(downs: uint8, pressed: bool)

  const RELEASED := Button(0, false)

  /** A key-down on a movement key: one more press, now held. */
  function Press(b: Button): (r: Button)
    ensures r.pressed
    ensures b.downs < 255 ==> r.downs == b.downs + 1
    ensures b.downs == 255 ==> r.downs == 0
  {
    Button(((b.downs as int + 1) % 256) as uint8, true)
  }

  /** A key-up on a movement key: no longer held, presses kept for the frame. */
  function Release(b: Button): (r: Button)
    ensures !r.pressed && r.downs == b.downs
  {
    Button(b.downs, false)
  }

  /** End of frame: the press counter is cleared and the held flag kept. */
  function ClearDowns(b: Button): (r: Button)
    ensures r.downs == 0 && r.pressed == b.pressed
  {
    Button(0, b.pressed)
  }

  datatype ButtonId = Left | Right | Up | Down | Inward | Outward | Hit

  /** Keys the play mode reacts to; every other key is `OtherKey`. */
  datatype Key = Escape | KeyA | KeyD | KeyW | KeyS | KeyZ | KeyX | Return | Space | OtherKey

  datatype Option<T> = None | Some(value: T)

  /** The button a key holds down while pressed. */
  function HeldButton(key: Key): (r: Option<ButtonId>)
    ensures r != Some(Hit)
    ensures r.None? <==> key == Escape || key == Return || key == Space || key == OtherKey
  {
    match key
    case KeyA => Some(Left)
    case KeyD => Some(Right)
    case KeyW => Some(Up)
    case KeyS => Some(Down)
    case KeyZ => Some(Outward)
    case KeyX => Some(Inward)
    case _ => None
  }

  /** A full press cycle within one frame: key-down, key-up and the end-of-frame
      reset leave a released button with no press counted, while before the
      reset the press is still counted. */
  lemma PressReleaseClear(b: Button)
    ensures Release(Press(b)).downs == Press(b).downs && !Release(Press(b)).pressed
    ensures b.downs < 255 ==> Release(Press(b)).downs == b.downs + 1
    ensures ClearDowns(Release(Press(b))) == RELEASED
  {}

  /** Different keys hold different buttons. */
  lemma HeldButtonInjective(k1: Key, k2: Key)
    requires HeldButton(k1).Some? && HeldButton(k1) == HeldButton(k2)
    ensures k1 == k2
  {}

  class PlayMode {
    var gameState: GameState
    var globalTimer: real
    var left: Button
    var right: Button
    var up: Button
    var down: Button
    var inward: Button
    var outward: Button
    var hit: Button
    /** Depth of the hitbox (`position.z` of its transform). */
    var hitboxZ: real
    /** Beat of each note and its radial distance (two parallel lists). */
    const notes: seq<real>
    const notesDistance: seq<real>
    /** Hit time of each note, 0.0 while unhit. */
    const noteHitTime: array<real>
    /** Displayed scale of each note (its x and y scale, always equal). */
    const noteScale: array<real>

    /** The session invariant: the end state is never reached, the clock only
        runs once started, the hitbox stays in range, a pending hit exists only
        in play, every hit time is well recorded, and every scale is within
        the envelope's range and 0 for a note that has not appeared yet. */
    ghost predicate Valid()
      reads this, noteHitTime, noteScale
    {
      && ValidSchedule(notes, notesDistance)
      && noteHitTime.Length == NUM_NOTES
      && noteScale.Length == NUM_NOTES
      && noteHitTime != noteScale
      && gameState != End
      && 0.0 <= globalTimer
      && (gameState == Start ==> globalTimer == 0.0)
      && Hitbox.InTravelRange(hitboxZ)
      && (hit.pressed ==> gameState == InProgress)
      && AllWellRecorded(notes, noteHitTime[..], globalTimer)
      && ScalesConsistent(notes, noteScale[..], globalTimer)
    }

    /** A fresh session over the built-in schedule: not started, clock at 0,
        every button released, the hitbox at its outward bound and every note
        unhit and invisible. */
    constructor ()
      ensures Valid()
      ensures notes == Notes && notesDistance == NotesDistance
      ensures fresh(noteHitTime) && fresh(noteScale)
      ensures gameState == Start && globalTimer == 0.0
      ensures left == RELEASED && right == RELEASED && up == RELEASED && down == RELEASED
      ensures inward == RELEASED && outward == RELEASED && hit == RELEASED
      ensures hitboxZ == HITBOX_MOVEMENT_OUTWARD_BOUND
      ensures forall i :: 0 <= i < NUM_NOTES ==> noteHitTime[i] == 0.0 && noteScale[i] == 0.0
    {
      notes, notesDistance := Notes, NotesDistance;
      BuiltInScheduleIsValid();
      gameState := Start;
      globalTimer := 0.0;
      left, right, up, down := RELEASED, RELEASED, RELEASED, RELEASED;
      inward, outward, hit := RELEASED, RELEASED, RELEASED;
      hitboxZ := HITBOX_MOVEMENT_OUTWARD_BOUND;
      noteHitTime := new real[NUM_NOTES](_ => 0.0);
      noteScale := new real[NUM_NOTES](_ => 0.0);
    }

    /** Recomputes the scale of every visible note, stopping at the first note
        not yet visible; that note and all later ones keep their scale, which
        is 0, so afterwards every scale is the envelope's value. */
    method UpdateNote()
      requires Valid()
      modifies noteScale
      ensures Valid()
      ensures forall i :: 0 <= i < FirstHidden(notes, globalTimer) ==>
        noteScale[i] == Envelope(NoteTime(notes, i), globalTimer, noteHitTime[i])
      ensures forall i :: FirstHidden(notes, globalTimer) <= i < NUM_NOTES ==> noteScale[i] == old(noteScale[i])
      ensures forall i :: 0 <= i < NUM_NOTES ==>
        noteScale[i] == Envelope(NoteTime(notes, i), globalTimer, noteHitTime[i])
    {
      var t := globalTimer;
      ghost var hitTimes, before := noteHitTime[..], noteScale[..];
      var i := 0;
      while i < NUM_NOTES
        invariant 0 <= i <= NUM_NOTES
        invariant forall j :: 0 <= j < i ==> NoteAppearTime(notes, j) <= t
        invariant forall j :: 0 <= j < i ==> noteScale[j] == Envelope(NoteTime(notes, j), t, hitTimes[j])
        invariant forall j :: i <= j < NUM_NOTES ==> noteScale[j] == before[j]
      {
        if t < NoteAppearTime(notes, i) {
          break;
        }
        noteScale[i] := Envelope(NoteTime(notes, i), t, noteHitTime[i]);
        i := i + 1;
      }
      assert i == FirstHidden(notes, t);
      PassYieldsEnvelope(notes, before, noteScale[..], hitTimes, t);
    }

    /** Judges a hit at the current time and hitbox depth. */
    method HitNote()
      requires Valid()
      modifies noteHitTime
      ensures Valid()
      ensures noteHitTime[..] == Judge(notes, notesDistance, old(noteHitTime[..]), globalTimer, hitboxZ)
    {
      ghost var before := noteHitTime[..];
      JudgeKeepsWellRecorded(notes, notesDistance, before, globalTimer, hitboxZ);
      var i := 0;
      while i < NUM_NOTES
        invariant 0 <= i <= NUM_NOTES
        invariant forall j :: 0 <= j < i ==> noteHitTime[j] == Judge(notes, notesDistance, before, globalTimer, hitboxZ)[j]
        invariant forall j :: i <= j < NUM_NOTES ==> noteHitTime[j] == before[j]
      {
        if InHitWindow(NoteTime(notes, i), globalTimer) && noteHitTime[i] == 0.0 && NearHitbox(notesDistance[i], hitboxZ) {
          noteHitTime[i] := globalTimer;
        }
        i := i + 1;
      }
    }

    /** Key-down: movement keys count a press and hold their button, RETURN
        starts the game unless it is already in progress, SPACE arms a hit only
        in play. Returns whether the event was consumed. */
    method KeyDown(key: Key) returns (handled: bool)
      requires Valid()
      modifies this
      ensures Valid()
      ensures handled == (key == Escape || HeldButton(key).Some?)
      ensures gameState == (if key == Return && old(gameState) != InProgress then InProgress else old(gameState))
      ensures left == (if key == KeyA then Press(old(left)) else old(left))
      ensures right == (if key == KeyD then Press(old(right)) else old(right))
      ensures up == (if key == KeyW then Press(old(up)) else old(up))
      ensures down == (if key == KeyS then Press(old(down)) else old(down))
      ensures outward == (if key == KeyZ then Press(old(outward)) else old(outward))
      ensures inward == (if key == KeyX then Press(old(inward)) else old(inward))
      ensures hit == (if key == Space && old(gameState) == InProgress then Button(old(hit.downs), true) else old(hit))
      ensures globalTimer == old(globalTimer) && hitboxZ == old(hitboxZ)
    {
      handled := false;
      match key
      case Escape => handled := true;
      case KeyA => left := Press(left); handled := true;
      case KeyD => right := Press(right); handled := true;
      case KeyW => up := Press(up); handled := true;
      case KeyS => down := Press(down); handled := true;
      case KeyZ => outward := Press(outward); handled := true;
      case KeyX => inward := Press(inward); handled := true;
      case Return =>
        if gameState != InProgress {
          gameState := InProgress;
        }
      case Space =>
        if gameState == InProgress {
          hit := hit.(pressed := true);
        }
      case OtherKey =>
    }

    /** Key-up: movement keys release their button; nothing else reacts, so
        in particular a pending hit stays armed. */
    method KeyUp(key: Key) returns (handled: bool)
      requires Valid()
      modifies this
      ensures Valid()
      ensures handled == HeldButton(key).Some?
      ensures left == (if key == KeyA then Release(old(left)) else old(left))
      ensures right == (if key == KeyD then Release(old(right)) else old(right))
      ensures up == (if key == KeyW then Release(old(up)) else old(up))
      ensures down == (if key == KeyS then Release(old(down)) else old(down))
      ensures outward == (if key == KeyZ then Release(old(outward)) else old(outward))
      ensures inward == (if key == KeyX then Release(old(inward)) else old(inward))
      ensures hit == old(hit)
      ensures gameState == old(gameState) && globalTimer == old(globalTimer) && hitboxZ == old(hitboxZ)
    {
      handled := true;
      match key
      case KeyA => left := Release(left);
      case KeyD => right := Release(right);
      case KeyW => up := Release(up);
      case KeyS => down := Release(down);
      case KeyZ => outward := Release(outward);
      case KeyX => inward := Release(inward);
      case _ => handled := false;
    }

    /** Moves the hitbox by the held inward/outward input and clamps it. */
    method MoveHitbox(elapsed: real)
      requires Valid()
      requires elapsed >= 0.0
      modifies this`hitboxZ
      ensures Valid()
      ensures hitboxZ == Hitbox.Step(old(hitboxZ), inward.pressed, outward.pressed, elapsed)
    {
      if inward.pressed && !outward.pressed {
        hitboxZ := hitboxZ + HITBOX_MOVEMENT_SPEED * elapsed;
        hitboxZ := Min(HITBOX_MOVEMENT_INWARD_BOUND, hitboxZ);
      }
      if !inward.pressed && outward.pressed {
        hitboxZ := hitboxZ - HITBOX_MOVEMENT_SPEED * elapsed;
        hitboxZ := Max(HITBOX_MOVEMENT_OUTWARD_BOUND, hitboxZ);
      }
    }

    /** Clears the press counters of the six movement buttons. */
    method ResetDowns()
      requires Valid()
      modifies this`left, this`right, this`up, this`down, this`outward, this`inward
      ensures Valid()
      ensures left == ClearDowns(old(left)) && right == ClearDowns(old(right))
      ensures up == ClearDowns(old(up)) && down == ClearDowns(old(down))
      ensures outward == ClearDowns(old(outward)) && inward == ClearDowns(old(inward))
    {
      left, right, up, down := ClearDowns(left), ClearDowns(right), ClearDowns(up), ClearDowns(down);
      outward, inward := ClearDowns(outward), ClearDowns(inward);
    }

    /** One frame: move the hitbox; if in play, advance the clock, judge and
        clear a pending hit, and recompute the note scales; finally clear the
        press counters of the six movement buttons. */
    method Update(elapsed: real)
      requires Valid()
      requires elapsed >= 0.0
      modifies this, noteHitTime, noteScale
      ensures Valid()
      ensures hitboxZ == Hitbox.Step(old(hitboxZ), old(inward.pressed), old(outward.pressed), elapsed)
      ensures gameState == old(gameState)
      ensures globalTimer == old(globalTimer) + (if old(gameState) == InProgress then elapsed else 0.0)
      ensures noteHitTime[..] ==
        if old(gameState) == InProgress && old(hit.pressed) then Judge(notes, notesDistance, old(noteHitTime[..]), globalTimer, hitboxZ)
        else old(noteHitTime[..])
      ensures old(gameState) == InProgress ==>
        forall i :: 0 <= i < NUM_NOTES ==> noteScale[i] == Envelope(NoteTime(notes, i), globalTimer, noteHitTime[i])
      ensures old(gameState) != InProgress ==> noteScale[..] == old(noteScale[..])
      ensures hit == if old(gameState) == InProgress then Release(old(hit)) else old(hit)
      ensures left == ClearDowns(old(left)) && right == ClearDowns(old(right))
      ensures up == ClearDowns(old(up)) && down == ClearDowns(old(down))
      ensures outward == ClearDowns(old(outward)) && inward == ClearDowns(old(inward))
    {
      MoveHitbox(elapsed);

      if gameState == InProgress {
        WellRecordedLater(notes, noteHitTime[..], globalTimer, globalTimer + elapsed);
        ScalesConsistentLater(notes, noteScale[..], globalTimer, globalTimer + elapsed);
        globalTimer := globalTimer + elapsed;
        if hit.pressed {
          HitNote();
          hit := hit.(pressed := false);
        }
        UpdateNote();
      }

      ResetDowns();
    }
  }
}
