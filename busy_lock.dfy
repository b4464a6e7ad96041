/**
 * The busy-lock state machine of the projector object (`__initLock`,
 * `__setLock`, `__unLock`, `__checkLock`), as transitions on its three
 * fields. The clock reading `time.time()` is the parameter `now`.
 */
module BusyLock {
  import opened Tables

  /** The `_operation` field: `False`, or the key of the pending lock class. */
  datatype Operation = NoOperation | Pending(key: string)

  /** The fields `_isLocked`, `_timer` and `_operation`. */
  datatype LockState = LockState(isLocked: bool, timer: real, operation: Operation)

  /**
   * The states the lock can reach: unlocked with the initial field values,
   * or locked on a class the timeout table knows.
   */
  predicate Valid(s: LockState)
  {
    if s.isLocked then s.operation.Pending? && s.operation.key in TIMEOUT_TIMES
    else s.timer == 0.0 && s.operation == NoOperation
  }

  /** The state `__initLock` and `__unLock` both establish. */
  function Unlocked(): (u: LockState)
    ensures Valid(u) && !u.isLocked
  {
    LockState(false, 0.0, NoOperation)
  }

  /** The lock has one unlocked state: every field is reset together. */
  lemma UnlockedIsUnique(s: LockState)
    requires Valid(s) && !s.isLocked
    ensures s == Unlocked()
  {
  }

  /** The lock class `__setLock` records for a command (with `ALL` read as the key 'ALL'). */
  function OperationFor(command: string): (op: string)
    ensures op in TIMEOUT_TIMES
    ensures TIMEOUT_TIMES[op] == GetTimeout(command)
    ensures command == TURN_ON || command == TURN_OFF ==> op == command
    ensures command != TURN_ON && command != TURN_OFF && command in SOURCE_LIST ==> op == SOURCE
  {
    if command == TURN_ON || command == TURN_OFF then command
    else if command in SOURCE_LIST then SOURCE
    else ALL
  }

  /** `__setLock(command)` at time `now`. */
  function SetLock(command: string, now: real): (s: LockState)
    ensures Valid(s) && s.isLocked && s.timer == now
  {
    LockState(true, now, Pending(OperationFor(command)))
  }

  /** The busy window of a locked state, in seconds. */
  function Window(s: LockState): real
    requires Valid(s) && s.isLocked
  {
    TIMEOUT_TIMES[s.operation.key] as real
  }

  /**
   * `__checkLock()` at time `now`: whether the projector is busy, and the
   * state afterwards. Busy exactly when the lock survives the check; a busy
   * answer changes nothing, a free answer leaves the lock released.
   */
  function CheckLock(s: LockState, now: real): (r: (bool, LockState))
    requires Valid(s)
    ensures Valid(r.1)
    ensures r.0 <==> r.1.isLocked
    ensures r.0 ==> r.1 == s
    ensures !r.0 ==> r.1 == Unlocked()
    ensures !s.isLocked ==> r == (false, s)
    ensures s.isLocked ==> (r.0 <==> now - s.timer <= Window(s))
  {
    if s.isLocked then
      if now - s.timer > Window(s) then (false, Unlocked()) else (true, s)
    else (false, s)
  }

  /**
   * Every locked state is one that `__setLock` produces, so what
   * `CheckAfterSetLock` says covers every state the lock can be in.
   */
  lemma LockedStatesComeFromSetLock(s: LockState)
    requires Valid(s) && s.isLocked
    ensures exists command :: s == SetLock(command, s.timer)
  {
    var key := s.operation.key;
    var command := if key == SOURCE then "HDMI1" else key;
    assert s == SetLock(command, s.timer);
  }

  /** A check of an unlocked state is never busy and changes nothing. */
  lemma CheckUnlockedChangesNothing(s: LockState, now: real)
    requires Valid(s) && !s.isLocked
    ensures CheckLock(s, now) == (false, s)
  {
  }

  /** Checking twice at the same moment answers as checking once. */
  lemma CheckIdempotent(s: LockState, now: real)
    requires Valid(s)
    ensures CheckLock(CheckLock(s, now).1, now) == CheckLock(s, now)
  {
  }

  /**
   * After `__setLock(command)` at `start`, every check up to and including
   * `start + __get_timeout(command)` is busy and leaves the lock in place;
   * the first check strictly later answers free and unlocks.
   */
  lemma CheckAfterSetLock(command: string, start: real, now: real)
    ensures CheckLock(SetLock(command, start), now) ==
      if now - start > GetTimeout(command) as real then (false, Unlocked())
      else (true, SetLock(command, start))
  {
  }

  /** A locked state that is busy now was busy at every earlier moment since it was set. */
  lemma BusyBackwards(s: LockState, now: real, earlier: real)
    requires Valid(s) && s.timer <= earlier <= now
    requires CheckLock(s, now).0
    ensures CheckLock(s, earlier).0
  {
  }

  /** A check exactly 40 seconds after powering on is still busy. */
  lemma BusyAtExactPowerOnTimeout(start: real)
    ensures CheckLock(SetLock(TURN_ON, start), start + 40.0) == (true, SetLock(TURN_ON, start))
  {
  }

  /** Commands outside the power and source classes lock the generic class. */
  lemma OtherCommandsAreGeneric(command: string, now: real)
    requires command != TURN_ON && command != TURN_OFF && command !in SOURCE_LIST
    ensures SetLock(command, now).operation == Pending(ALL)
    ensures Window(SetLock(command, now)) == 2.0
  {
  }

  /** The outcome of `__setLock` as written: it may raise before changing anything. */
  datatype SetOutcome = Locked(state: LockState) | RaisedNameError(state: LockState)

  /**
   * `__setLock` as the source has it: the last branch evaluates the name
   * `ALL`, which the module never defines, so it raises NameError before any
   * field is assigned: the exception carries the state as it was.
   */
  function SetLockAsWritten(s: LockState, command: string, now: real): (r: SetOutcome)
    ensures r.RaisedNameError? ==> r.state == s
    ensures r.Locked? ==> r.state == SetLock(command, now)
  {
    if command == TURN_ON || command == TURN_OFF then
      Locked(LockState(true, now, Pending(command)))
    else if command in SOURCE_LIST then
      Locked(LockState(true, now, Pending(SOURCE)))
    else RaisedNameError(s)
  }

  /**
   * As written, locking for any command other than the power and source
   * commands raises, for instance for the 3D and display-mode commands of the
   * command table (see `Tables.GenericCommandsHaveFrames`) and for the power query.
   */
  lemma SetLockAsWrittenRaises(s: LockState, command: string, now: real)
    ensures SetLockAsWritten(s, command, now) == RaisedNameError(s) <==>
      command != TURN_ON && command != TURN_OFF && command !in SOURCE_LIST
    ensures SetLockAsWritten(s, "3D_SBS", now) == RaisedNameError(s)
  {
  }
}
