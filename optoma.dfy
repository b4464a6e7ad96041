/**
 * The two objects of the projector client: the reader thread, which splits
 * the serial stream into frames and routes them, and the projector, which
 * holds the event registry, the busy lock and the public operations.
 */
module Optoma {
  import opened Values
  import opened Tables
  import opened FrameReader
  import BusyLock
  import opened ReplyDecoding

  /** A registered callback, known only by its identity. */
  type HandlerId = nat

  /**
   * The routing test of `run`: a frame of exactly five characters starting
   * with 'I' is an event; every other frame is a reply. The replies the
   * projector sends to queries and commands (at most four characters, the
   * empty frame included) are never taken for events, and the three device
   * events always are.
   */
  function IsEventFrame(line: string): (event: bool)
    ensures |line| <= 4 ==> !event
    ensures line == "INFO0" || line == "INFO1" || line == "INFO2" ==> event
  {
    |line| == 5 && line[0] == 'I'
  }

  /** The frame that ends early on "INFO1" is always routed as an event. */
  lemma EarlyStopIsEvent()
    ensures IsEventFrame(EARLY_STOP)
  {
  }

  /** What one pass of the reader loop did. */
  datatype StepOutcome =
    | Dispatched(event: string, called: seq<HandlerId>)  // an event frame, and the handlers it ran
    | Stored(line: string)                              // a reply frame, now in the reply slot
    | Waiting                                           // the read is still blocked on the port
    | Crashed                                           // a non-ASCII byte raised; the thread ends

  /** `OptomaThread`: the serial reader and the reply slot. */
  class OptomaThread {
    /** The bytes the serial port has yet to deliver. */
    var input: seq<byte>
    /** `_lastline`: the latest reply frame, `None` before the first. */
    var lastline: Option<string>
    /** The `_recv_event` flag: a reply is waiting to be taken. */
    var ready: bool
    /** False once the loop in `run` has ended with an exception. */
    var alive: bool

    ghost predicate Valid()
      reads this
    {
      ready ==> lastline.Some?
    }

    constructor (input: seq<byte>)
      ensures Valid()
      ensures this.input == input && lastline == None && !ready && alive
    {
      this.input := input;
      lastline := None;
      ready := false;
      alive := true;
    }

    /**
     * One pass of the loop in `run`: read a frame with `_readline`; hand an
     * event frame to the projector's `_notify_event` and leave the reply slot
     * alone; store any other frame in the slot and raise the flag.
     */
    method RunStep(projector: Projector) returns (o: StepOutcome)
      requires Valid() && alive
      modifies this
      ensures Valid()
      ensures match Scan("", old(input))
        case Incomplete =>
          o == Waiting && input == old(input) && lastline == old(lastline) && ready == old(ready) && alive
        case DecodeError =>
          o == Crashed && !alive && input == old(input) && lastline == old(lastline) && ready == old(ready)
        case Frame(line, rest) =>
          input == rest && alive &&
          if IsEventFrame(line) then
            o == Dispatched(line, projector.Handlers(line)) && lastline == old(lastline) && ready == old(ready)
          else
            o == Stored(line) && lastline == Some(line) && ready
    {
      var r := ReadLine(input);
      match r
      case Incomplete =>
        o := Waiting;
      case DecodeError =>
        alive := false;
        o := Crashed;
      case Frame(line, rest) =>
        input := rest;
        if IsEventFrame(line) {
          var called := projector.NotifyEvent(line);
          o := Dispatched(line, called);
        } else {
          lastline := Some(line);
          ready := true;
          o := Stored(line);
        }
    }

    /**
     * `get_response` without the blocking wait: when a reply is waiting,
     * clear the flag and return it; otherwise the caller would block, shown
     * as `None`, and nothing changes.
     */
    method GetResponse() returns (r: Option<string>)
      requires Valid()
      modifies this`ready
      ensures Valid() && !ready
      ensures old(ready) ==> r == lastline
      ensures !old(ready) ==> r == None
    {
      if ready {
        ready := false;
        r := lastline;
      } else {
        r := None;
      }
    }
  }

  /** `Projector`: event registry, busy lock and the public operations. */
  class Projector {
    /** `_events`: event name to its handlers, in registration order. */
    var events: map<string, seq<HandlerId>>
    var isLocked: bool
    var timer: real
    var operation: BusyLock.Operation
    /** The wire frames written to the serial port, oldest first. */
    var sent: seq<string>

    ghost predicate Valid()
      reads this
    {
      BusyLock.Valid(Lock())
    }

    /** The lock fields as one value. */
    function Lock(): BusyLock.LockState
      reads this
    {
      BusyLock.LockState(isLocked, timer, operation)
    }

    /** The handlers registered for `name`, none for a name never registered. */
    function Handlers(name: string): seq<HandlerId>
      reads this
    {
      if name in events then events[name] else []
    }

    constructor ()
      ensures Valid()
      ensures events == map[] && Lock() == BusyLock.Unlocked() && sent == []
    {
      events := map[];
      sent := [];
      new;
      InitLock();
    }

    /**
     * `_add_event`: append `handler` to the end of `name`'s list, creating
     * the list if needed; every other event keeps its list.
     */
    method AddEvent(name: string, handler: HandlerId)
      modifies this`events
      ensures events == old(events)[name := old(Handlers(name)) + [handler]]
    {
      if name !in events {
        events := events[name := []];
      }
      events := events[name := events[name] + [handler]];
    }

    /** `_notify_event`: run exactly `name`'s handlers, in registration order. */
    method NotifyEvent(name: string) returns (called: seq<HandlerId>)
      ensures called == Handlers(name)
    {
      called := [];
      if name in events {
        var eventList := events[name];
        var i := 0;
        while i < |eventList|
          invariant 0 <= i <= |eventList|
          invariant called == eventList[..i]
        {
          called := called + [eventList[i]];
          i := i + 1;
        }
        assert eventList[..i] == eventList;
      }
    }

    /** `powered_off`: subscribe to INFO0. */
    method PoweredOff(handler: HandlerId)
      modifies this`events
      ensures events == old(events)["INFO0" := old(Handlers("INFO0")) + [handler]]
    {
      AddEvent("INFO0", handler);
    }

    /** `powering_on`: subscribe to INFO1. */
    method PoweringOn(handler: HandlerId)
      modifies this`events
      ensures events == old(events)["INFO1" := old(Handlers("INFO1")) + [handler]]
    {
      AddEvent("INFO1", handler);
    }

    /** `powering_off`: subscribe to INFO2. */
    method PoweringOff(handler: HandlerId)
      modifies this`events
      ensures events == old(events)["INFO2" := old(Handlers("INFO2")) + [handler]]
    {
      AddEvent("INFO2", handler);
    }

    /** `__initLock`. */
    method InitLock()
      modifies this`isLocked, this`timer, this`operation
      ensures Valid() && Lock() == BusyLock.Unlocked()
    {
      isLocked := false;
      timer := 0.0;
      operation := BusyLock.NoOperation;
    }

    /** `__setLock(command)` at time `now`, with the generic class read as the key 'ALL'. */
    method SetLock(command: string, now: real)
      modifies this`isLocked, this`timer, this`operation
      ensures Valid() && Lock() == BusyLock.SetLock(command, now)
    {
      if command == TURN_ON || command == TURN_OFF {
        operation := BusyLock.Pending(command);
      } else if command in SOURCE_LIST {
        operation := BusyLock.Pending(SOURCE);
      } else {
        operation := BusyLock.Pending(ALL);
      }
      isLocked := true;
      timer := now;
    }

    /** `__unLock`. */
    method UnLock()
      modifies this`isLocked, this`timer, this`operation
      ensures Valid() && Lock() == BusyLock.Unlocked()
    {
      operation := BusyLock.NoOperation;
      timer := 0.0;
      isLocked := false;
    }

    /** `__checkLock()` at time `now`: busy, with a stale lock released on the way. */
    method CheckLock(now: real) returns (busy: bool)
      requires Valid()
      modifies this`isLocked, this`timer, this`operation
      ensures Valid()
      ensures (busy, Lock()) == BusyLock.CheckLock(old(Lock()), now)
    {
      if isLocked {
        if now - timer > TIMEOUT_TIMES[operation.key] as real {
          UnLock();
          return false;
        }
        return true;
      }
      return false;
    }

    /**
     * `_sendrecv(OPTOMA_COMMANDS.get(command))` with `reply` the frame the
     * reader thread hands back: a command missing from the table is `None`,
     * whose `encode` raises before anything is written.
     */
    method SendRecv(command: string, reply: string) returns (r: Option<string>)
      modifies this`sent
      ensures command in OPTOMA_COMMANDS ==> r == Some(reply) && sent == old(sent) + [OPTOMA_COMMANDS[command]]
      ensures command !in OPTOMA_COMMANDS ==> r == None && sent == old(sent)
    {
      if command in OPTOMA_COMMANDS {
        sent := sent + [OPTOMA_COMMANDS[command]];
        r := Some(reply);
      } else {
        r := None;
      }
    }

    /**
     * `get_property(command)` at time `now`, the device answering `reply`.
     * Busy: 'BUSY', nothing written. Otherwise one frame is written and the
     * reply decoded. The lock is only checked, never set.
     */
    method GetProperty(command: string, now: real, reply: string) returns (r: Outcome)
      requires Valid()
      modifies this`isLocked, this`timer, this`operation, this`sent
      ensures Valid()
      ensures Lock() == BusyLock.CheckLock(old(Lock()), now).1
      ensures BusyLock.CheckLock(old(Lock()), now).0 ==>
        r == Returned(PyStr(BUSY)) && sent == old(sent)
      ensures !BusyLock.CheckLock(old(Lock()), now).0 && command !in OPTOMA_COMMANDS ==>
        r == Raised(AttributeError) && sent == old(sent)
      ensures !BusyLock.CheckLock(old(Lock()), now).0 && command in OPTOMA_COMMANDS ==>
        r == Returned(DecodeProperty(command, reply)) && sent == old(sent) + [OPTOMA_COMMANDS[command]]
    {
      var busy := CheckLock(now);
      if busy {
        return Returned(PyStr(BUSY));
      }
      var response := SendRecv(command, reply);
      if response.None? {
        return Raised(AttributeError);
      }
      r := Returned(DecodeProperty(command, response.value));
    }

    /**
     * `send_command(command)` at time `now`, the device acknowledging with
     * `reply`. Busy: `False`, nothing written, the lock as it was. Otherwise
     * the lock is set for the command first, then one frame is written and
     * the acknowledgement decoded.
     */
    method SendCommand(command: string, now: real, reply: string) returns (r: Outcome)
      requires Valid()
      modifies this`isLocked, this`timer, this`operation, this`sent
      ensures Valid()
      ensures BusyLock.CheckLock(old(Lock()), now).0 ==>
        r == Returned(PyFalse) && sent == old(sent) && Lock() == old(Lock())
      ensures !BusyLock.CheckLock(old(Lock()), now).0 ==>
        Lock() == BusyLock.SetLock(command, now)
      ensures !BusyLock.CheckLock(old(Lock()), now).0 && command !in OPTOMA_COMMANDS ==>
        r == Raised(AttributeError) && sent == old(sent)
      ensures !BusyLock.CheckLock(old(Lock()), now).0 && command in OPTOMA_COMMANDS ==>
        r == Returned(DecodeAck(reply)) && sent == old(sent) + [OPTOMA_COMMANDS[command]]
    {
      var busy := CheckLock(now);
      if busy {
        return Returned(PyFalse);
      }
      SetLock(command, now);
      var result := SendRecv(command, reply);
      if result.None? {
        return Raised(AttributeError);
      }
      r := Returned(DecodeAck(result.value));
    }
  }

  /** Two handlers subscribed to one event run in subscription order; other events run none. */
  method SubscriptionOrder(h1: HandlerId, h2: HandlerId) returns (onInfo1: seq<HandlerId>, onInfo2: seq<HandlerId>)
    ensures onInfo1 == [h1, h2]
    ensures onInfo2 == []
  {
    var p := new Projector();
    p.PoweringOn(h1);
    p.PoweringOn(h2);
    onInfo1 := p.NotifyEvent("INFO1");
    onInfo2 := p.NotifyEvent("INFO2");
  }

  /**
   * A power-on acknowledged with "P" succeeds; a second command right after
   * is refused without being written; a query 39.5 seconds later is still
   * busy, but one 40.5 seconds later is written and answered, because the
   * 40-second window of TURN_ON has passed.
   */
  method PowerOnThenBusy(now: real) returns (first: Outcome, second: Outcome, later: Outcome, free: Outcome, writes: nat)
    ensures first == Returned(PyStr("OK"))
    ensures second == Returned(PyFalse)
    ensures later == Returned(PyStr(BUSY))
    ensures free == Returned(PyStr("on"))
    ensures writes == 2
  {
    var p := new Projector();
    first := p.SendCommand(TURN_ON, now, "P");
    second := p.SendCommand(SOURCE, now, "P");
    later := p.GetProperty(POWER, now + 39.5, "OK1");
    free := p.GetProperty(POWER, now + 40.5, "OK1");
    writes := |p.sent|;
  }

  /** The bytes `OK1 0x0D INFO1` read as the reply "OK1", then the unterminated event "INFO1". */
  lemma ReplyThenInfo1Frames()
    ensures Scan("", [0x4F, 0x4B, 0x31, 0x0D, 0x49, 0x4E, 0x46, 0x4F, 0x31]) ==
      Frame("OK1", [0x49, 0x4E, 0x46, 0x4F, 0x31])
    ensures Scan("", [0x49, 0x4E, 0x46, 0x4F, 0x31]) == Frame("INFO1", [])
  {
    var bytes: seq<byte> := [0x4F, 0x4B, 0x31, 0x0D, 0x49, 0x4E, 0x46, 0x4F, 0x31];
    CleanStep(bytes, 0);
    assert Clean(bytes[..1]) == "O";
    CleanStep(bytes, 1);
    assert Clean(bytes[..2]) == "OK";
    CleanStep(bytes, 2);
    assert Clean(bytes[..3]) == "OK1";
    assert Continues(bytes, 0) && Continues(bytes, 1) && Continues(bytes, 2);
    TerminatedFrame(bytes, 3);
    assert bytes[4..] == [0x49, 0x4E, 0x46, 0x4F, 0x31];
    Info1WithoutTerminator();
  }

  /**
   * The reply "OK1" followed by INFO1 without a terminator: the reply goes
   * to the slot and is taken by `get_response`, the event runs its handler
   * and leaves the slot empty.
   */
  method ReplyThenEvent(h: HandlerId) returns (reply: Option<string>, event: StepOutcome, again: Option<string>)
    ensures reply == Some("OK1")
    ensures event == Dispatched("INFO1", [h])
    ensures again == None
  {
    var bytes: seq<byte> := [0x4F, 0x4B, 0x31, 0x0D, 0x49, 0x4E, 0x46, 0x4F, 0x31];
    ReplyThenInfo1Frames();
    assert bytes[4..] == [0x49, 0x4E, 0x46, 0x4F, 0x31];
    var p := new Projector();
    p.PoweringOn(h);
    assert p.Handlers("INFO1") == [h];
    assert !IsEventFrame("OK1") && IsEventFrame("INFO1");
    var t := new OptomaThread(bytes);
    var o := t.RunStep(p);
    assert t.input == bytes[4..] && t.lastline == Some("OK1") && t.ready;
    event := t.RunStep(p);
    assert t.lastline == Some("OK1") && t.ready;
    reply := t.GetResponse();
    again := t.GetResponse();
  }

  /**
   * "INFO1" sent with its terminator: the frame ends before the 0x0D, so
   * the event runs its handler and the left-over 0x0D then reads as an empty
   * reply, which `get_response` hands to the next caller.
   */
  method Info1WithTerminatorLeavesEmptyReply(h: HandlerId) returns (event: StepOutcome, stray: StepOutcome, reply: Option<string>)
    ensures event == Dispatched("INFO1", [h])
    ensures stray == Stored("")
    ensures reply == Some("")
  {
    var bytes: seq<byte> := [0x49, 0x4E, 0x46, 0x4F, 0x31, 0x0D];
    Info1WithTerminator();
    var p := new Projector();
    p.PoweringOn(h);
    var t := new OptomaThread(bytes);
    event := t.RunStep(p);
    stray := t.RunStep(p);
    reply := t.GetResponse();
  }
}
