# pyoptoma core, modelled in Dafny

A model of the deterministic core of `pyoptoma`, a serial client for Optoma
projectors. The client writes short ASCII command frames to the projector and
a reader thread splits the bytes coming back into frames. Each frame is either
a synchronous reply or an unsolicited event (`INFO0` powered off, `INFO1`
powering on, `INFO2` powering off). A busy lock with lazy expiry stops new
commands while a power or source change is still going on.

Modules, one per component of `pyoptoma/__init__.py`:

- `Values` (`values.dfy`): the Python values the operations return (`None`, `False`, a string) and the exceptions they can raise.
- `FrameReader` (`frame_reader.dfy`): `_readline`. `Scan` is the reference definition of one call, and `ReadLine` is the byte-by-byte loop proved equal to it. The lemmas give the result of a read in terms of the first byte that ends or breaks the frame.
- `Tables` (`tables.dfy`): `OPTOMA_COMMANDS`, `SOURCE_LIST`, `TIMEOUT_TIMES`, `SOURCE_MAP` and `__get_timeout`.
- `BusyLock` (`busy_lock.dfy`): the lock fields `_isLocked`, `_timer` and `_operation` as a value, with `__setLock`, `__unLock` and `__checkLock` as transitions. Also `__setLock` exactly as written (see Findings).
- `ReplyDecoding` (`reply_decoding.dfy`): the reply-to-result branches of `get_property` and `send_command`.
- `Optoma` (`optoma.dfy`): the classes `OptomaThread` (one pass of `run`, and `get_response`) and `Projector` (event registry, lock methods, `_sendrecv`, `get_property`, `send_command`). Each class method is proved against the functions above. Four client methods run the classes through whole scenarios.

Modelling choices:

- `time.time()` is the parameter `now: real`.
- The serial port's input is the byte sequence `OptomaThread.input`, and writes are appended to `Projector.sent`.
- Inside `get_property` and `send_command`, the reply that `_sendrecv` waits for is passed in as `reply`.
- Handlers are opaque identifiers. Notifying an event returns the handlers that would run, in order.
- A non-ASCII byte makes `byte.decode('utf-8')` raise, which ends the reader thread. This is `DecodeError` and the `Crashed` step.
- If the input runs out before a frame is complete, the read is still blocked. This is `Incomplete` and the `Waiting` step, which changes nothing.
- A command missing from `OPTOMA_COMMANDS` reaches `_sendrecv` as `None`. Its `encode` raises `AttributeError` before anything is written, and the model returns `Raised(AttributeError)`.

Behaviour of the code that the model keeps as it is:

- The `except KeyError` at `pyoptoma/__init__.py:200` cannot fire, because `SOURCE_MAP.get` never raises. No reply makes `get_property` return 'BUSY' once the lock check has passed.
- A reply that matches no decode branch falls off the end of `get_property` and returns `None`.
- An acknowledgement other than 'P' or 'F' makes `send_command` return `None`.
- The early stop on "INFO1" also fires when the projector does send a terminator. The bytes `INFO1 0x0D` read as the event frame `INFO1`, and the left-over 0x0D then reads as an empty frame. `run` stores that empty frame as a reply and raises the flag, so the next `get_response` can return `''`, which `get_property` turns into False.
- The code uses `ALL` as a name at line 154 where the key `'ALL'` is meant. The classes use the key, and the as-written behaviour is kept separately (see Findings).

## Model

| member | source | states |
|---|---|---|
| `FrameReader.Scan` | pyoptoma/__init__.py:72-88 | the reference definition of one `_readline` call; a frame never shortens the text accumulated so far and always consumes at least one byte |
| `FrameReader.ReadLine` | pyoptoma/__init__.py:72-88 | the byte loop of `_readline` returns exactly the reference scan of its input: the frame and the unread bytes, a pending read, or the decode error |
| `FrameReader.ScanPrefix` | pyoptoma/__init__.py:74-86 | after k bytes that neither end the frame nor raise, the accumulated text is those bytes with every NUL removed |
| `FrameReader.TerminatedFrame` | pyoptoma/__init__.py:76-77 | the first 0x0D ends the frame: the frame is the preceding bytes without NULs, the 0x0D is consumed and excluded, and the rest stays unread |
| `FrameReader.EarlyStopFrame` | pyoptoma/__init__.py:84-86 | the byte that makes the text exactly "INFO1" ends the frame without a terminator, and every later byte stays unread |
| `FrameReader.DecodeErrorAt` | pyoptoma/__init__.py:81-82 | a non-NUL byte of 0x80 or more, reached before the frame ends, raises |
| `FrameReader.WaitingForMore` | pyoptoma/__init__.py:74-75 | input in which no byte ends the frame leaves the read waiting for more bytes |
| `FrameReader.FrameShape` | pyoptoma/__init__.py:72-88 | no frame contains 0x0D or 0x00, and the unread rest is a suffix of the input |
| `FrameReader.Info1WithoutTerminator` | pyoptoma/__init__.py:84-86 | the bytes `INFO1` with no terminator read as the frame "INFO1" with nothing left |
| `FrameReader.Info1WithTerminator` | pyoptoma/__init__.py:84-86 | `INFO1 0x0D` reads as the frame INFO1 with the 0x0D left unread, and that 0x0D alone reads as the empty frame |
| `FrameReader.NulIsDropped` | pyoptoma/__init__.py:79-82 | the bytes `A 0x00 B 0x0D` read as the frame "AB" |
| `Tables.GetTimeout` | pyoptoma/__init__.py:226-230 | the timeout is 40 exactly for TURN_ON, 60 exactly for TURN_OFF, and 2 for every other name |
| `Tables.SelectableSourcesAreReported` | pyoptoma/__init__.py:23-44 | every source in the selection table has a reply code in the source-reply table |
| `Tables.ClassifiedCommandsHaveFrames` | pyoptoma/__init__.py:7-29 | the power commands and every selectable source have a wire frame |
| `Tables.GenericCommandsHaveFrames` | pyoptoma/__init__.py:7-29 | DISPLAY_MODE and the four 3D commands have wire frames and are neither power commands nor sources |
| `BusyLock.Unlocked` | pyoptoma/__init__.py:141-145 | the state `__initLock` and `__unLock` set is valid and unlocked |
| `BusyLock.UnlockedIsUnique` | pyoptoma/__init__.py:158-162 | every valid unlocked state is that one: `_timer` 0 and `_operation` False |
| `BusyLock.OperationFor` | pyoptoma/__init__.py:149-154 | a power command is its own lock class and a source command locks SOURCE; the class is a key of the timeout table, and its timeout equals `__get_timeout` of the command |
| `BusyLock.SetLock` | pyoptoma/__init__.py:147-156 | setting the lock leaves a valid locked state timed at `now` |
| `BusyLock.CheckLock` | pyoptoma/__init__.py:165-177 | unlocked: False and nothing changes; locked: busy exactly when `now - timer` is at most the class's timeout; busy changes nothing, and an expired lock is released |
| `BusyLock.LockedStatesComeFromSetLock` | pyoptoma/__init__.py:147-156 | every valid locked state is what `__setLock` produces for some command, so `CheckAfterSetLock` covers every locked state |
| `BusyLock.CheckUnlockedChangesNothing` | pyoptoma/__init__.py:172-177 | checking an unlocked state returns False and changes no field |
| `BusyLock.CheckIdempotent` | pyoptoma/__init__.py:165-177 | a second check at the same moment gives the same answer and state as the first |
| `BusyLock.CheckAfterSetLock` | pyoptoma/__init__.py:173-176 | after locking at `start`, a check is busy up to and including `start` plus the command's timeout, and free and unlocked strictly after |
| `BusyLock.BusyBackwards` | pyoptoma/__init__.py:172-176 | a lock busy at some moment was busy at every earlier moment since it was set |
| `BusyLock.BusyAtExactPowerOnTimeout` | pyoptoma/__init__.py:31-33 | 40 seconds after powering on, the projector is still busy |
| `BusyLock.OtherCommandsAreGeneric` | pyoptoma/__init__.py:153-154 | a command outside the power and source classes locks the 'ALL' class, with a 2-second window |
| `BusyLock.SetLockAsWritten` | pyoptoma/__init__.py:147-156 | `__setLock` as written: when it raises, every field is as it was; when it does not, the state is the corrected lock |
| `BusyLock.SetLockAsWrittenRaises` | pyoptoma/__init__.py:147-156 | as written, locking raises NameError, with no field changed, exactly for the commands outside the power and source classes (3D_SBS among them) |
| `ReplyDecoding.DecodeProperty` | pyoptoma/__init__.py:187-199 | False exactly for an empty reply; "on"/"off" only for a 3-character power reply; a source name only for a 4-character source reply; None for every other non-empty reply |
| `ReplyDecoding.PowerReply` | pyoptoma/__init__.py:190-195 | the power query yields "on" exactly when the reply has 3 characters and the third is '1', and "off" exactly when the third is '0' |
| `ReplyDecoding.SourceReply` | pyoptoma/__init__.py:196-199 | a 4-character source reply yields its name from the reply table, and None when the code is unknown |
| `ReplyDecoding.ExampleReplies` | pyoptoma/__init__.py:187-199 | OK1 is on, OK0 is off, OK10 is None for the power query; OK07 is HDMI1, while OK99 and OK00 are None for the source query |
| `ReplyDecoding.SelectableSourcesDecode` | pyoptoma/__init__.py:196-199 | every selectable source is reported under its own name by some reply to the source query |
| `ReplyDecoding.DecodeAck` | pyoptoma/__init__.py:219-224 | 'OK' exactly for "P", 'BUSY' exactly for "F", None for any other acknowledgement |
| `Optoma.IsEventFrame` | pyoptoma/__init__.py:66 | no frame of at most four characters (the empty frame, acknowledgements, power and source replies) is an event; INFO0, INFO1 and INFO2 are |
| `Optoma.EarlyStopIsEvent` | pyoptoma/__init__.py:66 | the unterminated "INFO1" frame is routed as an event |
| `Optoma.OptomaThread.constructor` | pyoptoma/__init__.py:56-61 | no reply seen yet and the ready flag clear |
| `Optoma.OptomaThread.RunStep` | pyoptoma/__init__.py:63-70 | an event frame runs exactly its handlers and leaves slot and flag alone; any other frame becomes the last line and raises the flag; a blocked read changes nothing; a decode error ends the thread and leaves the input as it was |
| `Optoma.OptomaThread.GetResponse` | pyoptoma/__init__.py:90-93 | with the flag raised, clears it and returns the stored reply; otherwise it would block, and nothing changes |
| `Optoma.Projector.constructor` | pyoptoma/__init__.py:97-103 | no events registered, lock unlocked, nothing written |
| `Optoma.Projector.AddEvent` | pyoptoma/__init__.py:119-124 | appends the handler to the end of the event's list, creating it if needed; every other event's list unchanged |
| `Optoma.Projector.NotifyEvent` | pyoptoma/__init__.py:126-139 | runs exactly the event's handlers in registration order, and no handlers when `_events.get` finds no list |
| `Optoma.Projector.PoweredOff` | pyoptoma/__init__.py:203-204 | subscribes the handler to INFO0 |
| `Optoma.Projector.PoweringOn` | pyoptoma/__init__.py:206-207 | subscribes the handler to INFO1 |
| `Optoma.Projector.PoweringOff` | pyoptoma/__init__.py:209-210 | subscribes the handler to INFO2 |
| `Optoma.Projector.InitLock` | pyoptoma/__init__.py:141-145 | unlocked, timer 0, no operation |
| `Optoma.Projector.SetLock` | pyoptoma/__init__.py:147-156 | the lock fields become the corrected locked state for the command at `now` |
| `Optoma.Projector.UnLock` | pyoptoma/__init__.py:158-162 | unlocked, timer 0, no operation |
| `Optoma.Projector.CheckLock` | pyoptoma/__init__.py:165-177 | answer and new lock fields are those of the lock check on the old fields |
| `Optoma.Projector.SendRecv` | pyoptoma/__init__.py:111-117 | a known command writes its wire frame once and yields the reply; an unknown one raises before writing |
| `Optoma.Projector.GetProperty` | pyoptoma/__init__.py:180-201 | busy: 'BUSY' and nothing written; unknown command: AttributeError, nothing written; otherwise one frame written and the reply decoded; the lock is only checked, never set |
| `Optoma.Projector.SendCommand` | pyoptoma/__init__.py:212-224 | busy: False, nothing written, lock unchanged; otherwise the lock is set for the command before the write, then the acknowledgement is decoded |
| `Optoma.SubscriptionOrder` | pyoptoma/__init__.py:119-139 | two handlers subscribed to INFO1 run in subscription order, and INFO2 runs none |
| `Optoma.PowerOnThenBusy` | pyoptoma/__init__.py:212-224 | TURN_ON acknowledged with P returns OK; the next command is refused without a write; a query 39.5 seconds later is still BUSY, and one 40.5 seconds later is written and answered 'on' |
| `Optoma.ReplyThenInfo1Frames` | pyoptoma/__init__.py:72-88 | the bytes `OK1 0x0D INFO1` split into the frame OK1 and then the frame INFO1 |
| `Optoma.ReplyThenEvent` | pyoptoma/__init__.py:63-93 | a reply followed by INFO1 stores the reply and runs the INFO1 handler; the reply is taken once, and a second take would block |
| `Optoma.Info1WithTerminatorLeavesEmptyReply` | pyoptoma/__init__.py:63-93 | INFO1 sent with a terminator runs its handler, and the stray 0x0D is stored as an empty reply that `get_response` returns |

## Left out

- Opening the serial port (`serial.serial_for_url`) and the raw byte read and write are I/O through a library that is not part of this model. Reads are the byte sequence `OptomaThread.input`, and writes are the log `Projector.sent`.
- The thread itself, the endless loop of `run`, the blocking `threading.Event.wait()` and `_command_lock` exist for concurrency. The model has one pass of the loop (`RunStep`) and a take from the reply slot that does not block (`GetResponse`).
- `Optoma.Projector.GetProperty`, `Optoma.Projector.SendCommand`: the reply that `_sendrecv` would wait for is a parameter. These methods are not wired to the reader thread's slot.
- `time.time()` floats: the clock is the parameter `now: real`, without rounding. `send_command` reads the clock twice, once in `__checkLock` (line 173) and once in `__setLock` (line 156). `Optoma.Projector.SendCommand` uses one `now` for both, so the lock is timed at the instant of the check.
- `get_property` is `async` in the source, and the coroutine wrapper is not modelled. The `timeout` it computes with `__get_timeout` is never used and has no effect.
- `_LOGGER` calls have no effect on results and are not modelled.
- What handlers do when called (`handler()`) is foreign code. Handlers are identifiers, and an exception raised by a handler is not modelled.
- `_send` (write without waiting for a reply) is never called by the modelled operations and is not modelled.
- UTF-8 decoding is modelled only for single bytes: a byte below 0x80 is its character, and any other non-NUL byte raises.

## Findings

| source | as written | input that shows it | evidently intended | confidence | as-written member | corrected member |
|---|---|---|---|---|---|---|
| pyoptoma/__init__.py:154 | `self._operation = ALL` reads a name that the module never defines. `__setLock` raises NameError before any field is set, so `send_command` never writes for such a command | `send_command('3D_SBS')` (or any command that is neither a power command nor a source) while unlocked | lock the generic class under the key `'ALL'`, whose timeout is 2 (line 35) | high, from reading; not executed | `BusyLock.SetLockAsWrittenRaises` | `BusyLock.OtherCommandsAreGeneric` |
