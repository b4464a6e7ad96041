/**
 * The frame decoder of the reader thread (`OptomaThread._readline`).
 *
 * Bytes are taken one at a time from the serial line. A carriage return
 * (0x0D) ends the frame and is dropped; a NUL byte (0x00) is dropped; any
 * other byte is decoded as one character. As soon as the accumulated text is
 * exactly "INFO1" the frame ends without a terminator. A byte of 0x80 or more
 * on its own is not valid UTF-8, so decoding it raises.
 */
module FrameReader {

  newtype byte = x: int | 0 <= x < 256

  const CR: byte := 0x0D
  const NUL: byte := 0x00

  /** The one event the projector sends without a terminator. */
  const EARLY_STOP: string := "INFO1"

  /**
   * The result of one `_readline` call on the bytes the port will deliver:
   * a frame and the bytes left unread, a read that is still waiting for more
   * bytes (the port delivered all of `input` and the frame is not complete),
   * or the UnicodeDecodeError raised for a non-ASCII byte.
   */
  datatype ReadResult = Frame(line: string, rest: seq<byte>) | Incomplete | DecodeError

  /** A single byte decodes to a character exactly when it is ASCII. */
  predicate Decodable(b: byte) { b < 0x80 }

  function ToChar(b: byte): char { (b as int) as char }

  /** The accumulated text after one more byte: NUL bytes add nothing. */
  function Append(acc: string, b: byte): string
  {
    if b == NUL then acc else acc + [ToChar(b)]
  }

  /** The text that the bytes `bs` contribute, every NUL byte removed. */
  function Clean(bs: seq<byte>): string
  {
    if bs == [] then "" else Append(Clean(bs[..|bs| - 1]), bs[|bs| - 1])
  }

  /** No carriage return and no NUL character. */
  predicate NoControl(s: string)
  {
    forall i :: 0 <= i < |s| ==> s[i] != '\r' && s[i] != '\0'
  }

  /**
   * The loop of `_readline`, with `acc` the text accumulated so far:
   * the reference definition of what one call returns.
   */
  function Scan(acc: string, bs: seq<byte>): (r: ReadResult)
    ensures r.Frame? ==> |acc| <= |r.line| && |r.rest| < |bs|
    decreases |bs|
  {
    if bs == [] then Incomplete
    else if bs[0] == CR then Frame(acc, bs[1..])
    else if bs[0] != NUL && !Decodable(bs[0]) then DecodeError
    else
      var acc' := Append(acc, bs[0]);
      if acc' == EARLY_STOP then Frame(acc', bs[1..]) else Scan(acc', bs[1..])
  }

  /** `_readline` itself: one frame from the front of `input`. */
  method ReadLine(input: seq<byte>) returns (r: ReadResult)
    ensures r == Scan("", input)
  {
    var output := "";
    var i := 0;
    while i < |input|
      invariant 0 <= i <= |input|
      invariant Scan(output, input[i..]) == Scan("", input)
    {
      var b := input[i];
      assert input[i..][1..] == input[i + 1..];
      i := i + 1;
      if b == CR {
        return Frame(output, input[i..]);
      }
      if b != NUL {
        if !Decodable(b) {
          return DecodeError;
        }
        output := output + [ToChar(b)];
      }
      if output == EARLY_STOP {
        return Frame(output, input[i..]);
      }
    }
    return Incomplete;
  }

  /**
   * Byte `i` neither ends the frame nor raises: it is not a carriage return,
   * it decodes (or is NUL), and the text up to and including it is not "INFO1".
   */
  predicate Continues(bs: seq<byte>, i: nat)
    requires i < |bs|
  {
    bs[i] != CR && (bs[i] == NUL || Decodable(bs[i])) && Clean(bs[..i + 1]) != EARLY_STOP
  }

  lemma CleanStep(bs: seq<byte>, k: nat)
    requires k < |bs|
    ensures Clean(bs[..k + 1]) == Append(Clean(bs[..k]), bs[k])
  {
    assert bs[..k + 1][..k] == bs[..k];
  }

  /** After `k` bytes that all continue, the scan is at `bs[k..]` with their clean text. */
  lemma {:induction false} ScanPrefix(bs: seq<byte>, k: nat)
    requires k <= |bs|
    requires forall i :: 0 <= i < k ==> Continues(bs, i)
    ensures Scan("", bs) == Scan(Clean(bs[..k]), bs[k..])
  {
    if k > 0 {
      ScanPrefix(bs, k - 1);
      CleanStep(bs, k - 1);
      assert Continues(bs, k - 1);
      var tail := bs[k - 1..];
      assert tail[0] == bs[k - 1] && tail[1..] == bs[k..];
      assert Scan(Clean(bs[..k - 1]), tail) == Scan(Clean(bs[..k]), bs[k..]);
    }
  }

  /** A carriage return ends the frame: it is consumed and not part of the text. */
  lemma TerminatedFrame(bs: seq<byte>, k: nat)
    requires k < |bs| && bs[k] == CR
    requires forall i :: 0 <= i < k ==> Continues(bs, i)
    ensures Scan("", bs) == Frame(Clean(bs[..k]), bs[k + 1..])
  {
    ScanPrefix(bs, k);
    assert bs[k..][1..] == bs[k + 1..];
  }

  /** The byte that completes "INFO1" ends the frame; the bytes after it stay unread. */
  lemma EarlyStopFrame(bs: seq<byte>, k: nat)
    requires k < |bs| && bs[k] != CR && (bs[k] == NUL || Decodable(bs[k]))
    requires Clean(bs[..k + 1]) == EARLY_STOP
    requires forall i :: 0 <= i < k ==> Continues(bs, i)
    ensures Scan("", bs) == Frame(EARLY_STOP, bs[k + 1..])
  {
    ScanPrefix(bs, k);
    CleanStep(bs, k);
    assert bs[k..][1..] == bs[k + 1..];
  }

  /** A non-ASCII byte reached before the frame ends raises. */
  lemma DecodeErrorAt(bs: seq<byte>, k: nat)
    requires k < |bs| && bs[k] != CR && bs[k] != NUL && !Decodable(bs[k])
    requires forall i :: 0 <= i < k ==> Continues(bs, i)
    ensures Scan("", bs) == DecodeError
  {
    ScanPrefix(bs, k);
  }

  /** When every byte continues, the read is still waiting for its frame to end. */
  lemma WaitingForMore(bs: seq<byte>)
    requires forall i :: 0 <= i < |bs| ==> Continues(bs, i)
    ensures Scan("", bs) == Incomplete
  {
    ScanPrefix(bs, |bs|);
  }

  /**
   * Every frame is free of carriage returns and NUL characters, and what is
   * left unread is a suffix of the input.
   */
  lemma {:induction false} FrameShape(acc: string, bs: seq<byte>)
    requires NoControl(acc)
    ensures Scan(acc, bs).Frame? ==>
      NoControl(Scan(acc, bs).line) &&
      Scan(acc, bs).rest == bs[|bs| - |Scan(acc, bs).rest|..]
    decreases |bs|
  {
    if bs != [] && bs[0] != CR && (bs[0] == NUL || Decodable(bs[0])) {
      var acc' := Append(acc, bs[0]);
      assert NoControl(acc');
      if acc' != EARLY_STOP {
        FrameShape(acc', bs[1..]);
        if Scan(acc', bs[1..]).Frame? {
          var rest := Scan(acc', bs[1..]).rest;
          assert bs[1..][|bs[1..]| - |rest|..] == bs[|bs| - |rest|..];
        }
      }
    }
  }

  /** The device quirk: "INFO1" with no terminator is a whole frame. */
  lemma Info1WithoutTerminator()
    ensures Scan("", [0x49, 0x4E, 0x46, 0x4F, 0x31]) == Frame("INFO1", [])
  {
    var bs: seq<byte> := [0x49, 0x4E, 0x46, 0x4F, 0x31];
    CleanStep(bs, 0);
    CleanStep(bs, 1);
    CleanStep(bs, 2);
    CleanStep(bs, 3);
    CleanStep(bs, 4);
    EarlyStopFrame(bs, 4);
  }

  /**
   * The early stop also fires when "INFO1" does come with its terminator:
   * the frame ends before the 0x0D, which then reads as an empty frame.
   */
  lemma Info1WithTerminator()
    ensures Scan("", [0x49, 0x4E, 0x46, 0x4F, 0x31, 0x0D]) == Frame("INFO1", [0x0D])
    ensures Scan("", [0x0D]) == Frame("", [])
  {
    var bs: seq<byte> := [0x49, 0x4E, 0x46, 0x4F, 0x31, 0x0D];
    CleanStep(bs, 0);
    CleanStep(bs, 1);
    CleanStep(bs, 2);
    CleanStep(bs, 3);
    CleanStep(bs, 4);
    EarlyStopFrame(bs, 4);
    assert bs[5..] == [0x0D];
  }

  /** A NUL byte inside a frame is dropped: `A 0x00 B 0x0D` reads as "AB". */
  lemma NulIsDropped()
    ensures Scan("", [0x41, 0x00, 0x42, 0x0D]) == Frame("AB", [])
  {
    var bs: seq<byte> := [0x41, 0x00, 0x42, 0x0D];
    CleanStep(bs, 0);
    CleanStep(bs, 1);
    CleanStep(bs, 2);
    TerminatedFrame(bs, 3);
  }
}
