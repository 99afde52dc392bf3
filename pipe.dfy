/** The stdin half of `apply_wal_records` (src/walredo.rs): handing the
    command frames to the child over its stdin pipe. How many bytes the pipe
    takes in one `write` call is the operating system's choice, and an input
    here. */
module WalRedoPipe {
  import opened Wrappers
  import opened ByteOrder
  import opened WalRedoMessages
  import opened WalRedoCommands

  /** How many bytes a write of `len` bytes hands over when the pipe has
      room for `accepted`. */
  function Taken(len: nat, accepted: nat): (n: nat)
    ensures n <= len
    ensures n == len <==> accepted >= len
  {
    if accepted < len then accepted else len
  }

  datatype WriteError =
    | WriteZero    // a write took no bytes: the pipe is closed
    | TimedOut     // the write did not finish before the deadline
    | IoError      // the write returned an io::Error, such as a broken pipe

  /** What the pipe does with one `write` call: take the front of the buffer,
      as much as it has room for, or fail (the call's own error, or the
      `timeout` around it expiring). */
  datatype WriteOutcome =
    | Room(room: nat)
    | Fails(error: WriteError)

  /** A write with outcome o hands over the whole of a buffer of len bytes. */
  predicate Whole(len: nat, o: WriteOutcome)
  {
    o.Room? && o.room >= len
  }

  /** The write end of the child's stdin: the bytes the child has been sent. */
  class ChildStdin {
    var sent: seq<byte>

    constructor ()
      ensures sent == []
    {
      sent := [];
    }

    /** One `write` call: on Room, the pipe takes what it has room for, from
        the front of buf, and the count is returned; on Fails, nothing is
        taken and the error is returned. */
    method Write(buf: seq<byte>, outcome: WriteOutcome) returns (r: Result<nat, WriteError>)
      modifies this
      ensures outcome.Fails? ==> r == Err(outcome.error) && sent == old(sent)
      ensures outcome.Room? ==> r == Ok(Taken(|buf|, outcome.room)) && sent == old(sent) + buf[..r.value]
      ensures r.Ok? && r.value == |buf| <==> Whole(|buf|, outcome)
    {
      match outcome {
        case Fails(e) =>
          r := Err(e);
        case Room(room) =>
          var n := Taken(|buf|, room);
          sent := sent + buf[..n];
          r := Ok(n);
      }
    }
  }

  // ---------------------------------------------------------------------
  // As written: one `write` per frame, its count ignored

  /** The position of the first failing write, or |outcomes| when none fails. */
  function FirstFailure(outcomes: seq<WriteOutcome>): (k: nat)
    ensures k <= |outcomes|
    ensures forall j :: 0 <= j < k ==> outcomes[j].Room?
    ensures k < |outcomes| ==> outcomes[k].Fails?
  {
    if outcomes == [] then 0
    else if outcomes[0].Fails? then 0
    else 1 + FirstFailure(outcomes[1..])
  }

  /** What the child receives when frame k goes to a single `write` whose
      outcome is outcomes[k]: the part of each frame its write took, up to
      the first failing write, after which nothing more is written. */
  function Delivered(frames: seq<seq<byte>>, outcomes: seq<WriteOutcome>): seq<byte>
    requires |outcomes| == |frames|
  {
    if frames == [] then []
    else match outcomes[0]
      case Fails(_) => []
      case Room(room) => frames[0][..Taken(|frames[0]|, room)] + Delivered(frames[1..], outcomes[1..])
  }

  /** Lines 196-213: each frame is passed to `stdin.write` once, inside
      `timeout(..).await??`. The number of bytes written is dropped, and the
      first failing write ends the sending with its error. */
  method SendFramesAsWritten(stdin: ChildStdin, frames: seq<seq<byte>>, outcomes: seq<WriteOutcome>)
    returns (r: Result<(), WriteError>)
    requires |outcomes| == |frames|
    modifies stdin
    ensures stdin.sent == old(stdin.sent) + Delivered(frames, outcomes)
    ensures r.Ok? <==> FirstFailure(outcomes) == |outcomes|
    ensures r.Err? ==> r.error == outcomes[FirstFailure(outcomes)].error
  {
    for k := 0 to |frames|
      invariant stdin.sent + Delivered(frames[k..], outcomes[k..]) == old(stdin.sent) + Delivered(frames, outcomes)
      invariant FirstFailure(outcomes) == k + FirstFailure(outcomes[k..])
    {
      assert frames[k..][1..] == frames[k + 1..] && outcomes[k..][1..] == outcomes[k + 1..];
      var w := stdin.Write(frames[k], outcomes[k]);
      if w.Err? {
        return Err(w.error);
      }
    }
    r := Ok(());
  }

  /** Nothing is written after the first failing write: the child gets
      exactly what the writes before it delivered. */
  lemma {:induction false} DeliveredStopsAtFailure(frames: seq<seq<byte>>, outcomes: seq<WriteOutcome>)
    requires |outcomes| == |frames|
    ensures var k := FirstFailure(outcomes);
      Delivered(frames, outcomes) == Delivered(frames[..k], outcomes[..k])
  {
    if frames != [] && outcomes[0].Room? {
      var k := FirstFailure(outcomes);
      DeliveredStopsAtFailure(frames[1..], outcomes[1..]);
      assert frames[..k][1..] == frames[1..][..k - 1] && outcomes[..k][1..] == outcomes[1..][..k - 1];
    }
  }

  /** When every frame is non-empty, as every built frame is, the child gets
      no more bytes than the frames hold, and all of them, in order, exactly
      when every write took its whole frame. */
  lemma {:induction false} DeliveredLength(frames: seq<seq<byte>>, outcomes: seq<WriteOutcome>)
    requires |outcomes| == |frames|
    requires forall k :: 0 <= k < |frames| ==> frames[k] != []
    ensures |Delivered(frames, outcomes)| <= |Concat(frames)|
    ensures |Delivered(frames, outcomes)| == |Concat(frames)| <==>
      forall k :: 0 <= k < |frames| ==> Whole(|frames[k]|, outcomes[k])
    ensures (forall k :: 0 <= k < |frames| ==> Whole(|frames[k]|, outcomes[k])) ==>
      Delivered(frames, outcomes) == Concat(frames)
  {
    if frames != [] {
      DeliveredLength(frames[1..], outcomes[1..]);
      var full := forall k :: 0 <= k < |frames| ==> Whole(|frames[k]|, outcomes[k]);
      var fullTail := forall k :: 0 <= k < |frames[1..]| ==> Whole(|frames[1..][k]|, outcomes[1..][k]);
      assert full <==> Whole(|frames[0]|, outcomes[0]) && fullTail by {
        if Whole(|frames[0]|, outcomes[0]) && fullTail {
          forall k | 0 < k < |frames| ensures Whole(|frames[k]|, outcomes[k]) {
            assert outcomes[k] == outcomes[1..][k - 1] && frames[k] == frames[1..][k - 1];
          }
        }
        if full {
          forall k | 0 <= k < |frames[1..]| ensures Whole(|frames[1..][k]|, outcomes[1..][k]) {
            assert outcomes[1..][k] == outcomes[k + 1];
          }
        }
      }
      match outcomes[0]
      case Fails(_) =>
        assert Concat(frames) == frames[0] + Concat(frames[1..]);
      case Room(room) =>
        if room >= |frames[0]| {
          assert frames[0][..Taken(|frames[0]|, room)] == frames[0];
        }
    }
  }

  /** A write that does not take its whole frame, whether short or failed,
      leaves the child a byte stream that does not decode to the commands,
      whatever the other writes do. */
  lemma ShortWriteLosesCommands(cs: seq<Command>, outcomes: seq<WriteOutcome>, k: nat)
    requires AllBuildable(cs) && |outcomes| == |cs|
    requires k < |cs| && !Whole(|Encode(cs[k])|, outcomes[k])
    ensures DecodeStream(Delivered(Frames(cs), outcomes)) != Some(cs)
  {
    var frames := Frames(cs);
    var d := Delivered(frames, outcomes);
    DeliveredLength(frames, outcomes);
    assert !Whole(|frames[k]|, outcomes[k]);
    if DecodeStream(d).Some? {
      StreamDecodeUnique(d);
    }
  }

  /** The case that makes the short write a live possibility: the 8217-byte
      push-page frame is larger than the 4096 bytes a pipe write is atomic
      for, and if the pipe takes only those 4096 bytes the child never sees
      the commands. */
  lemma PushPageShortWrite(tag: BufferTag, baseImg: seq<byte>, records: seq<WalRecord>, outcomes: seq<WriteOutcome>)
    requires |baseImg| == PAGE_SIZE
    requires |outcomes| == |Commands(tag, Some(baseImg), records)| && outcomes[1] == Room(4096)
    ensures AllBuildable(Commands(tag, Some(baseImg), records))
    ensures DecodeStream(Delivered(Frames(Commands(tag, Some(baseImg), records)), outcomes))
            != Some(Commands(tag, Some(baseImg), records))
  {
    var cs := Commands(tag, Some(baseImg), records);
    CommandsOrder(tag, Some(baseImg), records);
    CommandsBuildable(tag, Some(baseImg), records);
    PushPageMsgLayout(tag, baseImg);
    ShortWriteLosesCommands(cs, outcomes, 1);
  }

  /** The short write goes unreported: when no write fails, the sending as
      written returns Ok (SendApplyRequestAsWritten), yet with the push-page
      frame cut at 4096 bytes the child's stream does not decode to the
      request. */
  lemma PushPageShortWriteReportedOk(tag: BufferTag, baseImg: seq<byte>, records: seq<WalRecord>,
                                     outcomes: seq<WriteOutcome>)
    requires |baseImg| == PAGE_SIZE
    requires |outcomes| == |Commands(tag, Some(baseImg), records)| && outcomes[1] == Room(4096)
    requires forall k :: 0 <= k < |outcomes| ==> outcomes[k].Room?
    ensures FirstFailure(outcomes) == |outcomes|
    ensures AllBuildable(Commands(tag, Some(baseImg), records))
    ensures DecodeStream(Delivered(Frames(Commands(tag, Some(baseImg), records)), outcomes))
            != Some(Commands(tag, Some(baseImg), records))
  {
    PushPageShortWrite(tag, baseImg, records, outcomes);
  }

  /** Lines 193-217 as written: build the frames, then one `write` each,
      stopping at the first failing write. */
  method SendApplyRequestAsWritten(stdin: ChildStdin, tag: BufferTag, baseImg: Option<seq<byte>>,
                                   records: seq<WalRecord>, outcomes: seq<WriteOutcome>)
    returns (r: Result<(), WriteError>)
    requires ValidBaseImage(baseImg)
    requires |outcomes| == |Commands(tag, baseImg, records)|
    modifies stdin
    ensures AllBuildable(Commands(tag, baseImg, records))
    ensures stdin.sent == old(stdin.sent) + Delivered(Frames(Commands(tag, baseImg, records)), outcomes)
    ensures r.Ok? <==> FirstFailure(outcomes) == |outcomes|
    ensures r.Err? ==> r.error == outcomes[FirstFailure(outcomes)].error
  {
    var msgs := BuildOutboundMessages(tag, baseImg, records);
    r := SendFramesAsWritten(stdin, msgs, outcomes);
  }

  // ---------------------------------------------------------------------
  // Corrected: every frame sent with `write_all`

  /** Every write call makes progress: the pipe has room for at least one
      byte each time. */
  predicate Progress(chunks: seq<WriteOutcome>)
  {
    forall j :: 0 <= j < |chunks| ==> chunks[j].Room? && chunks[j].room > 0
  }

  /** `write_all`: call `write` on what is left until the whole buffer is
      taken. chunks[j] is the outcome of the j-th call; running out of calls
      is the `timeout` around the writes expiring. It succeeds when every
      call makes progress and there are enough of them, and the first call's
      failure, zero count or absence is the error of a non-empty write. */
  method WriteAll(stdin: ChildStdin, buf: seq<byte>, chunks: seq<WriteOutcome>)
    returns (r: Result<(), WriteError>, written: nat)
    modifies stdin
    ensures written <= |buf| && stdin.sent == old(stdin.sent) + buf[..written]
    ensures r.Ok? <==> written == |buf|
    ensures Progress(chunks) && |buf| <= |chunks| ==> r.Ok?
    ensures |buf| > 0 && chunks == [] ==> r == Err(TimedOut) && written == 0
    ensures |buf| > 0 && chunks != [] && chunks[0].Fails? ==> r == Err(chunks[0].error) && written == 0
    ensures |buf| > 0 && chunks != [] && chunks[0] == Room(0) ==> r == Err(WriteZero) && written == 0
  {
    written := 0;
    var j := 0;
    while written < |buf|
      invariant written <= |buf| && j <= |chunks|
      invariant stdin.sent == old(stdin.sent) + buf[..written]
      invariant Progress(chunks) ==> written >= j
      invariant j == 0 ==> written == 0
      invariant j > 0 ==> chunks[0].Room? && chunks[0].room > 0
      decreases |chunks| - j
    {
      if j == |chunks| {
        return Err(TimedOut), written;
      }
      var w := stdin.Write(buf[written..], chunks[j]);
      if w.Err? {
        return Err(w.error), written;
      }
      var n := w.value;
      if n == 0 {
        return Err(WriteZero), written;
      }
      assert buf[..written + n] == buf[..written] + buf[written..][..n];
      written := written + n;
      j := j + 1;
    }
    r := Ok(());
  }

  /** Send the frames one after another with `write_all`, stopping at the
      first error as `?` does. On success the child has been sent every
      frame whole, in order; on failure a proper prefix of that. */
  method SendFrames(stdin: ChildStdin, frames: seq<seq<byte>>, chunks: seq<seq<WriteOutcome>>)
    returns (r: Result<(), WriteError>)
    requires |chunks| == |frames|
    modifies stdin
    ensures r.Ok? ==> stdin.sent == old(stdin.sent) + Concat(frames)
    ensures r.Err? ==> stdin.sent < old(stdin.sent) + Concat(frames)
    ensures (forall k :: 0 <= k < |frames| ==> Progress(chunks[k]) && |frames[k]| <= |chunks[k]|) ==> r.Ok?
  {
    for k := 0 to |frames|
      invariant stdin.sent == old(stdin.sent) + Concat(frames[..k])
    {
      var res, written := WriteAll(stdin, frames[k], chunks[k]);
      if res.Err? {
        CutShort(old(stdin.sent), frames, k, written);
        return res;
      }
      ConcatPrefixSnoc(frames, k);
    }
    assert frames[..|frames|] == frames;
    r := Ok(());
  }

  /** The frames before k + 1 are the frames before k and frame k. */
  lemma ConcatPrefixSnoc(frames: seq<seq<byte>>, k: nat)
    requires k < |frames|
    ensures Concat(frames[..k + 1]) == Concat(frames[..k]) + frames[k]
  {
    assert frames[..k + 1] == frames[..k] + [frames[k]];
    ConcatAppend(frames[..k], [frames[k]]);
  }

  /** The frames are the frames before k, frame k, and the frames after it. */
  lemma ConcatSplit(frames: seq<seq<byte>>, k: nat)
    requires k < |frames|
    ensures Concat(frames) == Concat(frames[..k]) + frames[k] + Concat(frames[k + 1..])
  {
    assert frames == frames[..k] + frames[k..];
    ConcatAppend(frames[..k], frames[k..]);
    assert frames[k..][1..] == frames[k + 1..];
  }

  /** Stopping part-way through frame k leaves a proper prefix of the stream. */
  lemma CutShort(sent: seq<byte>, frames: seq<seq<byte>>, k: nat, written: nat)
    requires k < |frames| && written < |frames[k]|
    ensures sent + Concat(frames[..k]) + frames[k][..written] < sent + Concat(frames)
  {
    ConcatSplit(frames, k);
    var whole := sent + Concat(frames[..k]) + frames[k] + Concat(frames[k + 1..]);
    var cut := sent + Concat(frames[..k]) + frames[k][..written];
    assert whole == cut + (frames[k][written..] + Concat(frames[k + 1..]));
  }

  /** The stdin half of `apply_wal_records` with `write_all` in place of
      `write`: on success the child has been sent exactly the command
      stream, which decodes back to the commands (OutboundStreamDecodes). */
  method SendApplyRequest(stdin: ChildStdin, tag: BufferTag, baseImg: Option<seq<byte>>,
                          records: seq<WalRecord>, chunks: seq<seq<WriteOutcome>>)
    returns (r: Result<(), WriteError>)
    requires ValidBaseImage(baseImg)
    requires |chunks| == |Commands(tag, baseImg, records)|
    modifies stdin
    ensures AllBuildable(Commands(tag, baseImg, records))
    ensures r.Ok? ==> stdin.sent == old(stdin.sent) + Concat(Frames(Commands(tag, baseImg, records)))
    ensures r.Err? ==> stdin.sent < old(stdin.sent) + Concat(Frames(Commands(tag, baseImg, records)))
    ensures (forall k :: 0 <= k < |chunks| ==>
      Progress(chunks[k]) && |Frames(Commands(tag, baseImg, records))[k]| <= |chunks[k]|) ==> r.Ok?
  {
    var msgs := BuildOutboundMessages(tag, baseImg, records);
    r := SendFrames(stdin, msgs, chunks);
  }
}
