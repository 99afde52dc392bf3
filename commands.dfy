/** The commands one redo request sends to the child (the writing half of
    `apply_wal_records` in src/walredo.rs), and the byte stream they make. */
module WalRedoCommands {
  import opened Wrappers
  import opened ByteOrder
  import opened WalRedoMessages

  /** A base image, when present, is one page (the collaborator's contract,
      which `build_push_page_msg` asserts). */
  predicate ValidBaseImage(baseImg: Option<seq<byte>>)
  {
    baseImg.Some? ==> |baseImg.value| == PAGE_SIZE
  }

  /** Every record small enough for the u32 length field of its frame. */
  predicate RecordsFit(records: seq<WalRecord>)
  {
    forall i :: 0 <= i < |records| ==> 12 + |records[i].rec| < 0x1_0000_0000
  }

  predicate AllBuildable(cs: seq<Command>)
  {
    forall i :: 0 <= i < |cs| ==> Buildable(cs[i])
  }

  predicate AllWellFormed(cs: seq<Command>)
  {
    forall i :: 0 <= i < |cs| ==> WellFormed(cs[i])
  }

  function ApplyCommand(r: WalRecord): Command
  {
    ApplyRecord(r.lsn, r.rec)
  }

  /** Index of the first apply-record command: after begin and the image. */
  function FirstRecordIndex(baseImg: Option<seq<byte>>): nat
  {
    if baseImg.Some? then 2 else 1
  }

  /** The number of commands one request sends. */
  function CommandCount(baseImg: Option<seq<byte>>, records: seq<WalRecord>): nat
  {
    FirstRecordIndex(baseImg) + |records| + 1
  }

  /** The k-th command of a request: begin, then the base image if there is
      one, then one apply-record per WAL record in input order, then get-page. */
  function CommandNth(tag: BufferTag, baseImg: Option<seq<byte>>, records: seq<WalRecord>, k: nat): Command
    requires k < CommandCount(baseImg, records)
  {
    var first := FirstRecordIndex(baseImg);
    if k == 0 then BeginRedo(tag)
    else if k < first then PushPage(tag, baseImg.value)
    else if k < first + |records| then ApplyCommand(records[k - first])
    else GetPage(tag)
  }

  /** The commands of one request, in the order they are written. */
  function Commands(tag: BufferTag, baseImg: Option<seq<byte>>, records: seq<WalRecord>): seq<Command>
  {
    seq(CommandCount(baseImg, records),
        k requires 0 <= k < CommandCount(baseImg, records) => CommandNth(tag, baseImg, records, k))
  }

  /** One apply-record command per WAL record, in input order. */
  function RecordCommands(records: seq<WalRecord>): (r: seq<Command>)
    ensures |r| == |records|
    ensures forall k :: 0 <= k < |records| ==> r[k] == ApplyCommand(records[k])
  {
    seq(|records|, k requires 0 <= k < |records| => ApplyCommand(records[k]))
  }

  /** The frames of a list of commands, one per command. */
  function Frames(cs: seq<Command>): (r: seq<seq<byte>>)
    requires AllBuildable(cs)
    ensures |r| == |cs|
    ensures forall i :: 0 <= i < |cs| ==> r[i] == Encode(cs[i])
  {
    seq(|cs|, i requires 0 <= i < |cs| => Encode(cs[i]))
  }

  /** Every command of a request with a page-sized base image can be built. */
  lemma CommandsBuildable(tag: BufferTag, baseImg: Option<seq<byte>>, records: seq<WalRecord>)
    requires ValidBaseImage(baseImg)
    ensures AllBuildable(Commands(tag, baseImg, records))
  {
    var cs := Commands(tag, baseImg, records);
    forall k | 0 <= k < |cs| ensures Buildable(cs[k]) {
      assert cs[k] == CommandNth(tag, baseImg, records, k);
    }
  }

  /** The frames of a request are the frames the builders make, in the order
      they are written. */
  lemma FramesAsWritten(tag: BufferTag, baseImg: Option<seq<byte>>, records: seq<WalRecord>)
    requires ValidBaseImage(baseImg)
    ensures AllBuildable(Commands(tag, baseImg, records))
    ensures Frames(Commands(tag, baseImg, records)) ==
      [BuildBeginRedoForBlockMsg(tag)]
        + (if baseImg.Some? then [BuildPushPageMsg(tag, baseImg.value)] else [])
        + Frames(RecordCommands(records))
        + [BuildGetPageMsg(tag)]
  {
    CommandsAsWritten(tag, baseImg, records);
    var image: seq<Command> := if baseImg.Some? then [PushPage(tag, baseImg.value)] else [];
    var head := [BeginRedo(tag)] + image;
    var body := RecordCommands(records);
    assert Frames(head) == [BuildBeginRedoForBlockMsg(tag)] + (if baseImg.Some? then [BuildPushPageMsg(tag, baseImg.value)] else []);
    var tail := [GetPage(tag)];
    assert Frames(tail) == [BuildGetPageMsg(tag)];
    FramesAppend(head, body);
    FramesAppend(head + body, tail);
    assert Frames(head + body + tail) == Frames(head) + Frames(body) + Frames(tail);
  }

  /** Framing distributes over concatenation. */
  lemma FramesAppend(a: seq<Command>, b: seq<Command>)
    requires AllBuildable(a) && AllBuildable(b)
    ensures AllBuildable(a + b)
    ensures Frames(a + b) == Frames(a) + Frames(b)
  {
    forall i | 0 <= i < |a + b| ensures Buildable((a + b)[i]) {
      if i >= |a| { assert (a + b)[i] == b[i - |a|]; }
    }
  }

  /** The apply-record frames of the first i + 1 records are those of the
      first i, then record i's frame. */
  lemma RecordFramesSnoc(records: seq<WalRecord>, i: nat)
    requires i < |records|
    ensures AllBuildable(RecordCommands(records[..i + 1]))
    ensures Frames(RecordCommands(records[..i + 1])) ==
      Frames(RecordCommands(records[..i])) + [BuildApplyRecordMsg(records[i].lsn, records[i].rec)]
  {
    var longer := Frames(RecordCommands(records[..i + 1]));
    var shorter := Frames(RecordCommands(records[..i])) + [BuildApplyRecordMsg(records[i].lsn, records[i].rec)];
    forall k | 0 <= k < |longer| ensures longer[k] == shorter[k] {
      assert records[..i + 1][k] == records[k];
      if k < i { assert records[..i][k] == records[k]; }
    }
  }

  /** The loop of `apply_wal_records` that writes the frames in order,
      collecting them instead of writing them. */
  method BuildOutboundMessages(tag: BufferTag, baseImg: Option<seq<byte>>, records: seq<WalRecord>)
    returns (msgs: seq<seq<byte>>)
    requires ValidBaseImage(baseImg)
    ensures AllBuildable(Commands(tag, baseImg, records))
    ensures msgs == Frames(Commands(tag, baseImg, records))
  {
    msgs := [BuildBeginRedoForBlockMsg(tag)];
    if baseImg.Some? {
      msgs := msgs + [BuildPushPageMsg(tag, baseImg.value)];
    }
    ghost var head := msgs;
    for i := 0 to |records|
      invariant AllBuildable(RecordCommands(records[..i]))
      invariant msgs == head + Frames(RecordCommands(records[..i]))
    {
      var r := records[i];
      RecordFramesSnoc(records, i);
      msgs := msgs + [BuildApplyRecordMsg(r.lsn, r.rec)];
    }
    assert records[..|records|] == records;
    msgs := msgs + [BuildGetPageMsg(tag)];
    FramesAsWritten(tag, baseImg, records);
  }

  /** The shape of the outbound sequence: begin first, the push-page exactly
      when a base image is present, exactly one apply-record per WAL record
      carrying that record in input order, and exactly one get-page, last. */
  lemma CommandsOrder(tag: BufferTag, baseImg: Option<seq<byte>>, records: seq<WalRecord>)
    ensures var cs := Commands(tag, baseImg, records);
      var first := FirstRecordIndex(baseImg);
      && |cs| == first + |records| + 1
      && cs[0] == BeginRedo(tag)
      && cs[|cs| - 1] == GetPage(tag)
      && (baseImg.Some? ==> cs[1] == PushPage(tag, baseImg.value))
      && (forall k :: 0 <= k < |records| ==> cs[first + k] == ApplyRecord(records[k].lsn, records[k].rec))
      && (forall i :: 0 <= i < |cs| ==> (cs[i].BeginRedo? <==> i == 0))
      && (forall i :: 0 <= i < |cs| ==> (cs[i].PushPage? <==> baseImg.Some? && i == 1))
      && (forall i :: 0 <= i < |cs| ==> (cs[i].ApplyRecord? <==> first <= i < first + |records|))
      && (forall i :: 0 <= i < |cs| ==> (cs[i].GetPage? <==> i == |cs| - 1))
  {
    var cs := Commands(tag, baseImg, records);
    var first := FirstRecordIndex(baseImg);
    forall k | 0 <= k < |records|
      ensures cs[first + k] == ApplyRecord(records[k].lsn, records[k].rec)
    {
      assert cs[first + k] == CommandNth(tag, baseImg, records, first + k);
    }
    forall i | 0 <= i < |cs|
      ensures cs[i].BeginRedo? <==> i == 0
      ensures cs[i].PushPage? <==> baseImg.Some? && i == 1
      ensures cs[i].ApplyRecord? <==> first <= i < first + |records|
      ensures cs[i].GetPage? <==> i == |cs| - 1
    {
      assert cs[i] == CommandNth(tag, baseImg, records, i);
    }
  }

  /** With no WAL records and a base image, a request is begin, push-page,
      get-page, and its frames are those three. */
  lemma ImageOnlyRequest(tag: BufferTag, image: seq<byte>)
    requires |image| == PAGE_SIZE
    ensures Commands(tag, Some(image), []) == [BeginRedo(tag), PushPage(tag, image), GetPage(tag)]
    ensures AllBuildable(Commands(tag, Some(image), []))
    ensures Frames(Commands(tag, Some(image), [])) ==
      [BuildBeginRedoForBlockMsg(tag), BuildPushPageMsg(tag, image), BuildGetPageMsg(tag)]
  {
    CommandsOrder(tag, Some(image), []);
    FramesAsWritten(tag, Some(image), []);
  }

  /** A request without a base image and with one record (lsn 100, bytes
      "INIT") for the page with tag (1, 1, 1, 0, 5) is begin, apply-record,
      get-page, and its frame tags are `B`, `A`, `G`. */
  lemma SingleRecordRequest()
    ensures var tag, records := BufferTag(1, 1, 1, 0, 5), [WalRecord(100, ['I' as int, 'N' as int, 'I' as int, 'T' as int])];
      && Commands(tag, None, records) == [BeginRedo(tag), ApplyRecord(100, records[0].rec), GetPage(tag)]
      && AllBuildable(Commands(tag, None, records))
      && FrameTags(Frames(Commands(tag, None, records))) == ['B' as int, 'A' as int, 'G' as int]
  {
    var tag, records := BufferTag(1, 1, 1, 0, 5), [WalRecord(100, ['I' as int, 'N' as int, 'I' as int, 'T' as int])];
    CommandsOrder(tag, None, records);
    OutboundFrameTags(tag, None, records);
    assert Repeat<byte>('A' as int, 1) == ['A' as int];
  }

  /** The same sequence written as the source writes it: begin, the push-page
      if there is a base image, the records' apply-records, get-page. */
  lemma CommandsAsWritten(tag: BufferTag, baseImg: Option<seq<byte>>, records: seq<WalRecord>)
    ensures Commands(tag, baseImg, records) ==
      [BeginRedo(tag)]
        + (if baseImg.Some? then [PushPage(tag, baseImg.value)] else [])
        + RecordCommands(records)
        + [GetPage(tag)]
  {
    var cs := Commands(tag, baseImg, records);
    var written := [BeginRedo(tag)]
        + (if baseImg.Some? then [PushPage(tag, baseImg.value)] else [])
        + RecordCommands(records)
        + [GetPage(tag)];
    var first := FirstRecordIndex(baseImg);
    assert |written| == |cs|;
    forall k | 0 <= k < |cs| ensures cs[k] == written[k] {
      assert cs[k] == CommandNth(tag, baseImg, records, k);
      if first <= k < first + |records| {
        assert written[k] == RecordCommands(records)[k - first];
      }
    }
  }

  /** The first byte of each frame: what an endpoint that echoes message
      tags would report. */
  function FrameTags(msgs: seq<seq<byte>>): (r: seq<byte>)
    requires forall i :: 0 <= i < |msgs| ==> |msgs[i]| > 0
    ensures |r| == |msgs|
  {
    seq(|msgs|, i requires 0 <= i < |msgs| => msgs[i][0])
  }

  /** The tag byte a command's frame starts with. */
  function CommandTag(c: Command): byte
  {
    match c
    case BeginRedo(_) => TAG_BEGIN
    case PushPage(_, _) => TAG_PUSH_PAGE
    case ApplyRecord(_, _) => TAG_APPLY_RECORD
    case GetPage(_) => TAG_GET_PAGE
  }

  lemma EncodeTag(c: Command)
    requires Buildable(c)
    ensures Encode(c)[0] == CommandTag(c)
  {
  }

  /** The first byte of each frame names its command's kind. */
  lemma FrameTagsOfCommands(cs: seq<Command>)
    requires AllBuildable(cs)
    ensures FrameTags(Frames(cs)) == seq(|cs|, i requires 0 <= i < |cs| => CommandTag(cs[i]))
  {
    forall i | 0 <= i < |cs| ensures FrameTags(Frames(cs))[i] == CommandTag(cs[i]) {
      EncodeTag(cs[i]);
    }
  }

  /** The tag bytes of the outbound frames are `B`, `P` (only with a base
      image), N times `A`, and `G`. */
  lemma OutboundFrameTags(tag: BufferTag, baseImg: Option<seq<byte>>, records: seq<WalRecord>)
    requires ValidBaseImage(baseImg)
    ensures AllBuildable(Commands(tag, baseImg, records))
    ensures var msgs := Frames(Commands(tag, baseImg, records));
      FrameTags(msgs) ==
        ['B' as int] + (if baseImg.Some? then ['P' as int] else [])
          + Repeat<byte>('A' as int, |records|) + ['G' as int]
  {
    var cs := Commands(tag, baseImg, records);
    CommandsBuildable(tag, baseImg, records);
    FrameTagsOfCommands(cs);
    CommandTags(tag, baseImg, records);
  }

  /** The kinds of a request's commands, as tag bytes. */
  lemma CommandTags(tag: BufferTag, baseImg: Option<seq<byte>>, records: seq<WalRecord>)
    ensures var cs := Commands(tag, baseImg, records);
      seq(|cs|, i requires 0 <= i < |cs| => CommandTag(cs[i])) ==
        ['B' as int] + (if baseImg.Some? then ['P' as int] else [])
          + Repeat<byte>('A' as int, |records|) + ['G' as int]
  {
    var cs := Commands(tag, baseImg, records);
    var first := FirstRecordIndex(baseImg);
    CommandsOrder(tag, baseImg, records);
    var expected := ['B' as int] + (if baseImg.Some? then ['P' as int] else [])
      + Repeat<byte>('A' as int, |records|) + ['G' as int];
    var tags := seq(|cs|, i requires 0 <= i < |cs| => CommandTag(cs[i]));
    assert |tags| == |expected|;
    forall i | 0 <= i < |tags| ensures tags[i] == expected[i] {
      if first <= i < first + |records| {
        assert cs[i].ApplyRecord?;
      }
    }
  }

  // ---------------------------------------------------------------------
  // The stream: frames written back to back, and how the child splits it

  /** Splits a byte stream into frames by their length fields and decodes
      each one; fails on a truncated or malformed frame. */
  function DecodeStream(s: seq<byte>): (r: Option<seq<Command>>)
    decreases |s|
  {
    if s == [] then Some([])
    else if |s| < 5 then None
    else
      var n := 1 + U32At(s, 1);
      if n < 5 || n > |s| then None
      else
        match DecodeFrame(s[..n])
        case None => None
        case Some(c) =>
          match DecodeStream(s[n..])
          case None => None
          case Some(cs) => Some([c] + cs)
  }

  lemma FramesTail(cs: seq<Command>)
    requires AllBuildable(cs) && cs != []
    ensures Concat(Frames(cs)) == Encode(cs[0]) + Concat(Frames(cs[1..]))
  {
    assert Frames(cs)[1..] == Frames(cs[1..]);
  }

  /** A stream that starts with a valid frame decodes to that frame's
      command followed by whatever the rest decodes to. */
  lemma DecodeStreamCons(m: seq<byte>, rest: seq<byte>)
    requires DecodeFrame(m).Some?
    ensures DecodeStream(m + rest) ==
      match DecodeStream(rest)
      case None => None
      case Some(cs) => Some([DecodeFrame(m).value] + cs)
  {
    var s := m + rest;
    assert s[1..5] == m[1..5];
    assert s[..|m|] == m;
    assert s[|m|..] == rest;
  }

  lemma AllWellFormedTail(cs: seq<Command>)
    requires AllWellFormed(cs) && cs != []
    ensures WellFormed(cs[0]) && AllWellFormed(cs[1..]) && AllBuildable(cs)
  {
    assert WellFormed(cs[0]);
    forall i | 0 <= i < |cs[1..]| ensures WellFormed(cs[1..][i]) {
      assert cs[1..][i] == cs[i + 1];
    }
    forall i | 0 <= i < |cs| ensures Buildable(cs[i]) {
      assert WellFormed(cs[i]);
    }
  }

  lemma AllWellFormedCons(c: Command, rest: seq<Command>)
    requires WellFormed(c) && AllWellFormed(rest)
    ensures AllWellFormed([c] + rest) && AllBuildable([c] + rest)
  {
    var cs := [c] + rest;
    forall i | 0 <= i < |cs| ensures WellFormed(cs[i]) && Buildable(cs[i]) {
      if i > 0 { assert cs[i] == rest[i - 1]; }
    }
  }

  /** Decoding the written stream gives back exactly the commands sent. */
  lemma {:induction false} StreamRoundTrip(cs: seq<Command>)
    requires AllWellFormed(cs)
    ensures AllBuildable(cs)
    ensures DecodeStream(Concat(Frames(cs))) == Some(cs)
  {
    if cs == [] {
      assert Frames(cs) == [];
    } else {
      AllWellFormedTail(cs);
      FramesTail(cs);
      StreamRoundTrip(cs[1..]);
      DecodeEncode(cs[0]);
      DecodeStreamCons(Encode(cs[0]), Concat(Frames(cs[1..])));
      assert cs == [cs[0]] + cs[1..];
    }
  }

  lemma FramesCons(c: Command, rest: seq<Command>)
    requires Buildable(c) && AllBuildable(rest)
    ensures AllBuildable([c] + rest)
    ensures Concat(Frames([c] + rest)) == Encode(c) + Concat(Frames(rest))
  {
    var cs := [c] + rest;
    forall i | 0 <= i < |cs| ensures Buildable(cs[i]) {
      if i > 0 { assert cs[i] == rest[i - 1]; }
    }
    assert cs[1..] == rest;
    FramesTail(cs);
  }

  /** A non-empty stream that decodes starts with one whole frame. */
  lemma DecodeStreamSplit(s: seq<byte>)
    requires s != [] && DecodeStream(s).Some?
    ensures 5 <= 1 + U32At(s, 1) <= |s|
    ensures DecodeFrame(s[..1 + U32At(s, 1)]).Some?
    ensures DecodeStream(s[1 + U32At(s, 1)..]).Some?
    ensures DecodeStream(s).value ==
      [DecodeFrame(s[..1 + U32At(s, 1)]).value] + DecodeStream(s[1 + U32At(s, 1)..]).value
  {
  }

  /** Conversely, a stream that decodes is exactly the frames of what it
      decodes to: no two command lists share a stream. */
  lemma {:induction false} StreamDecodeUnique(s: seq<byte>)
    requires DecodeStream(s).Some?
    ensures AllWellFormed(DecodeStream(s).value)
    ensures AllBuildable(DecodeStream(s).value)
    ensures Concat(Frames(DecodeStream(s).value)) == s
    decreases |s|
  {
    if s == [] {
      assert Frames([]) == [];
    } else {
      DecodeStreamSplit(s);
      var n := 1 + U32At(s, 1);
      var m := s[..n];
      var c := DecodeFrame(m).value;
      var rest := DecodeStream(s[n..]).value;
      StreamDecodeUnique(s[n..]);
      EncodeDecode(m);
      AllWellFormedCons(c, rest);
      FramesCons(c, rest);
      assert s == m + s[n..];
    }
  }

  /** The stream of one request decodes, at the child, to its commands. */
  lemma OutboundStreamDecodes(tag: BufferTag, baseImg: Option<seq<byte>>, records: seq<WalRecord>)
    requires ValidBaseImage(baseImg) && RecordsFit(records)
    ensures AllBuildable(Commands(tag, baseImg, records))
    ensures DecodeStream(Concat(Frames(Commands(tag, baseImg, records)))) == Some(Commands(tag, baseImg, records))
  {
    var cs := Commands(tag, baseImg, records);
    var first := FirstRecordIndex(baseImg);
    CommandsOrder(tag, baseImg, records);
    assert AllWellFormed(cs) by {
      forall i | 0 <= i < |cs| ensures WellFormed(cs[i]) {
        if first <= i < first + |records| {
          assert cs[i] == ApplyRecord(records[i - first].lsn, records[i - first].rec);
        }
      }
    }
    StreamRoundTrip(cs);
  }
}
