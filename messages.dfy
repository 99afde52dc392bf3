/** The byte frames sent to the `postgres --wal-redo` child process
    (src/walredo.rs, `build_*_msg`), and a decoder for them as the other end
    of the pipe reads them.

    Every frame is `[tag byte][big-endian u32 length][payload]`, and the
    length field counts its own four bytes as well as the payload. */
module WalRedoMessages {
  import opened Wrappers
  import opened ByteOrder

  /** Size of one page image (Postgres BLCKSZ). */
  const PAGE_SIZE: nat := 8192

  const TAG_BEGIN: byte := 'B' as int
  const TAG_PUSH_PAGE: byte := 'P' as int
  const TAG_APPLY_RECORD: byte := 'A' as int
  const TAG_GET_PAGE: byte := 'G' as int

  /** Names one page: tablespace, database, relation, fork and block number. */
  datatype BufferTag = BufferTag(spcnode: u32, dbnode: u32, relnode: u32, forknum: byte, blknum: u32)

  /** One WAL record to replay: its log position and its raw bytes. */
  datatype WalRecord = WalRecord(lsn: u64, rec: seq<byte>)

  /** Rust's `as u32` on a length, and the wrapping `u32` addition of a release build. */
  function Wrap32(x: nat): (r: u32)
  {
    x % 0x1_0000_0000
  }

  /** The five tag fields, each as a big-endian u32, in the order
      spcnode, dbnode, relnode, forknum (widened), blknum. */
  function TagFields(tag: BufferTag): (r: seq<byte>)
    ensures |r| == 20
  {
    U32BE(tag.spcnode) + U32BE(tag.dbnode) + U32BE(tag.relnode)
      + U32BE(tag.forknum) + U32BE(tag.blknum)
  }

  /** The big-endian u32 stored at offset off of s. */
  function U32At(s: seq<byte>, off: nat): u32
    requires off + 4 <= |s|
  {
    ReadU32(s[off..off + 4])
  }

  function BuildBeginRedoForBlockMsg(tag: BufferTag): (r: seq<byte>)
    ensures |r| == 25
  {
    [TAG_BEGIN] + U32BE(4 + 5 * 4) + TagFields(tag)
  }

  /** The base image must be exactly one page: the source asserts it, and a
      violation panics the redo thread, so here it is the caller's obligation. */
  function BuildPushPageMsg(tag: BufferTag, baseImg: seq<byte>): (r: seq<byte>)
    requires |baseImg| == PAGE_SIZE
    ensures |r| == 25 + PAGE_SIZE
  {
    [TAG_PUSH_PAGE] + U32BE(4 + 5 * 4 + Wrap32(|baseImg|)) + TagFields(tag) + baseImg
  }

  /** The length field is computed in u32: `rec.len() as u32` truncates and
      the addition wraps, so a record of 2^32 - 12 bytes or more gets a
      length field that does not match the frame (see ApplyLengthWraps). */
  function BuildApplyRecordMsg(lsn: u64, rec: seq<byte>): (r: seq<byte>)
    ensures |r| == 13 + |rec|
  {
    [TAG_APPLY_RECORD] + U32BE(Wrap32(4 + 8 + Wrap32(|rec|))) + U64BE(lsn) + rec
  }

  function BuildGetPageMsg(tag: BufferTag): (r: seq<byte>)
    ensures |r| == 25
  {
    [TAG_GET_PAGE] + U32BE(4 + 5 * 4) + TagFields(tag)
  }

  // ---------------------------------------------------------------------
  // Layout of each frame

  /** Where each tag field sits in a frame that carries the tag at offset 5. */
  predicate TagAt(m: seq<byte>, tag: BufferTag)
    requires |m| >= 25
  {
    && U32At(m, 5) == tag.spcnode
    && U32At(m, 9) == tag.dbnode
    && U32At(m, 13) == tag.relnode
    && U32At(m, 17) == tag.forknum
    && U32At(m, 21) == tag.blknum
  }

  lemma TagFieldsLayout(m: seq<byte>, tag: BufferTag)
    requires |m| >= 25 && m[5..25] == TagFields(tag)
    ensures TagAt(m, tag)
  {
    TagFieldsSlices(tag);
    TagFieldsRead(tag);
    SliceWithin(m, 5, 25, 0, 4);
    SliceWithin(m, 5, 25, 4, 8);
    SliceWithin(m, 5, 25, 8, 12);
    SliceWithin(m, 5, 25, 12, 16);
    SliceWithin(m, 5, 25, 16, 20);
  }

  /** A slice of a slice is a slice of the whole. */
  lemma SliceWithin(m: seq<byte>, a: nat, b: nat, i: nat, j: nat)
    requires a <= b <= |m| && i <= j <= b - a
    ensures m[a..b][i..j] == m[a + i..a + j]
  {
    forall k | 0 <= k < j - i ensures m[a..b][i..j][k] == m[a + i..a + j][k] {
      assert m[a..b][i..j][k] == m[a..b][i + k];
    }
  }

  /** Each tag field reads back as the number written there. */
  lemma TagFieldsRead(tag: BufferTag)
    ensures && ReadU32(U32BE(tag.spcnode)) == tag.spcnode
            && ReadU32(U32BE(tag.dbnode)) == tag.dbnode
            && ReadU32(U32BE(tag.relnode)) == tag.relnode
            && ReadU32(U32BE(tag.forknum)) == tag.forknum
            && ReadU32(U32BE(tag.blknum)) == tag.blknum
  {
    ReadU32BE(tag.spcnode);
    ReadU32BE(tag.dbnode);
    ReadU32BE(tag.relnode);
    ReadU32BE(tag.forknum);
    ReadU32BE(tag.blknum);
  }

  lemma TagFieldsSlices(tag: BufferTag)
    ensures var f := TagFields(tag);
      && f[0..4] == U32BE(tag.spcnode)
      && f[4..8] == U32BE(tag.dbnode)
      && f[8..12] == U32BE(tag.relnode)
      && f[12..16] == U32BE(tag.forknum)
      && f[16..20] == U32BE(tag.blknum)
  {
  }

  lemma BeginMsgLayout(tag: BufferTag)
    ensures var m := BuildBeginRedoForBlockMsg(tag);
      && |m| == 25
      && m[0] == 'B' as int
      && m[1..5] == [0, 0, 0, 24]
      && U32At(m, 1) == 24
      && TagAt(m, tag)
  {
    var m := BuildBeginRedoForBlockMsg(tag);
    assert m[1..5] == U32BE(24);
    ReadU32BE(24);
    assert m[5..25] == TagFields(tag);
    TagFieldsLayout(m, tag);
  }

  /** The get-page frame is the begin frame with another first byte. */
  lemma GetPageMatchesBegin(tag: BufferTag)
    ensures var g := BuildGetPageMsg(tag);
      var b := BuildBeginRedoForBlockMsg(tag);
      && |g| == |b|
      && g[0] == 'G' as int && b[0] == 'B' as int
      && g[1..] == b[1..]
  {
  }

  lemma PushPageMsgLayout(tag: BufferTag, baseImg: seq<byte>)
    requires |baseImg| == PAGE_SIZE
    ensures var m := BuildPushPageMsg(tag, baseImg);
      && |m| == 8217
      && m[0] == 'P' as int
      && U32At(m, 1) == 8216
      && TagAt(m, tag)
      && m[5..25] == BuildBeginRedoForBlockMsg(tag)[5..]
      && m[25..] == baseImg
  {
    var m := BuildPushPageMsg(tag, baseImg);
    assert m[1..5] == U32BE(8216);
    ReadU32BE(8216);
    assert m[5..25] == TagFields(tag);
    TagFieldsLayout(m, tag);
  }

  /** When the record is small enough for the u32 length, the frame carries
      the lsn at bytes 5..13 and the record verbatim from byte 13 on. */
  lemma ApplyRecordMsgLayout(lsn: u64, rec: seq<byte>)
    requires 12 + |rec| < 0x1_0000_0000
    ensures var m := BuildApplyRecordMsg(lsn, rec);
      && m[0] == 'A' as int
      && U32At(m, 1) == 4 + 8 + |rec|
      && ReadU64(m[5..13]) == lsn
      && m[13..] == rec
  {
    var m := BuildApplyRecordMsg(lsn, rec);
    assert Wrap32(4 + 8 + Wrap32(|rec|)) == 12 + |rec|;
    assert m[1..5] == U32BE(12 + |rec|);
    assert m[5..13] == U64BE(lsn);
    ReadU32BE(12 + |rec|);
    ReadU64BE(lsn);
  }

  /** With a record of 2^32 - 12 bytes or more, the length field holds
      12 + len(rec) reduced modulo 2^32, which no longer covers the frame. */
  lemma ApplyLengthWraps(lsn: u64, rec: seq<byte>)
    requires 12 + |rec| >= 0x1_0000_0000
    ensures U32At(BuildApplyRecordMsg(lsn, rec), 1) == (12 + |rec|) % 0x1_0000_0000
    ensures var m := BuildApplyRecordMsg(lsn, rec);
      U32At(m, 1) != |m| - 1
  {
    var m := BuildApplyRecordMsg(lsn, rec);
    assert m[1..5] == U32BE(Wrap32(4 + 8 + Wrap32(|rec|)));
    ReadU32BE(Wrap32(4 + 8 + Wrap32(|rec|)));
  }

  // ---------------------------------------------------------------------
  // Commands, and the decoder the other end of the pipe applies

  datatype Command =
    | BeginRedo(tag: BufferTag)
    | PushPage(tag: BufferTag, image: seq<byte>)
    | ApplyRecord(lsn: u64, rec: seq<byte>)
    | GetPage(tag: BufferTag)

  /** A command whose frame the builders can produce faithfully. */
  predicate WellFormed(c: Command)
  {
    match c
    case PushPage(_, image) => |image| == PAGE_SIZE
    case ApplyRecord(_, rec) => 12 + |rec| < 0x1_0000_0000
    case _ => true
  }

  /** The builders' own precondition: only the push-page image is checked. */
  predicate Buildable(c: Command)
  {
    c.PushPage? ==> |c.image| == PAGE_SIZE
  }

  function Encode(c: Command): (r: seq<byte>)
    requires Buildable(c)
    ensures |r| >= 13
  {
    match c
    case BeginRedo(tag) => BuildBeginRedoForBlockMsg(tag)
    case PushPage(tag, image) => BuildPushPageMsg(tag, image)
    case ApplyRecord(lsn, rec) => BuildApplyRecordMsg(lsn, rec)
    case GetPage(tag) => BuildGetPageMsg(tag)
  }

  /** Reads the five tag fields; the fork number must fit its byte. */
  function DecodeTag(f: seq<byte>): (r: Option<BufferTag>)
    requires |f| == 20
  {
    if ReadU32(f[12..16]) < 0x100 then
      Some(BufferTag(ReadU32(f[0..4]), ReadU32(f[4..8]), ReadU32(f[8..12]),
                     ReadU32(f[12..16]), ReadU32(f[16..20])))
    else
      None
  }

  /** Decodes one complete frame: a known tag byte, a length field equal to
      the frame size minus one, and a payload of the size the tag demands. */
  function DecodeFrame(s: seq<byte>): (r: Option<Command>)
  {
    if |s| < 5 || U32At(s, 1) != |s| - 1 then None
    else if s[0] == TAG_APPLY_RECORD then
      if |s| < 13 then None else Some(ApplyRecord(ReadU64(s[5..13]), s[13..]))
    else if |s| < 25 then None
    else
      match DecodeTag(s[5..25])
      case None => None
      case Some(tag) =>
        if s[0] == TAG_BEGIN && |s| == 25 then Some(BeginRedo(tag))
        else if s[0] == TAG_GET_PAGE && |s| == 25 then Some(GetPage(tag))
        else if s[0] == TAG_PUSH_PAGE && |s| == 25 + PAGE_SIZE then Some(PushPage(tag, s[25..]))
        else None
  }

  lemma DecodeTagFields(tag: BufferTag)
    ensures DecodeTag(TagFields(tag)) == Some(tag)
  {
    TagFieldsSlices(tag);
    TagFieldsRead(tag);
  }

  lemma TagFieldsDecoded(f: seq<byte>, tag: BufferTag)
    requires |f| == 20 && DecodeTag(f) == Some(tag)
    ensures TagFields(tag) == f
  {
    U32BERead(f[0..4]);
    U32BERead(f[4..8]);
    U32BERead(f[8..12]);
    U32BERead(f[12..16]);
    U32BERead(f[16..20]);
    assert f == f[0..4] + f[4..8] + f[8..12] + f[12..16] + f[16..20];
  }

  /** The length field of every well-formed frame is the frame size minus
      one: it covers everything after the tag byte, itself included. */
  lemma LengthFieldSelfInclusive(c: Command)
    requires WellFormed(c)
    ensures U32At(Encode(c), 1) == |Encode(c)| - 1
  {
    var m := Encode(c);
    match c
    case BeginRedo(tag) => assert m[1..5] == U32BE(24); ReadU32BE(24);
    case GetPage(tag) => assert m[1..5] == U32BE(24); ReadU32BE(24);
    case PushPage(tag, image) => assert m[1..5] == U32BE(8216); ReadU32BE(8216);
    case ApplyRecord(lsn, rec) => ApplyRecordMsgLayout(lsn, rec);
  }

  /** Decoding a built frame gives back its command. */
  lemma DecodeEncode(c: Command)
    requires WellFormed(c)
    ensures DecodeFrame(Encode(c)) == Some(c)
  {
    var m := Encode(c);
    LengthFieldSelfInclusive(c);
    match c
    case BeginRedo(tag) =>
      assert m[5..25] == TagFields(tag);
      DecodeTagFields(tag);
    case GetPage(tag) =>
      assert m[5..25] == TagFields(tag);
      DecodeTagFields(tag);
    case PushPage(tag, image) =>
      assert m[5..25] == TagFields(tag);
      DecodeTagFields(tag);
    case ApplyRecord(lsn, rec) =>
      ApplyRecordMsgLayout(lsn, rec);
  }

  /** Every frame the decoder accepts is exactly the frame built for the
      command it decodes to, so the framing is unambiguous. */
  lemma EncodeDecode(s: seq<byte>)
    requires DecodeFrame(s).Some?
    ensures WellFormed(DecodeFrame(s).value)
    ensures Encode(DecodeFrame(s).value) == s
  {
    if s[0] == TAG_APPLY_RECORD {
      ApplyRecordDecoded(s);
    } else {
      TagFrameDecoded(s);
    }
  }

  lemma ApplyRecordDecoded(s: seq<byte>)
    requires DecodeFrame(s).Some? && s[0] == TAG_APPLY_RECORD
    ensures WellFormed(DecodeFrame(s).value)
    ensures Encode(DecodeFrame(s).value) == s
  {
    var c := DecodeFrame(s).value;
    var rec := s[13..];
    assert c == ApplyRecord(ReadU64(s[5..13]), rec);
    U32BERead(s[1..5]);
    U64BERead(s[5..13]);
    assert U32At(s, 1) == 12 + |rec|;
    assert Wrap32(4 + 8 + Wrap32(|rec|)) == ReadU32(s[1..5]);
    assert s == [s[0]] + s[1..5] + s[5..13] + rec;
  }

  lemma TagFrameDecoded(s: seq<byte>)
    requires DecodeFrame(s).Some? && s[0] != TAG_APPLY_RECORD
    ensures WellFormed(DecodeFrame(s).value)
    ensures Encode(DecodeFrame(s).value) == s
  {
    var c := DecodeFrame(s).value;
    var tag := DecodeTag(s[5..25]).value;
    TagFieldsDecoded(s[5..25], tag);
    if c.PushPage? {
      assert c == PushPage(tag, s[25..]);
      PushFrameDecoded(s, tag);
    } else {
      ShortFrameDecoded(s, tag);
    }
  }

  /** A 25-byte frame is its tag byte, the length 24 and the tag fields. */
  lemma ShortFrameDecoded(s: seq<byte>, tag: BufferTag)
    requires |s| == 25 && U32At(s, 1) == 4 + 5 * 4 && s[5..25] == TagFields(tag)
    ensures s == [s[0]] + U32BE(4 + 5 * 4) + TagFields(tag)
  {
    U32BERead(s[1..5]);
    assert s == [s[0]] + s[1..5] + s[5..25];
  }

  /** A push-page frame is its tag byte, the length, the tag fields and the page. */
  lemma PushFrameDecoded(s: seq<byte>, tag: BufferTag)
    requires |s| == 25 + PAGE_SIZE && s[0] == TAG_PUSH_PAGE && U32At(s, 1) == |s| - 1
    requires s[5..25] == TagFields(tag)
    ensures BuildPushPageMsg(tag, s[25..]) == s
  {
    assert Wrap32(PAGE_SIZE) == PAGE_SIZE;
    U32BERead(s[1..5]);
    assert s == [s[0]] + s[1..5] + s[5..25] + s[25..];
  }
}
