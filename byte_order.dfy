/** Unsigned integers of fixed width and their big-endian byte encoding,
    as `BufMut::put_u8`, `put_u32` and `put_u64` write them. */
module ByteOrder {

  type byte = x: int | 0 <= x < 0x100
  type u32 = x: int | 0 <= x < 0x1_0000_0000
  type u64 = x: int | 0 <= x < 0x1_0000_0000_0000_0000

  /** `put_u32`: four bytes, most significant first. */
  function U32BE(x: u32): (r: seq<byte>)
    ensures |r| == 4
  {
    var hi, lo := x / 0x1_0000, x % 0x1_0000;
    [hi / 0x100, hi % 0x100, lo / 0x100, lo % 0x100]
  }

  /** The number four big-endian bytes stand for. */
  function ReadU32(s: seq<byte>): (r: u32)
    requires |s| == 4
  {
    (s[0] as int * 0x100 + s[1]) * 0x1_0000 + (s[2] as int * 0x100 + s[3])
  }

  /** `put_u64`: the high half, then the low half, each as a u32. */
  function U64BE(x: u64): (r: seq<byte>)
    ensures |r| == 8
  {
    U32BE(x / 0x1_0000_0000) + U32BE(x % 0x1_0000_0000)
  }

  /** The number eight big-endian bytes stand for. */
  function ReadU64(s: seq<byte>): (r: u64)
    requires |s| == 8
  {
    ReadU32(s[..4]) * 0x1_0000_0000 + ReadU32(s[4..])
  }

  /** Reading back what `put_u32` wrote gives the number. */
  lemma ReadU32BE(x: u32)
    ensures ReadU32(U32BE(x)) == x
  {
    var hi, lo := x / 0x1_0000, x % 0x1_0000;
    assert hi == hi / 0x100 * 0x100 + hi % 0x100 && lo == lo / 0x100 * 0x100 + lo % 0x100;
  }

  /** Any four bytes are the `put_u32` encoding of the number they stand for. */
  lemma U32BERead(s: seq<byte>)
    requires |s| == 4
    ensures U32BE(ReadU32(s)) == s
  {
    var hi, lo := s[0] as int * 0x100 + s[1], s[2] as int * 0x100 + s[3];
    assert ReadU32(s) / 0x1_0000 == hi && ReadU32(s) % 0x1_0000 == lo;
    assert hi / 0x100 == s[0] && hi % 0x100 == s[1] && lo / 0x100 == s[2] && lo % 0x100 == s[3];
  }

  lemma ReadU64BE(x: u64)
    ensures ReadU64(U64BE(x)) == x
  {
    var s := U64BE(x);
    assert s[..4] == U32BE(x / 0x1_0000_0000) && s[4..] == U32BE(x % 0x1_0000_0000);
    ReadU32BE(x / 0x1_0000_0000);
    ReadU32BE(x % 0x1_0000_0000);
  }

  lemma U64BERead(s: seq<byte>)
    requires |s| == 8
    ensures U64BE(ReadU64(s)) == s
  {
    var hi, lo := ReadU32(s[..4]), ReadU32(s[4..]);
    assert ReadU64(s) / 0x1_0000_0000 == hi && ReadU64(s) % 0x1_0000_0000 == lo;
    U32BERead(s[..4]);
    U32BERead(s[4..]);
    assert s == s[..4] + s[4..];
  }

  /** The bytes written by a sequence of buffers, one after another. */
  function Concat(ms: seq<seq<byte>>): (r: seq<byte>)
  {
    if ms == [] then [] else ms[0] + Concat(ms[1..])
  }

  lemma {:induction false} ConcatAppend(a: seq<seq<byte>>, b: seq<seq<byte>>)
    ensures Concat(a + b) == Concat(a) + Concat(b)
  {
    if a != [] {
      assert (a + b)[0] == a[0];
      assert (a + b)[1..] == a[1..] + b;
      ConcatAppend(a[1..], b);
    } else {
      assert a + b == b;
    }
  }
}
