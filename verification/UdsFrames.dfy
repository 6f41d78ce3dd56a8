/** How messages are framed on the stream (src/uds/transport_uds.h): a magic byte, the length as four little-endian
    bytes, and the body. */
module UdsFrames {

  type Byte = b: nat | b < 256
  type Bytes = seq<Byte>

  const MAGIC: Byte := 0x42
  const HEADER := 5
  const LENGTH_LIMIT := 0x1_0000_0000

  /** `data_len` is a `uint32_t`: longer lengths lose their upper bits. */
  function Length(n: nat): (bytes: Bytes)
    ensures |bytes| == 4
  {
    [n % 256, n / 256 % 256, n / 65536 % 256, n / 16777216 % 256]
  }

  function LengthOf(header: Bytes): nat
    requires |header| == HEADER
  {
    var b0: nat, b1: nat, b2: nat, b3: nat := header[1], header[2], header[3], header[4];
    b0 + 256 * b1 + 65536 * b2 + 16777216 * b3
  }

  function Header(n: nat): (bytes: Bytes)
    ensures |bytes| == HEADER
  {
    [MAGIC] + Length(n)
  }

  function Frame(body: Bytes): (bytes: Bytes)
    ensures |bytes| == HEADER + |body|
  {
    Header(|body|) + body
  }

  function Frames(log: seq<Bytes>): Bytes {
    if log == [] then [] else Frame(log[0]) + Frames(log[1..])
  }

  lemma FourDigits(n: nat)
    ensures n % 256 + 256 * (n / 256 % 256) + 65536 * (n / 65536 % 256) + 16777216 * (n / 16777216 % 256)
      == n % LENGTH_LIMIT
  {
    assert n / 65536 == n / 256 / 256 && n / 16777216 == n / 256 / 256 / 256 && n / LENGTH_LIMIT == n / 16777216 / 256;
  }

  /** The number that bytes stand for, the lowest one first. */
  function LittleEndian(bytes: Bytes): nat {
    if bytes == [] then 0 else bytes[0] + 256 * LittleEndian(bytes[1..])
  }

  /** Reading the length out of any header. */
  lemma LengthIsLittleEndian(header: Bytes)
    requires |header| == 5
    ensures LengthOf(header) == LittleEndian(header[1..])
  {
    var bytes := header[1..];
    var b0: nat, b1: nat, b2: nat, b3: nat := bytes[0], bytes[1], bytes[2], bytes[3];
    assert bytes[1..][1..] == bytes[2..] && bytes[2..][1..] == bytes[3..] && bytes[3..][1..] == [];
    assert LittleEndian(bytes[3..]) == b3;
    assert LittleEndian(bytes[2..]) == b2 + 256 * b3;
    assert LittleEndian(bytes[1..]) == b1 + 256 * (b2 + 256 * b3);
  }

  lemma HeaderStarts(n: nat)
    ensures Header(n)[0] == 0x42 && LengthOf(Header(n)) ==
      n % 256 + 256 * (n / 256 % 256) + 65536 * (n / 65536 % 256) + 16777216 * (n / 16777216 % 256)
  {
  }

  lemma HeaderValue(n: nat)
    ensures Header(n)[0] == 0x42 && LengthOf(Header(n)) == n % LENGTH_LIMIT
  {
    hide Header, LengthOf;
    HeaderStarts(n);
    FourDigits(n);
  }

  /** A header starts with 0x42, holds the low 32 bits of the length with the lowest byte first, and gives back the
      length exactly when that fits in 32 bits. */
  lemma HeaderRoundTrip(n: nat)
    ensures |Header(n)| == 5 && Header(n)[0] == 0x42 && LittleEndian(Header(n)[1..]) == n % 0x1_0000_0000
    ensures LengthOf(Header(n)) == n % 0x1_0000_0000
    ensures LengthOf(Header(n)) == n <==> n < 0x1_0000_0000
  {
    hide Header, LengthOf, LittleEndian;
    HeaderValue(n);
    LengthIsLittleEndian(Header(n));
  }

  lemma Associative(a: Bytes, b: Bytes, c: Bytes)
    ensures a + (b + c) == a + b + c
  {
  }

  lemma {:induction false} FramesOf(a: seq<Bytes>, b: seq<Bytes>)
    ensures Frames(a + b) == Frames(a) + Frames(b)
  {
    if a == [] {
      assert a + b == b;
    } else {
      hide Frame;
      FramesOf(a[1..], b);
      assert (a + b)[1..] == a[1..] + b;
      Associative(Frame(a[0]), Frames(a[1..]), Frames(b));
    }
  }

  lemma FramesPush(log: seq<Bytes>, body: Bytes)
    ensures Frames(log + [body]) == Frames(log) + Frame(body)
  {
    FramesOf(log, [body]);
    assert [body][1..] == [];
    assert Frames([body]) == Frame(body) + [];
    assert Frame(body) + [] == Frame(body);
  }

  lemma Parts(log: seq<Bytes>, d: nat)
    requires d < |log|
    ensures log == log[..d] + [log[d]] + log[d + 1..]
  {
  }

  /** The frames before position `d`, frame `d`, and the rest. */
  lemma FramesAt(log: seq<Bytes>, d: nat)
    requires d < |log|
    ensures Frames(log) == Frames(log[..d]) + Frame(log[d]) + Frames(log[d + 1..])
  {
    hide Frames, Frame;
    Parts(log, d);
    FramesOf(log[..d] + [log[d]], log[d + 1..]);
    FramesPush(log[..d], log[d]);
  }
}
