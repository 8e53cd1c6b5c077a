/** `MessageV1`: the wire form of a message, and what reading it back gives. */
module MessageFrames {
  import opened Octets

  /** The stream format writes the length of a byte array in four bytes, and keeps
      the two largest values for other purposes. */
  const PAYLOAD_LIMIT: int := 0xFFFF_FFFE

  /** Truncation to a signed 16-bit integer. */
  function ToInt16(n: int): (i: int)
    ensures -0x8000 <= i < 0x8000
    ensures -0x8000 <= n < 0x8000 ==> i == n
  {
    (n + 0x8000) % 0x1_0000 - 0x8000
  }

  function BigEndian16(n: int): (s: Bytes)
    requires -0x8000 <= n < 0x8000
    ensures |s| == 2
  {
    var u := n % 0x1_0000;
    [(u / 0x100) as Byte, (u % 0x100) as Byte]
  }

  function FromBigEndian16(b0: Byte, b1: Byte): int {
    ToInt16(b0 as int * 0x100 + b1 as int)
  }

  function BigEndian32(n: int): (s: Bytes)
    requires 0 <= n < 0x1_0000_0000
    ensures |s| == 4
  {
    [(n / 0x100_0000) as Byte, (n / 0x1_0000 % 0x100) as Byte, (n / 0x100 % 0x100) as Byte, (n % 0x100) as Byte]
  }

  function FromBigEndian32(b0: Byte, b1: Byte, b2: Byte, b3: Byte): int {
    b0 as int * 0x100_0000 + b1 as int * 0x1_0000 + b2 as int * 0x100 + b3 as int
  }

  lemma RoundTrip16(n: int)
    requires -0x8000 <= n < 0x8000
    ensures var s := BigEndian16(n); FromBigEndian16(s[0], s[1]) == n
  {
  }

  lemma RoundTrip32(n: int)
    requires 0 <= n < 0x1_0000_0000
    ensures var s := BigEndian32(n); FromBigEndian32(s[0], s[1], s[2], s[3]) == n
  {
    var a, b := n / 0x100, n / 0x1_0000;
    assert n == 0x100 * a + n % 0x100;
    assert b == a / 0x100 && a == 0x100 * b + a % 0x100;
    assert n / 0x100_0000 == b / 0x100 && b == 0x100 * (b / 0x100) + b % 0x100;
  }

  // ------------------------------------------------------------------- the frame

  /** The value of the header: two more than the payload, in 16 bits. */
  function HeaderLength(payload: Bytes): int {
    ToInt16(2 + |payload|)
  }

  /** A frame: the header, the length of the byte array, and the bytes. */
  function Frame(payload: Bytes): (s: Bytes)
    requires |payload| < PAYLOAD_LIMIT
    ensures |s| == 6 + |payload|
  {
    BigEndian16(HeaderLength(payload)) + BigEndian32(|payload|) + payload
  }

  /** Writing at the beginning of a buffer replaces what is there. */
  function Overwrite(buf: Bytes, data: Bytes): Bytes {
    if |buf| <= |data| then data else data + buf[|data|..]
  }

  /** Reading the header; a short buffer reads as zero. */
  function ReadLength(buf: Bytes): int {
    if |buf| < 2 then 0 else FromBigEndian16(buf[0], buf[1])
  }

  /** The length of the byte array that the buffer announces. */
  function ReadSize(buf: Bytes): int {
    if |buf| < 6 then 0 else FromBigEndian32(buf[2], buf[3], buf[4], buf[5])
  }

  /** Reading the payload; if bytes are missing it reads as empty. */
  function ReadPayload(buf: Bytes): Bytes {
    var n := ReadSize(buf);
    if |buf| < 6 || n >= PAYLOAD_LIMIT || |buf| < 6 + n then [] else buf[6..6 + n]
  }

  class MessageV1 {
    var len: int
    var payload: Bytes

    constructor (payload: Bytes)
      ensures len == HeaderLength(payload) && this.payload == payload
    {
      len, this.payload := ToInt16(2 + |payload|), payload;
    }

    function HeadLen(): int {
      2
    }

    function Size(): int
      reads this
    {
      HeadLen() + |payload|
    }

    method Encode(buf: Bytes) returns (after: Bytes, n: int)
      requires |payload| < PAYLOAD_LIMIT
      modifies this`len
      ensures len == HeaderLength(payload)
      ensures after == Overwrite(buf, Frame(payload))
      ensures n == |Frame(payload)| - 4
    {
      len := ToInt16(Size());
      var written := BigEndian16(len) + BigEndian32(|payload|) + payload;
      after := if |buf| <= |written| then written else written + buf[|written|..];
      n := Size();
    }

    method Decode(buf: Bytes) returns (n: int)
      modifies this
      ensures len == n == ReadLength(buf) && payload == ReadPayload(buf)
    {
      if |buf| < 2 {
        len := 0;
      } else {
        len := FromBigEndian16(buf[0], buf[1]);
      }
      payload := [];
      if |buf| >= 6 {
        var size := FromBigEndian32(buf[2], buf[3], buf[4], buf[5]);
        if size < PAYLOAD_LIMIT && |buf| - 6 >= size {
          payload := buf[6..6 + size];
        }
      }
      n := len;
    }
  }

  // ----------------------------------------------------------------- frame laws

  lemma FrameFields(payload: Bytes, rest: Bytes)
    requires |payload| < PAYLOAD_LIMIT
    ensures ReadLength(Frame(payload) + rest) == HeaderLength(payload)
    ensures ReadSize(Frame(payload) + rest) == |payload|
    ensures ReadPayload(Frame(payload) + rest) == payload
  {
    var h, z := BigEndian16(HeaderLength(payload)), BigEndian32(|payload|);
    var s := Frame(payload) + rest;
    RoundTrip16(HeaderLength(payload));
    RoundTrip32(|payload|);
    assert s[0] == h[0] && s[1] == h[1];
    assert s[2] == z[0] && s[3] == z[1] && s[4] == z[2] && s[5] == z[3];
    assert s[6..6 + |payload|] == payload;
  }

  /** The frame byte by byte: two more than the payload in 16 bits, the payload's length
      in 32 bits, both with the high byte first, and the payload. */
  lemma FrameLayout(payload: Bytes)
    requires |payload| < PAYLOAD_LIMIT
    ensures var s, n := Frame(payload), |payload|;
            && s[0] as int == (2 + n) / 0x100 % 0x100 && s[1] as int == (2 + n) % 0x100
            && s[2] as int == n / 0x100_0000 && s[3] as int == n / 0x1_0000 % 0x100
            && s[4] as int == n / 0x100 % 0x100 && s[5] as int == n % 0x100
            && s[6..] == payload
  {
    var h, z := BigEndian16(HeaderLength(payload)), BigEndian32(|payload|);
    var s := Frame(payload);
    LowBytes(2 + |payload|);
    assert s[0] == h[0] && s[1] == h[1];
    assert s[2] == z[0] && s[3] == z[1] && s[4] == z[2] && s[5] == z[3];
  }

  lemma ToInt16Wraps(n: int)
    ensures ToInt16(n) % 0x1_0000 == n % 0x1_0000
  {
  }

  lemma HighPart(n: int, q: int, u: int)
    requires n == q * 0x1_0000 + u && 0 <= u < 0x1_0000
    ensures n / 0x100 % 0x100 == u / 0x100 && n % 0x100 == u % 0x100
  {
    assert n / 0x100 == q * 0x100 + u / 0x100;
  }

  lemma LowBytes(n: int)
    requires n >= 0
    ensures var s := BigEndian16(ToInt16(n)); s[0] as int == n / 0x100 % 0x100 && s[1] as int == n % 0x100
  {
    ToInt16Wraps(n);
    HighPart(n, n / 0x1_0000, n % 0x1_0000);
  }

  /** Writing a frame over a buffer keeps what is behind it, so that the buffer decodes
      to the payload. */
  lemma OverwriteDecodes(buf: Bytes, payload: Bytes)
    requires |payload| < PAYLOAD_LIMIT
    ensures var after := Overwrite(buf, Frame(payload));
            && ReadPayload(after) == payload && ReadLength(after) == HeaderLength(payload)
            && after[..6 + |payload|] == Frame(payload)
            && (forall i :: 6 + |payload| <= i < |after| ==> i < |buf| && after[i] == buf[i])
            && |after| >= |buf|
  {
    var rest := if |buf| <= 6 + |payload| then [] else buf[6 + |payload|..];
    assert Overwrite(buf, Frame(payload)) == Frame(payload) + rest;
    FrameFields(payload, rest);
  }

  /** Decoding an encoding gives the payload back, whatever follows it. */
  lemma DecodeEncode(payload: Bytes, rest: Bytes)
    requires |payload| < PAYLOAD_LIMIT
    ensures ReadPayload(Frame(payload) + rest) == payload
  {
    FrameFields(payload, rest);
  }

  /** What encode and decode return is four less than the bytes of the frame; for
      decode this holds exactly up to 32765 bytes of payload, where the header
      stops wrapping around. */
  lemma ReturnFallsShort(payload: Bytes, rest: Bytes)
    requires |payload| < PAYLOAD_LIMIT
    ensures ReadLength(Frame(payload) + rest) == |Frame(payload)| - 4 <==> |payload| <= 32765
  {
    FrameFields(payload, rest);
  }

  /** No frame is a prefix of another one. */
  lemma FramesPrefixFree(p: Bytes, q: Bytes)
    requires |p| < PAYLOAD_LIMIT && |q| < PAYLOAD_LIMIT && Frame(p) <= Frame(q)
    ensures p == q
  {
    var rest := Frame(q)[|Frame(p)|..];
    assert Frame(q) == Frame(p) + rest;
    FrameFields(p, rest);
    FrameFields(q, []);
    assert Frame(q) + [] == Frame(q);
  }
}
