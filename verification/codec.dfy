/** `Codec::consumeBytes`: the reassembler as it is written, and the one it is meant
    to be. */
module Codecs {
  import opened MessageFrames
  import opened Octets

  const MTU: int := 1500

  // --------------------------------------------------------------- as written

  class Codec {
    const bufSz: int
    var buf: Bytes           // m_buf: the bytes written so far
    var pos: int             // m_buf: the position shared by reading and writing
    var produced: seq<Bytes> // payloads passed to produceMsg

    /** All reading and writing happens at the end of the buffer. */
    ghost predicate Valid()
      reads this
    {
      pos == |buf|
    }

    constructor (bufSz: int)
      ensures Valid() && this.bufSz == bufSz && buf == [] && produced == []
    {
      this.bufSz := bufSz;
      buf, pos, produced := [], 0, [];
    }

    method Write(data: Bytes)
      requires Valid()
      modifies this`buf, this`pos
      ensures Valid() && buf == old(buf) + data
    {
      buf := buf[..pos] + data;
      pos := pos + |data|;
    }

    /** Reads at most `n` bytes from the position on. */
    method Read(n: int) returns (s: Bytes)
      requires Valid() && n >= 0
      modifies this`pos
      ensures Valid() && s == []
    {
      var m := if n <= |buf| - pos then n else |buf| - pos;
      s := buf[pos..pos + m];
      pos := pos + m;
    }

    /** `haveMsg`: did the factory return a message object? */
    method ConsumeBytes(data: Bytes, haveMsg: bool)
      requires Valid()
      modifies this
      ensures Valid()
      ensures buf == Stored(bufSz, old(buf), data)
      ensures produced == old(produced) + (if haveMsg then Emitted(buf) else [])
    {
      if |buf| < MTU * bufSz {
        Write(data);
      }
      if !haveMsg {
        return;
      }
      var msg := new MessageV1([]);
      var sz := msg.Decode(buf);
      if sz < 1 {
        return;
      }
      var skipped := Read(sz);
      produced := produced + [msg.payload];
    }

    method ConsumeMsg(msg: MessageV1) returns (data: Bytes)
      requires |msg.payload| < PAYLOAD_LIMIT
      modifies msg`len
      ensures data == Frame(msg.payload)
    {
      var n: int;
      data, n := msg.Encode([]);
    }
  }

  /** Data that arrives when the buffer has reached its limit is not stored. */
  function Stored(bufSz: int, buf: Bytes, data: Bytes): Bytes {
    if |buf| < MTU * bufSz then buf + data else buf
  }

  function Emitted(buf: Bytes): seq<Bytes> {
    if ReadLength(buf) < 1 then [] else [ReadPayload(buf)]
  }

  /** The buffer after some chunks. */
  function BufferAfter(bufSz: int, chunks: seq<Bytes>): Bytes {
    if chunks == [] then [] else Stored(bufSz, BufferAfter(bufSz, chunks[..|chunks| - 1]), chunks[|chunks| - 1])
  }

  /** All that is produced for some chunks. */
  function ProducedAfter(bufSz: int, chunks: seq<Bytes>): seq<Bytes> {
    if chunks == [] then []
    else ProducedAfter(bufSz, chunks[..|chunks| - 1]) + Emitted(BufferAfter(bufSz, chunks))
  }

  /** As written the buffer only ever grows: nothing that was read is removed. */
  lemma BufferGrows(bufSz: int, chunks: seq<Bytes>)
    requires chunks != []
    ensures BufferAfter(bufSz, chunks[..|chunks| - 1]) <= BufferAfter(bufSz, chunks)
  {
  }

  // ------------------------------------------------- what it delivers as written

  function Flatten(parts: seq<Bytes>): Bytes {
    if parts == [] then [] else Flatten(parts[..|parts| - 1]) + parts[|parts| - 1]
  }

  predicate Sendable(payloads: seq<Bytes>) {
    forall i :: 0 <= i < |payloads| ==> |payloads[i]| < PAYLOAD_LIMIT
  }

  /** The wire form of a sequence of messages. */
  function Frames(payloads: seq<Bytes>): Bytes
    requires Sendable(payloads)
  {
    if payloads == [] then [] else Frame(payloads[0]) + Frames(payloads[1..])
  }

  /** The buffer holds what arrived, up to the chunk that made it full. */
  lemma {:induction false} BufferIsPrefix(bufSz: int, chunks: seq<Bytes>)
    ensures BufferAfter(bufSz, chunks) <= Flatten(chunks)
    ensures |BufferAfter(bufSz, chunks)| < MTU * bufSz ==> BufferAfter(bufSz, chunks) == Flatten(chunks)
  {
    if chunks == [] {
    } else {
      BufferIsPrefix(bufSz, chunks[..|chunks| - 1]);
    }
  }

  /** How many chunks it takes to fill the buffer, or all of them if they do not. */
  predicate FilledBy(bufSz: int, chunks: seq<Bytes>, k: nat) {
    && k <= |chunks|
    && (forall j :: 0 <= j < k ==> |Flatten(chunks[..j])| < 1500 * bufSz)
    && (k < |chunks| ==> |Flatten(chunks[..k])| >= 1500 * bufSz)
  }

  /** The buffer holds the chunks up to the first one that filled it, that one whole, and
      nothing of any later one. */
  lemma {:induction false} BufferIs(bufSz: int, chunks: seq<Bytes>, k: nat)
    requires FilledBy(bufSz, chunks, k)
    ensures BufferAfter(bufSz, chunks) == Flatten(chunks[..k])
  {
    if chunks == [] {
    } else {
      var n := |chunks| - 1;
      var before := chunks[..n];
      assert forall j :: 0 <= j <= n ==> before[..j] == chunks[..j];
      if k <= n {
        BufferIs(bufSz, before, k);
      } else {
        BufferIs(bufSz, before, n);
        assert chunks[..k] == chunks && before[..n] == before;
      }
    }
  }

  /** There is always such a number. */
  lemma {:induction false} FillingChunk(bufSz: int, chunks: seq<Bytes>) returns (k: nat)
    ensures FilledBy(bufSz, chunks, k)
  {
    if chunks == [] {
      k := 0;
    } else {
      var n := |chunks| - 1;
      var before := chunks[..n];
      assert forall j :: 0 <= j <= n ==> before[..j] == chunks[..j];
      k := FillingChunk(bufSz, before);
      if k == n && |Flatten(before)| < 1500 * bufSz {
        k := n + 1;
        assert before[..n] == before;
      }
    }
  }

  /** What a call emits that finds `n` bytes of a stream that begins with the frame
      of `p`: nothing before the header is there or if the header, in 16 bits, is not
      positive; an empty payload until the frame is complete; and then the first
      payload, over and over. */
  function Expected(n: nat, p: Bytes): seq<Bytes> {
    if n < 2 || HeaderLength(p) < 1 then [] else if n < 6 + |p| then [[]] else [p]
  }

  lemma EmittedOf(buf: Bytes, p: Bytes, rest: Bytes)
    requires |p| < PAYLOAD_LIMIT && buf <= Frame(p) + rest
    ensures Emitted(buf) == Expected(|buf|, p)
  {
    var s := Frame(p) + rest;
    FrameFields(p, rest);
    assert forall i :: 0 <= i < |buf| ==> buf[i] == s[i];
    if |buf| >= 6 + |p| {
      assert buf[6..6 + |p|] == s[6..6 + |p|];
    }
  }

  /** How many calls found at least `lo` and fewer than `hi` bytes in the buffer. */
  function Calls(bufSz: int, chunks: seq<Bytes>, lo: int, hi: int): nat {
    if chunks == [] then 0
    else
      Calls(bufSz, chunks[..|chunks| - 1], lo, hi)
      + (if lo <= |BufferAfter(bufSz, chunks)| < hi then 1 else 0)
  }

  function Copies(n: nat, p: Bytes): (r: seq<Bytes>)
    ensures |r| == n && forall i :: 0 <= i < n ==> r[i] == p
  {
    if n == 0 then [] else Copies(n - 1, p) + [p]
  }

  /** How many calls saw the header of the first frame but not all of it. */
  function EarlyCalls(bufSz: int, chunks: seq<Bytes>, p: Bytes): nat {
    Calls(bufSz, chunks, 2, 6 + |p|)
  }

  /** How many calls saw all of the first frame, out of a stream of `total` bytes. */
  function LateCalls(bufSz: int, chunks: seq<Bytes>, p: Bytes, total: int): nat {
    Calls(bufSz, chunks, 6 + |p|, total + 1)
  }

  lemma {:induction false} NoLateCalls(bufSz: int, chunks: seq<Bytes>, lo: int, hi: int)
    requires |BufferAfter(bufSz, chunks)| < lo
    ensures Calls(bufSz, chunks, lo, hi) == 0
  {
    if chunks == [] {
    } else {
      NoLateCalls(bufSz, chunks[..|chunks| - 1], lo, hi);
    }
  }

  /** The chunks are the beginning of a stream that starts with the frame of `p`. */
  predicate StartsWith(chunks: seq<Bytes>, p: Bytes, rest: Bytes)
    requires |p| < PAYLOAD_LIMIT
  {
    Flatten(chunks) <= Frame(p) + rest
  }

  lemma OneCall(bufSz: int, chunks: seq<Bytes>, p: Bytes, rest: Bytes)
    requires |p| < PAYLOAD_LIMIT && StartsWith(chunks, p, rest) && chunks != []
    ensures Emitted(BufferAfter(bufSz, chunks)) == Expected(|BufferAfter(bufSz, chunks)|, p)
    ensures |BufferAfter(bufSz, chunks)| <= |Flatten(chunks)|
    ensures StartsWith(chunks[..|chunks| - 1], p, rest)
    ensures |Flatten(chunks[..|chunks| - 1])| <= |Flatten(chunks)|
  {
    var buf := BufferAfter(bufSz, chunks);
    BufferIsPrefix(bufSz, chunks);
    PrefixTransitive(buf, Flatten(chunks), Frame(p) + rest);
    PrefixTransitive(Flatten(chunks[..|chunks| - 1]), Flatten(chunks), Frame(p) + rest);
    EmittedOf(buf, p, rest);
  }

  /** The code as it is, on any stream that begins with a frame. If the header of that
      frame is not positive, nothing is ever produced. Otherwise there is one empty
      payload for every call that came too early, then the first payload once for
      every later call, and never any other message. */
  lemma {:induction false} AsWritten(bufSz: int, chunks: seq<Bytes>, p: Bytes, rest: Bytes, total: int)
    requires |p| < PAYLOAD_LIMIT && StartsWith(chunks, p, rest) && total >= |Flatten(chunks)|
    ensures HeaderLength(p) < 1 ==> ProducedAfter(bufSz, chunks) == []
    ensures HeaderLength(p) >= 1 ==>
      ProducedAfter(bufSz, chunks)
      == Copies(EarlyCalls(bufSz, chunks, p), []) + Copies(LateCalls(bufSz, chunks, p, total), p)
  {
    if chunks == [] {
    } else {
      var before, n := chunks[..|chunks| - 1], |BufferAfter(bufSz, chunks)|;
      OneCall(bufSz, chunks, p, rest);
      AsWritten(bufSz, before, p, rest, total);
      if n < 6 + |p| {
        NoLateCalls(bufSz, before, 6 + |p|, total + 1);
      }
      if HeaderLength(p) >= 1 {
        OneMoreCall(EarlyCalls(bufSz, before, p), LateCalls(bufSz, before, p, total), n, p);
      }
    }
  }

  lemma OneMoreCall(early: nat, late: nat, n: nat, p: Bytes)
    requires HeaderLength(p) >= 1 && (n < 6 + |p| ==> late == 0)
    ensures (Copies(early, []) + Copies(late, p)) + Expected(n, p)
         == Copies(early + (if 2 <= n < 6 + |p| then 1 else 0), []) + Copies(late + (if 6 + |p| <= n then 1 else 0), p)
  {
  }

  lemma PrefixTransitive(a: Bytes, b: Bytes, c: Bytes)
    requires a <= b && b <= c
    ensures a <= c
  {
  }

  /** So the code as written delivers a sequence of messages correctly exactly when
      the first header is positive, there is one call for each message that sees that
      header, all messages are the same, and no such call comes too early unless they
      are empty. */
  lemma CorrectAsWritten(bufSz: int, chunks: seq<Bytes>, payloads: seq<Bytes>)
    requires payloads != [] && Sendable(payloads)
    requires Flatten(chunks) == Frames(payloads)
    ensures ProducedAfter(bufSz, chunks) == payloads <==>
         && HeaderLength(payloads[0]) >= 1
         && |payloads| == EarlyCalls(bufSz, chunks, payloads[0])
                        + LateCalls(bufSz, chunks, payloads[0], |Flatten(chunks)|)
         && payloads == Copies(|payloads|, payloads[0])
         && (EarlyCalls(bufSz, chunks, payloads[0]) == 0 || payloads[0] == [])
  {
    var p, total := payloads[0], |Flatten(chunks)|;
    AsWritten(bufSz, chunks, p, Frames(payloads[1..]), total);
    TwoRuns(payloads, EarlyCalls(bufSz, chunks, p), LateCalls(bufSz, chunks, p, total));
  }

  lemma TwoRuns(payloads: seq<Bytes>, early: nat, late: nat)
    requires payloads != []
    ensures Copies(early, []) + Copies(late, payloads[0]) == payloads <==>
         && |payloads| == early + late
         && payloads == Copies(|payloads|, payloads[0])
         && (early == 0 || payloads[0] == [])
  {
    var p := payloads[0];
    var out := Copies(early, []) + Copies(late, p);
    assert forall i :: 0 <= i < early ==> out[i] == [];
    assert forall i :: early <= i < early + late ==> out[i] == p;
    if out == payloads {
      assert early > 0 ==> out[0] == [];
      assert forall i :: 0 <= i < |payloads| ==> payloads[i] == p;
    }
  }

  lemma TwoChunks(a: Bytes, b: Bytes)
    ensures Flatten([a]) == a && Flatten([a, b]) == a + b
  {
    assert [a, b][..1] == [a] && [a][..0] == [];
    assert [] + a == a;
  }

  /** Two different messages, one in each chunk: the first is delivered twice, and the
      second never. */
  lemma SecondMessageLost()
    ensures Flatten([Frame([1]), Frame([2])]) == Frames([[1], [2]])
    ensures ProducedAfter(1024, [Frame([1]), Frame([2])]) == [[1], [1]]
  {
    var a, b := Frame([1]), Frame([2]);
    TwoChunks(a, b);
    assert Frames([[1], [2]]) == a + (b + []) by {
      assert [[1], [2]][1..] == [[2]] && [[2]][1..] == [];
    }
    assert [a, b][..1] == [a] && [a][..0] == [];
    assert BufferAfter(1024, [a]) == a && BufferAfter(1024, [a, b]) == a + b;
    EmittedOf(a, [1], []);
    EmittedOf(a + b, [1], b);
    assert ProducedAfter(1024, [a]) == [] + Emitted(a);
  }

  /** One message in two chunks: the header alone already makes the code deliver an
      empty payload. */
  lemma EarlyEmptyMessage()
    ensures Flatten([Frame([1])[..2], Frame([1])[2..]]) == Frames([[1]])
    ensures ProducedAfter(1024, [Frame([1])[..2], Frame([1])[2..]]) == [[], [1]]
  {
    var s := Frame([1]);
    var a, b := s[..2], s[2..];
    TwoChunks(a, b);
    assert a + b == s;
    assert Frames([[1]]) == s + [] by {
      assert [[1]][1..] == [];
    }
    assert [a, b][..1] == [a] && [a][..0] == [];
    assert BufferAfter(1024, [a]) == a && BufferAfter(1024, [a, b]) == a + b;
    EmittedOf(a, [1], []);
    EmittedOf(a + b, [1], []);
    assert ProducedAfter(1024, [a]) == [] + Emitted(a);
  }

  // ------------------------------------------------------------------ as intended

  /** The buffer begins with a complete frame. */
  predicate Complete(buf: Bytes) {
    |buf| >= 6 && ReadSize(buf) < PAYLOAD_LIMIT && |buf| >= 6 + ReadSize(buf)
  }

  /** The payloads of the complete frames at the beginning of the buffer. */
  function Drained(buf: Bytes): seq<Bytes>
    decreases |buf|
  {
    if Complete(buf) then [ReadPayload(buf)] + Drained(buf[6 + ReadSize(buf)..]) else []
  }

  /** What remains when the bytes consumed are removed. */
  function Remainder(buf: Bytes): Bytes
    decreases |buf|
  {
    if Complete(buf) then Remainder(buf[6 + ReadSize(buf)..]) else buf
  }

  /** The intended reassembler: add a chunk, deliver what is complete, keep the rest. */
  function IntendedBuffer(chunks: seq<Bytes>): Bytes {
    if chunks == [] then []
    else Remainder(IntendedBuffer(chunks[..|chunks| - 1]) + chunks[|chunks| - 1])
  }

  function IntendedOutput(chunks: seq<Bytes>): seq<Bytes> {
    if chunks == [] then []
    else
      var before := chunks[..|chunks| - 1];
      IntendedOutput(before) + Drained(IntendedBuffer(before) + chunks[|chunks| - 1])
  }

  lemma CompletePrefix(a: Bytes, b: Bytes)
    requires Complete(a)
    ensures Complete(a + b) && ReadSize(a + b) == ReadSize(a) && ReadPayload(a + b) == ReadPayload(a)
    ensures (a + b)[6 + ReadSize(a)..] == a[6 + ReadSize(a)..] + b
  {
    assert (a + b)[6..6 + ReadSize(a)] == a[6..6 + ReadSize(a)];
  }

  lemma DrainStep(buf: Bytes, rest: Bytes)
    requires Complete(buf) && rest == buf[6 + ReadSize(buf)..]
    ensures Drained(buf) == [ReadPayload(buf)] + Drained(rest)
    ensures Remainder(buf) == Remainder(rest)
    ensures |rest| < |buf|
  {
  }

  lemma Associative(u: seq<Bytes>, v: seq<Bytes>, w: seq<Bytes>)
    ensures u + (v + w) == (u + v) + w
    ensures [] + u == u
  {
  }

  lemma {:induction false} DrainAppend(a: Bytes, b: Bytes)
    ensures Drained(a + b) == Drained(a) + Drained(Remainder(a) + b)
    ensures Remainder(a + b) == Remainder(Remainder(a) + b)
    decreases |a|
  {
    if Complete(a) {
      var rest := a[6 + ReadSize(a)..];
      CompletePrefix(a, b);
      DrainStep(a, rest);
      DrainStep(a + b, rest + b);
      DrainAppend(rest, b);
      Associative([ReadPayload(a)], Drained(rest), Drained(Remainder(rest) + b));
    } else {
      Associative(Drained(a + b), [], []);
    }
  }

  /** How a stream is cut into chunks makes no difference, whatever the stream. */
  lemma {:induction false} ChunkingIrrelevant(chunks: seq<Bytes>)
    ensures IntendedOutput(chunks) == Drained(Flatten(chunks))
    ensures IntendedBuffer(chunks) == Remainder(Flatten(chunks))
  {
    if chunks == [] {
    } else {
      var n := |chunks| - 1;
      ChunkingIrrelevant(chunks[..n]);
      DrainAppend(Flatten(chunks[..n]), chunks[n]);
    }
  }

  lemma IncompleteFrame(part: Bytes, q: Bytes)
    requires |q| < PAYLOAD_LIMIT && part <= Frame(q) && part != Frame(q)
    ensures !Complete(part)
  {
    FrameFields(q, []);
    assert Frame(q) + [] == Frame(q);
    assert forall i :: 0 <= i < |part| ==> part[i] == Frame(q)[i];
  }

  lemma {:induction false} FramesDrain(payloads: seq<Bytes>, part: Bytes)
    requires Sendable(payloads) && !Complete(part)
    ensures Drained(Frames(payloads) + part) == payloads
    ensures Remainder(Frames(payloads) + part) == part
    decreases |payloads|
  {
    if payloads == [] {
      assert [] + part == part;
    } else {
      var p, rest := payloads[0], Frames(payloads[1..]) + part;
      assert Frames(payloads) + part == Frame(p) + rest;
      FrameFields(p, rest);
      assert (Frame(p) + rest)[6 + |p|..] == rest;
      DrainStep(Frame(p) + rest, rest);
      FramesDrain(payloads[1..], part);
    }
  }

  /** Any cutting of concatenated frames, the last one possibly incomplete, delivers
      exactly the completed payloads in order and keeps the incomplete rest. */
  lemma Reassembly(chunks: seq<Bytes>, payloads: seq<Bytes>, q: Bytes, part: Bytes)
    requires Sendable(payloads) && |q| < PAYLOAD_LIMIT && part <= Frame(q) && part != Frame(q)
    requires Flatten(chunks) == Frames(payloads) + part
    ensures IntendedOutput(chunks) == payloads && IntendedBuffer(chunks) == part
  {
    ChunkingIrrelevant(chunks);
    IncompleteFrame(part, q);
    FramesDrain(payloads, part);
  }
}
