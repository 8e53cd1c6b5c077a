/** What chunking promises about the pieces, and what it leaves to the callback. */
module ChunkingLaws {
  import opened FileChunking
  import opened Octets
  import opened Text
  import opened Utf8

  // ------------------------------------------------------------------ the pieces

  lemma CeilingStep(length: int, size: nat)
    requires size >= 1 && length > size
    ensures (length + size - 1) / size == 1 + (length - size + size - 1) / size
  {
    DivideLess(length + size - 1, size);
  }

  lemma DivideLess(a: int, b: nat)
    requires b >= 1
    ensures a / b == 1 + (a - b) / b && a % b == (a - b) % b
  {
    var q, r := (a - b) / b, (a - b) % b;
    assert a == (q + 1) * b + r;
    QuotientIs(a, b, q + 1, r);
  }

  lemma ProductSize(d: int, b: int)
    requires b >= 1
    ensures d >= 1 ==> d * b >= b
    ensures d <= -1 ==> d * b <= -b
  {
  }

  lemma QuotientIs(a: int, b: nat, q: int, r: int)
    requires b >= 1 && 0 <= r < b && a == q * b + r
    ensures a / b == q && a % b == r
  {
    var d := a / b - q;
    assert a == (a / b) * b + a % b;
    assert d * b == r - a % b;
    ProductSize(d, b);
  }

  lemma CeilingSmall(length: int, size: nat)
    requires 1 <= length <= size
    ensures (length + size - 1) / size == 1
  {
  }

  lemma {:induction false} CutCount(text: QString, size: nat)
    requires size >= 1
    ensures |Cut(text, size)| == (|text| + size - 1) / size
    decreases |text|
  {
    if text == [] {
      QuotientIs(size - 1, size, 0, size - 1);
    } else {
      var n := Min(size, |text|);
      CutCount(text[n..], size);
      if |text| <= size {
        CeilingSmall(|text|, size);
        assert text[n..] == [];
      } else {
        CeilingStep(|text|, size);
      }
    }
  }

  /** Cutting loses nothing: the pieces concatenate to the text, each has 1 to
      `size` characters, and there are as few of them as possible. */
  lemma {:induction false} CutPartitions(text: QString, size: nat)
    requires size >= 1
    ensures Concat(Cut(text, size)) == text
    ensures forall p :: p in Cut(text, size) ==> 1 <= |p| <= size
    ensures |Cut(text, size)| == (|text| + size - 1) / size
    decreases |text|
  {
    CutCount(text, size);
    if text == [] {
    } else {
      var n := Min(size, |text|);
      CutPartitions(text[n..], size);
      assert text[..n] + text[n..] == text;
      assert Cut(text, size)[1..] == Cut(text[n..], size);
    }
  }

  lemma PartOfRest(text: QString, n: nat, a: nat, b: nat)
    requires n <= |text| && a <= b <= |text| - n
    ensures text[n..][a..b] == text[n + a..n + b]
  {
  }

  lemma OnePieceLess(k: nat, size: nat)
    requires k > 0
    ensures (k - 1) * size + size == k * size && 0 <= (k - 1) * size
  {
  }

  /** Piece `k` is what lies between `k` and `k + 1` times `size`, or up to the end. */
  lemma {:induction false} CutAt(text: QString, size: nat, k: nat)
    requires size >= 1 && k < |Cut(text, size)|
    ensures 0 <= k * size < |text|
    ensures Cut(text, size)[k] == text[k * size..Min(k * size + size, |text|)]
    decreases k
  {
    if k == 0 {
    } else {
      var n := Min(size, |text|);
      var from := (k - 1) * size;
      assert Cut(text, size)[1..] == Cut(text[n..], size);
      CutAt(text[n..], size, k - 1);
      OnePieceLess(k, size);
      PartOfRest(text, n, from, Min(from + size, |text| - n));
    }
  }

  lemma {:induction false} DeliveriesAreCut(text: QString, size: nat)
    requires size >= 1
    ensures Deliveries(text, size) == EncodeAll(Cut(text, size))
    decreases |text|
  {
    if text == [] {
    } else {
      var n := Min(size, |text|);
      DeliveriesAreCut(text[n..], size);
      var pieces := Cut(text, size);
      assert pieces[1..] == Cut(text[n..], size);
    }
  }

  // ------------------------------------------------------------------- the bytes

  /** A surrogate pair lies across position `p`. */
  predicate PairAcross(text: QString, p: int) {
    0 < p < |text| && IsHigh(text[p - 1]) && IsLow(text[p])
  }

  /** No multiple of `size` lies inside a surrogate pair. */
  predicate PairsKept(text: QString, size: nat)
    requires size >= 1
  {
    forall p :: 0 < p < |text| && p % size == 0 ==> !PairAcross(text, p)
  }

  /** The number of surrogate pairs that cutting breaks. */
  function BrokenPairs(text: QString, size: nat): nat
    requires size >= 1
    decreases |text|
  {
    if |text| <= size then 0
    else (if PairAcross(text, size) then 1 else 0) + BrokenPairs(text[size..], size)
  }

  lemma ShiftedPair(text: QString, size: nat, p: int)
    requires 1 <= size < |text| && size < p < |text|
    ensures PairAcross(text, p) == PairAcross(text[size..], p - size)
    ensures p % size == (p - size) % size
  {
    DivideLess(p, size);
  }

  lemma MultiplesFrom(size: nat, p: int)
    requires size >= 1 && 0 < p <= size
    ensures p % size == 0 <==> p == size
  {
  }

  lemma {:induction false} NoneBroken(text: QString, size: nat)
    requires size >= 1
    ensures BrokenPairs(text, size) == 0 <==> PairsKept(text, size)
    decreases |text|
  {
    if |text| <= size {
      forall p | 0 < p < |text|
        ensures p % size != 0
      {
        MultiplesFrom(size, p);
      }
    } else {
      var rest := text[size..];
      NoneBroken(rest, size);
      MultiplesFrom(size, size);
      if PairsKept(text, size) {
        assert !PairAcross(text, size);
        forall q | 0 < q < |rest| && q % size == 0
          ensures !PairAcross(rest, q)
        {
          ShiftedPair(text, size, q + size);
        }
      }
      if BrokenPairs(text, size) == 0 {
        forall p | 0 < p < |text| && p % size == 0
          ensures !PairAcross(text, p)
        {
          if p <= size {
            MultiplesFrom(size, p);
          } else {
            ShiftedPair(text, size, p);
          }
        }
      }
    }
  }

  /** Every broken pair costs two bytes, and the chunk bytes are the bytes of the
      text exactly when no pair is broken. */
  lemma {:induction false} ChunkBytes(text: QString, size: nat)
    requires size >= 1
    ensures |Encode(text)| == |Concat(Deliveries(text, size))| + 2 * BrokenPairs(text, size)
    ensures Concat(Deliveries(text, size)) == Encode(text) <==> BrokenPairs(text, size) == 0
    decreases |text|
  {
    if text == [] {
    } else {
      var n := Min(size, |text|);
      var first, rest := text[..n], text[n..];
      ChunkBytes(rest, size);
      assert text == first + rest;
      EncodeSplit(first, rest);
      assert Deliveries(text, size)[1..] == Deliveries(rest, size);
      assert Concat(Deliveries(text, size)) == Encode(first) + Concat(Deliveries(rest, size));
      assert SplitsPair(first, rest) == PairAcross(text, n);
    }
  }

  /** Chunking with a callback that always wants more: it delivers ceil(length /
      size) chunks, and their bytes concatenate to the UTF-8 of the text if and
      only if no chunk boundary falls into a surrogate pair. */
  lemma LosslessChunking(text: QString, size: nat, enough: seq<Bytes> -> bool, n: int, after: seq<Bytes>)
    requires size >= 1 && forall s :: !enough(s)
    requires Delivered(enough, [], Deliveries(text, size), n, after)
    ensures n == (|text| + size - 1) / size
    ensures after == EncodeAll(Cut(text, size))
    ensures Concat(after) == Encode(text) <==> PairsKept(text, size)
  {
    var all := Deliveries(text, size);
    assert n == |all| && after == all;
    DeliveriesAreCut(text, size);
    CutPartitions(text, size);
    EncodeAllSize(Cut(text, size));
    ChunkBytes(text, size);
    NoneBroken(text, size);
  }

  lemma NotEnoughYet(m: nat, all: seq<Bytes>, n: int, after: seq<Bytes>, k: nat)
    requires Delivered((s: seq<Bytes>) => |s| >= m, [], all, n, after) && k < n
    ensures k < m
  {
    assert |[] + all[..k]| == k;
  }

  lemma StopsWith(m: nat, all: seq<Bytes>, n: int, after: seq<Bytes>)
    requires Delivered((s: seq<Bytes>) => |s| >= m, [], all, n, after)
    ensures n == Min(m, |all|) && after == all[..n]
  {
    if n > 0 {
      NotEnoughYet(m, all, n, after, n - 1);
    }
  }

  lemma DeliveryAt(text: QString, size: nat, k: nat)
    requires size >= 1 && k < |Deliveries(text, size)|
    ensures 0 <= k * size < |text|
    ensures Deliveries(text, size)[k] == Encode(text[k * size..Min(k * size + size, |text|)])
  {
    var pieces := Cut(text, size);
    DeliveriesAreCut(text, size);
    EncodeAllSize(pieces);
    CutAt(text, size, k);
    EncodeAllAt(pieces, k);
  }

  /** A callback that wants `m` chunks gets the first `m`, or all if there are fewer, and
      chunk `k` is the encoding of the characters from k times `size` on. */
  lemma FirstChunks(text: QString, size: nat, m: nat, n: int, after: seq<Bytes>)
    requires size >= 1 && Delivered((s: seq<Bytes>) => |s| >= m, [], Deliveries(text, size), n, after)
    ensures n == |after| == Min(m, |Cut(text, size)|)
    ensures forall k :: 0 <= k < n ==>
      0 <= k * size < |text| && after[k] == Encode(text[k * size..Min(k * size + size, |text|)])
  {
    StopsWith(m, Deliveries(text, size), n, after);
    DeliveriesAreCut(text, size);
    EncodeAllSize(Cut(text, size));
    forall k: int | 0 <= k < n
      ensures 0 <= k * size < |text| && after[k] == Encode(text[k * size..Min(k * size + size, |text|)])
    {
      DeliveryAt(text, size, k);
    }
  }

  lemma {:induction false} EncodeAllAt(pieces: seq<QString>, k: nat)
    requires k < |pieces|
    ensures k < |EncodeAll(pieces)| && EncodeAll(pieces)[k] == Encode(pieces[k])
  {
    if k == 0 {
    } else {
      EncodeAllAt(pieces[1..], k - 1);
    }
  }

  lemma {:induction false} EncodeAllSize(pieces: seq<QString>)
    ensures |EncodeAll(pieces)| == |pieces|
  {
    if pieces == [] {
    } else {
      EncodeAllSize(pieces[1..]);
    }
  }

  lemma LoneSurrogate(c: QChar)
    requires IsHigh(c) || IsLow(c)
    ensures Encode([c]) == [0x3F]
  {
    var text := [c];
    assert text[1..] == [];
    assert Encode(text) == EncodeUnit(c) + Encode([]);
  }

  /** A pair cut in two: the chunks of one character hold two question marks, the
      text has four bytes. */
  lemma BrokenPair()
    ensures var text: QString := [0xD83D, 0xDE00];
            && Concat(Deliveries(text, 1)) != Encode(text)
            && Deliveries(text, 1) == [[0x3F], [0x3F]]
  {
    var text: QString := [0xD83D, 0xDE00];
    assert PairAcross(text, 1);
    assert BrokenPairs(text, 1) == 1 + BrokenPairs(text[1..], 1);
    ChunkBytes(text, 1);
    assert text[..1] == [0xD83D] && text[1..] == [0xDE00] && text[1..][..1] == [0xDE00] && text[1..][1..] == [];
    LoneSurrogate(0xD83D);
    LoneSurrogate(0xDE00);
    assert Deliveries(text, 1) == [Encode(text[..1])] + Deliveries(text[1..], 1);
    assert Deliveries(text[1..], 1) == [Encode(text[1..][..1])] + Deliveries(text[1..][1..], 1);
  }

  // ---------------------------------------------------------- any other callback

  /** `QString::mid`: the characters that the text has at `n` positions from `pos` on. */
  function Mid(text: QString, pos: int, n: int): QString {
    var lo := if pos < 0 then 0 else pos;
    var hi := Min(pos + n, |text|);
    if lo <= hi then text[lo..hi] else []
  }

  /** The loop around any callback, which is given by its answers and by where it
      leaves the cursor each time. */
  datatype Loop = Loop(running: bool, offset: int, data: Bytes, totalChunks: int)

  function FirstOffer(text: QString, chunkSize: int): Loop {
    Loop(true, Min(chunkSize, |text|), [], 0)
  }

  /** One call of the callback, and the body of the loop if it answered yes. */
  function Round(text: QString, chunkSize: int, s: Loop, more: bool, startPos: int): Loop {
    if !s.running then s
    else if !more then s.(running := false)
    else
      var offset := Min(chunkSize, |text| - startPos);
      if offset < 1 || startPos >= |text| then s.(running := false, offset := offset)
      else Loop(true, offset, Encode(Mid(text, startPos, offset)), s.totalChunks + 1)
  }

  function AfterRounds(text: QString, chunkSize: int, more: nat -> bool, startPos: nat -> int, k: nat): Loop {
    if k == 0 then FirstOffer(text, chunkSize)
    else Round(text, chunkSize, AfterRounds(text, chunkSize, more, startPos, k - 1), more(k - 1), startPos(k - 1))
  }

  /** The callback wants more and has left the cursor before the end of the text. */
  predicate Continues(text: QString, chunkSize: int, more: nat -> bool, startPos: nat -> int, j: nat) {
    chunkSize >= 1 && more(j) && startPos(j) < |text|
  }

  predicate ContinuesUpTo(text: QString, chunkSize: int, more: nat -> bool, startPos: nat -> int, k: nat) {
    forall j: nat :: j < k ==> Continues(text, chunkSize, more, startPos, j)
  }

  lemma MidClipped(text: QString, chunkSize: int, startPos: int)
    requires chunkSize >= 1 && startPos < |text|
    ensures Mid(text, startPos, Min(chunkSize, |text| - startPos)) == Mid(text, startPos, chunkSize)
  {
  }

  /** What any callback gets, and when it is over. The loop goes on exactly as long as
      the callback wants more and leaves the cursor before the end. While it does, the
      k-th call after the first, empty one is given the encoding of the chunkSize
      characters at the cursor the callback left, and their number as the offset, and k
      chunks have been counted. */
  lemma {:induction false} CallbackDecides(text: QString, chunkSize: int, more: nat -> bool, startPos: nat -> int,
                                           k: nat)
    ensures var s := AfterRounds(text, chunkSize, more, startPos, k);
            && (s.running <==> ContinuesUpTo(text, chunkSize, more, startPos, k))
            && (s.running ==> s.totalChunks == k)
            && (s.running && k > 0 ==> s.data == Encode(Mid(text, startPos(k - 1), chunkSize)))
            && (s.running ==> s.offset == Min(chunkSize, |text| - (if k == 0 then 0 else startPos(k - 1))))
            && (k == 0 ==> s.data == [])
  {
    if k == 0 {
    } else {
      CallbackDecides(text, chunkSize, more, startPos, k - 1);
      if Continues(text, chunkSize, more, startPos, k - 1) {
        MidClipped(text, chunkSize, startPos(k - 1));
      }
      if ContinuesUpTo(text, chunkSize, more, startPos, k) {
        assert ContinuesUpTo(text, chunkSize, more, startPos, k - 1);
        assert Continues(text, chunkSize, more, startPos, k - 1);
      }
    }
  }

  /** When the loop stops at call number n, counted from zero, the count returned is n,
      and it stays stopped. */
  lemma {:induction false} ChunksReturned(text: QString, chunkSize: int, more: nat -> bool, startPos: nat -> int,
                                          n: nat, k: nat)
    requires ContinuesUpTo(text, chunkSize, more, startPos, n) && !Continues(text, chunkSize, more, startPos, n)
    requires k > n
    ensures var s := AfterRounds(text, chunkSize, more, startPos, k); !s.running && s.totalChunks == n
  {
    if k == n + 1 {
      CallbackDecides(text, chunkSize, more, startPos, n);
    } else {
      ChunksReturned(text, chunkSize, more, startPos, n, k - 1);
    }
  }

  /** In particular a callback that never moves the cursor never sees the end: it is
      given the first chunk again and again. */
  lemma StalledCallback(text: QString, chunkSize: int, more: nat -> bool, startPos: nat -> int, k: nat)
    requires text != [] && chunkSize >= 1 && k > 0
    requires forall j: nat :: more(j) && startPos(j) == 0
    ensures var s := AfterRounds(text, chunkSize, more, startPos, k);
            s.running && s.totalChunks == k && s.data == Encode(text[..Min(chunkSize, |text|)])
  {
    CallbackDecides(text, chunkSize, more, startPos, k);
  }
}
