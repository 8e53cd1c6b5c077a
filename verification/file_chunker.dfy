/** `FileChunker::chunkText`: a loop that hands out a text piece by piece, but
    leaves it to the callback to move on. */
module FileChunking {
  import opened Octets
  import opened Text
  import opened Utf8

  // ------------------------------------------------------- the pieces of a text

  /** The text cut after every `size` characters. */
  function Cut(text: QString, size: nat): seq<QString>
    requires size >= 1
    decreases |text|
  {
    if text == [] then []
    else
      var n := Min(size, |text|);
      [text[..n]] + Cut(text[n..], size)
  }

  function EncodeAll(pieces: seq<QString>): seq<Bytes> {
    if pieces == [] then [] else [Encode(pieces[0])] + EncodeAll(pieces[1..])
  }

  /** What a callback can be given: nothing at all for a chunk size below one. */
  function Deliveries(text: QString, chunkSize: int): seq<Bytes>
    decreases |text|
  {
    if chunkSize < 1 || text == [] then []
    else
      var n := Min(chunkSize, |text|);
      [Encode(text[..n])] + Deliveries(text[n..], chunkSize)
  }

  // ------------------------------------------------------------------- classes

  class Chunk {
    var id: int
    var data: Bytes
    var startPos: int
    var offset: int
    var filePathName: QString

    constructor (filePathName: QString)
      ensures id == 0 && data == [] && startPos == 0 && offset == 0 && this.filePathName == filePathName
    {
      id, data, startPos, offset := 0, [], 0, 0;
      this.filePathName := filePathName;
    }
  }

  /** A callback that keeps the data it is given, moves the cursor past it, and
      asks for more until it has `enough`. */
  class Collector {
    const enough: seq<Bytes> -> bool
    var pieces: seq<Bytes>

    constructor (enough: seq<Bytes> -> bool)
      ensures this.enough == enough && pieces == []
    {
      this.enough := enough;
      pieces := [];
    }

    method Call(chunk: Chunk) returns (more: bool)
      modifies this, chunk
      ensures chunk.data == old(chunk.data) && chunk.offset == old(chunk.offset)
      ensures chunk.data == [] ==> pieces == old(pieces) && chunk.startPos == old(chunk.startPos)
      ensures chunk.data != [] ==> pieces == old(pieces) + [chunk.data]
      ensures chunk.data != [] ==> chunk.startPos == old(chunk.startPos) + chunk.offset
      ensures more == !enough(pieces)
    {
      if chunk.data != [] {
        pieces := pieces + [chunk.data];
        chunk.startPos := chunk.startPos + chunk.offset;
      }
      more := !enough(pieces);
    }
  }

  /** What a callback that had `before` has after the first `n` of `all`. */
  function Collected(before: seq<Bytes>, all: seq<Bytes>, n: nat): seq<Bytes>
    requires n <= |all|
  {
    if n == 0 then before else Collected(before, all, n - 1) + [all[n - 1]]
  }

  /** None of the first `n` states was enough for it. */
  predicate Hungry(enough: seq<Bytes> -> bool, before: seq<Bytes>, all: seq<Bytes>, n: nat)
    requires n <= |all|
  {
    n == 0 || (Hungry(enough, before, all, n - 1) && !enough(Collected(before, all, n - 1)))
  }

  /** `cb` was given the first `n` of `all` and stopped there because it had
      enough, or because there was no more. */
  ghost predicate Delivered(enough: seq<Bytes> -> bool, before: seq<Bytes>, all: seq<Bytes>, n: int, after: seq<Bytes>)
  {
    && 0 <= n <= |all|
    && after == before + all[..n]
    && (forall k :: 0 <= k < n ==> !enough(before + all[..k]))
    && (n < |all| ==> enough(after))
  }

  lemma {:induction false} CollectedIs(before: seq<Bytes>, all: seq<Bytes>, n: nat)
    requires n <= |all|
    ensures Collected(before, all, n) == before + all[..n]
  {
    if n == 0 {
    } else {
      CollectedIs(before, all, n - 1);
      assert before + all[..n] == (before + all[..n - 1]) + [all[n - 1]];
    }
  }

  lemma {:induction false} HungryMeans(enough: seq<Bytes> -> bool, before: seq<Bytes>, all: seq<Bytes>, n: nat)
    requires n <= |all|
    ensures Hungry(enough, before, all, n) <==> forall k :: 0 <= k < n ==> !enough(before + all[..k])
  {
    if n == 0 {
    } else {
      HungryMeans(enough, before, all, n - 1);
      CollectedIs(before, all, n - 1);
    }
  }

  /** Where the cursor stands after `n` pieces. */
  function Position(text: QString, chunkSize: int, n: nat): int {
    if n == 0 then 0 else Min(Position(text, chunkSize, n - 1) + chunkSize, |text|)
  }

  lemma DeliveriesNext(rest: QString, chunkSize: int, n: int)
    requires rest != [] && chunkSize >= 1 && n == Min(chunkSize, |rest|)
    ensures Deliveries(rest, chunkSize) == [Encode(rest[..n])] + Deliveries(rest[n..], chunkSize)
    ensures Encode(rest[..n]) != []
  {
    EncodeNonEmpty(rest[..n]);
  }

  /** The deliveries from `n` on are those of the text from the `n`-th position on. */
  lemma {:induction false} DeliveriesFrom(text: QString, chunkSize: int, n: nat)
    requires chunkSize >= 1 && n <= |Deliveries(text, chunkSize)|
    ensures 0 <= Position(text, chunkSize, n) <= |text|
    ensures Deliveries(text, chunkSize)[n..] == Deliveries(text[Position(text, chunkSize, n)..], chunkSize)
  {
    if n == 0 {
      assert text[0..] == text;
    } else {
      var all, pos := Deliveries(text, chunkSize), Position(text, chunkSize, n - 1);
      DeliveriesFrom(text, chunkSize, n - 1);
      var rest := text[pos..];
      assert rest != [];
      DeliveriesNext(rest, chunkSize, Min(chunkSize, |rest|));
      assert rest[Min(chunkSize, |rest|)..] == text[Position(text, chunkSize, n)..];
      Tail(all, n - 1, Encode(rest[..Min(chunkSize, |rest|)]),
           Deliveries(text[Position(text, chunkSize, n)..], chunkSize));
    }
  }

  lemma DeliverNext(text: QString, chunkSize: int, n: nat, pos: int, next: int)
    requires chunkSize >= 1 && n <= |Deliveries(text, chunkSize)|
    requires pos == Position(text, chunkSize, n) < |text| && next == pos + Min(chunkSize, |text| - pos)
    ensures 0 <= pos < next <= |text| && next == Position(text, chunkSize, n + 1)
    ensures var all := Deliveries(text, chunkSize);
            n < |all| && all[n] == Encode(text[pos..next]) && all[n] != []
  {
    DeliveriesFrom(text, chunkSize, n);
    var rest := text[pos..];
    DeliveriesNext(rest, chunkSize, next - pos);
    assert rest[..next - pos] == text[pos..next];
    Tail(Deliveries(text, chunkSize), n, Encode(text[pos..next]), Deliveries(rest[next - pos..], chunkSize));
  }

  lemma NothingLeft(text: QString, chunkSize: int, n: nat)
    requires n <= |Deliveries(text, chunkSize)|
    requires chunkSize < 1 || Position(text, chunkSize, n) >= |text|
    ensures n == |Deliveries(text, chunkSize)|
  {
    if chunkSize >= 1 {
      DeliveriesFrom(text, chunkSize, n);
    }
  }

  lemma Tail<T>(all: seq<T>, n: int, head: T, rest: seq<T>)
    requires 0 <= n <= |all| && all[n..] == [head] + rest
    ensures n < |all| && all[n] == head && all[n + 1..] == rest
  {
    assert |all[n..]| == 1 + |rest|;
    assert all[n] == all[n..][0];
    assert all[n + 1..] == all[n..][1..];
  }

  /** The loop has delivered `n` pieces, the cursor is at `pos`, and the callback,
      not yet satisfied before, has `pieces`. */
  ghost predicate Progress(text: QString, chunkSize: int, enough: seq<Bytes> -> bool, before: seq<Bytes>,
                           n: int, pos: int, pieces: seq<Bytes>) {
    var all := Deliveries(text, chunkSize);
    && 0 <= n <= |all|
    && 0 <= pos <= |text|
    && pos == Position(text, chunkSize, n)
    && pieces == Collected(before, all, n)
    && Hungry(enough, before, all, n)
  }

  lemma Advance(text: QString, chunkSize: int, enough: seq<Bytes> -> bool, before: seq<Bytes>,
                n: int, pos: int, pieces: seq<Bytes>, next: int, data: Bytes)
    requires Progress(text, chunkSize, enough, before, n, pos, pieces)
    requires chunkSize >= 1 && pos < |text| && !enough(pieces)
    requires next == pos + Min(chunkSize, |text| - pos) && data == Encode(text[pos..next])
    ensures data != [] && Progress(text, chunkSize, enough, before, n + 1, next, pieces + [data])
  {
    DeliverNext(text, chunkSize, n, pos, next);
  }

  lemma Finish(text: QString, chunkSize: int, enough: seq<Bytes> -> bool, before: seq<Bytes>,
               n: int, pos: int, pieces: seq<Bytes>)
    requires Progress(text, chunkSize, enough, before, n, pos, pieces)
    requires enough(pieces) || chunkSize < 1 || pos >= |text|
    ensures Delivered(enough, before, Deliveries(text, chunkSize), n, pieces)
  {
    var all := Deliveries(text, chunkSize);
    if chunkSize < 1 || pos >= |text| {
      NothingLeft(text, chunkSize, n);
    }
    CollectedIs(before, all, n);
    HungryMeans(enough, before, all, n);
  }

  class FileChunker {
    var totalChunks: int

    constructor ()
      ensures totalChunks == 0
    {
      totalChunks := 0;
    }

    method ChunkText(text: QString, chunkSize: int, cb: Collector, filePathName: QString) returns (n: int)
      modifies this, cb
      ensures text == [] ==> n == 0 && totalChunks == old(totalChunks) && cb.pieces == old(cb.pieces)
      ensures text != [] ==> n == totalChunks
      ensures text != [] ==> Delivered(cb.enough, old(cb.pieces), Deliveries(text, chunkSize), n, cb.pieces)
    {
      if text == [] {
        return 0;
      }
      totalChunks := 0;
      var totalLen := |text|;
      var chunk := new Chunk(filePathName);
      chunk.offset := Min(chunkSize, totalLen);
      ghost var before := cb.pieces;
      var more := cb.Call(chunk);
      while more
        invariant Progress(text, chunkSize, cb.enough, before, totalChunks, chunk.startPos, cb.pieces)
        invariant more == !cb.enough(cb.pieces)
        invariant fresh(chunk)
        decreases totalLen - chunk.startPos, more
      {
        chunk.offset := Min(chunkSize, totalLen - chunk.startPos);
        if chunk.offset < 1 {
          break;
        }
        if chunk.startPos >= totalLen {
          break;
        }
        var data := Encode(text[chunk.startPos..chunk.startPos + chunk.offset]);
        Advance(text, chunkSize, cb.enough, before, totalChunks, chunk.startPos, cb.pieces,
                chunk.startPos + chunk.offset, data);
        chunk.data := data;
        totalChunks := totalChunks + 1;
        more := cb.Call(chunk);
      }
      Finish(text, chunkSize, cb.enough, before, totalChunks, chunk.startPos, cb.pieces);
      n := totalChunks;
    }
  }
}
