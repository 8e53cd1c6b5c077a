/** `File::findSentenceBoundary` and `File::findParagraphBoundary`: backward
    scans for the last place before a limit where a text may be cut. */
module TextBoundary {
  import opened Text

  // --------------------------------------------------------------- characters

  predicate IsTerminator(c: QChar) {
    c == 0x2E || c == 0x21 || c == 0x3F || c == 0x3B  // . ! ? ;
  }

  predicate IsCloser(c: QChar) {
    c == 0x22 || c == 0x27 || c == 0x29 || c == 0x5D  // " ' ) ]
  }

  /** White space, as `QChar::isSpace` defines it. */
  predicate IsSpace(c: QChar) {
    || TAB <= c <= CR || c == 0x20 || c == 0x85 || c == 0xA0 || c == 0x1680
    || 0x2000 <= c <= 0x200A || c == 0x2028 || c == 0x2029 || c == 0x202F || c == 0x205F || c == 0x3000
  }

  // -------------------------------------------------------- what a boundary is

  /** The terminator at `i` ends a sentence, and the next one begins at `b`:
      directly at the end of the text, after one space, or after a closing quote
      or bracket and a space. */
  predicate SentenceEnd(text: QString, i: int, b: int) {
    && 0 <= i < |text|
    && IsTerminator(text[i])
    && (|| (b == i + 1 && b == |text|)
        || (b == i + 2 && b <= |text| && IsSpace(text[i + 1]))
        || (b == i + 3 && b <= |text| && IsCloser(text[i + 1]) && IsSpace(text[i + 2])))
  }

  /** A blank line starts at `i` and ends before `b`, in one of three spellings. */
  predicate BlankLine(text: QString, i: int, b: int) {
    && 0 <= i < b <= |text|
    && (|| text[i..b] == [CR, LF, CR, LF]
        || text[i..b] == [LF, LF]
        || text[i..b] == [LF, CR, LF])
  }

  /** `r` is the greatest boundary whose mark lies strictly between `start` and
      `limit`, or `end` if there is none. */
  ghost predicate LastCut(mark: (int, int) -> bool, start: int, limit: int, end: int, r: int) {
    && (forall i, b :: start < i < limit && mark(i, b) ==> b <= r)
    && ((exists i :: start < i < limit && mark(i, r)) || (r == end && forall i, b :: start < i < limit ==> !mark(i, b)))
  }

  ghost predicate LastSentenceCut(text: QString, start: int, end: int, r: int) {
    LastCut((i, b) => SentenceEnd(text, i, b), start, ToInt32(end - 1) + 1, end, r)
  }

  ghost predicate LastParagraphCut(text: QString, start: int, end: int, r: int) {
    LastCut((i, b) => BlankLine(text, i, b), start, ToInt32(end - 1) + 1, end, r)
  }

  // ------------------------------------------ a later mark never ends earlier

  /** What `isSpace` accepts, one by one. */
  const SPACES: set<QChar> := {
    9, 10, 11, 12, 13, 32, 133, 160, 5760, 8192, 8193, 8194, 8195, 8196, 8197, 8198, 8199, 8200, 8201, 8202,
    8232, 8233, 8239, 8287, 12288}

  /** A sentence ends in one of `.` `!` `?` `;` at the very end of the text, or before a
      space, or before one of `"` `'` `)` `]` and a space; and in no other way. */
  lemma SentenceEndSpelled(text: QString, i: int, b: int)
    ensures SentenceEnd(text, i, b) <==>
         && 0 <= i < b <= |text|
         && text[i] in {46, 33, 63, 59}
         && (|| (b == i + 1 && i == |text| - 1)
             || (b == i + 2 && text[i + 1] in SPACES)
             || (b == i + 3 && text[i + 1] in {34, 39, 41, 93} && text[i + 2] in SPACES))
  {
    if 0 <= i < b <= |text| {
      if b >= i + 2 {
        SpacesAre(text[i + 1]);
      }
      if b >= i + 3 {
        SpacesAre(text[i + 2]);
      }
    }
  }

  lemma SpacesAre(c: QChar)
    ensures IsSpace(c) <==> c in SPACES
  {
  }

  lemma SentenceEndsOrdered(text: QString, i: int, b: int, j: int, c: int)
    requires i < j && SentenceEnd(text, i, b) && SentenceEnd(text, j, c)
    ensures b < c
  {
  }

  /** The three spellings, character by character. */
  lemma BlankLineSpelled(text: QString, i: int, b: int)
    ensures BlankLine(text, i, b) <==>
         && 0 <= i
         && (|| (b == i + 4 <= |text| && text[i] == CR && text[i + 1] == LF && text[i + 2] == CR && text[i + 3] == LF)
             || (b == i + 2 <= |text| && text[i] == LF && text[i + 1] == LF)
             || (b == i + 3 <= |text| && text[i] == LF && text[i + 1] == CR && text[i + 2] == LF))
  {
    if 0 <= i < b <= |text| {
      var s := text[i..b];
      assert forall k :: 0 <= k < |s| ==> s[k] == text[i + k];
      if |s| == 4 && s[0] == CR && s[1] == LF && s[2] == CR && s[3] == LF {
        assert s == [CR, LF, CR, LF];
      }
      if |s| == 2 && s[0] == LF && s[1] == LF {
        assert s == [LF, LF];
      }
      if |s| == 3 && s[0] == LF && s[1] == CR && s[2] == LF {
        assert s == [LF, CR, LF];
      }
    }
  }

  lemma BlankLinesOrdered(text: QString, i: int, b: int, j: int, c: int)
    requires i < j && BlankLine(text, i, b) && BlankLine(text, j, c)
    ensures b <= c
  {
    BlankLineSpelled(text, i, b);
    BlankLineSpelled(text, j, c);
  }

  // ------------------------------------------------------------------ the scans

  method FindSentenceBoundary(text: QString, start: int, end: int) returns (r: int)
    requires -1 <= start && 0 <= end <= |text|
    ensures LastSentenceCut(text, start, end, r)
    ensures start < end ==> start < r <= Min(end + 2, |text|)
  {
    ghost var mark := (i, b) => SentenceEnd(text, i, b);
    var i := ToInt32(end - 1);
    while i > start
      invariant i <= ToInt32(end - 1)
      invariant forall j, b :: i < j < ToInt32(end - 1) + 1 ==> !mark(j, b)
    {
      var ch := text[i];
      forall j, b, c | j < i && mark(j, b) && mark(i, c)
        ensures b <= c
      {
        SentenceEndsOrdered(text, j, b, i, c);
      }
      if IsTerminator(ch) {
        if i + 1 < |text| {
          if IsSpace(text[i + 1]) {
            assert mark(i, i + 2);
            return i + 2;
          }
          if IsCloser(text[i + 1]) {
            if i + 2 < |text| && IsSpace(text[i + 2]) {
              assert mark(i, i + 3);
              return i + 3;
            }
          }
        }
        if i + 1 == |text| {
          assert mark(i, i + 1);
          return i + 1;
        }
      }
      i := i - 1;
    }
    r := end;
  }

  method FindParagraphBoundary(text: QString, start: int, end: int) returns (r: int)
    requires -1 <= start && 0 <= end
    ensures LastParagraphCut(text, start, end, r)
    ensures start < end ==> start < r <= end + 3
    ensures end <= |text| ==> r <= |text|
  {
    ghost var mark := (i, b) => BlankLine(text, i, b);
    var i := ToInt32(end - 1);
    while i > start
      invariant i <= ToInt32(end - 1)
      invariant forall j, b :: i < j < ToInt32(end - 1) + 1 ==> !mark(j, b)
    {
      forall b
        ensures mark(i, b) <==>
             || (b == i + 4 <= |text| && text[i] == CR && text[i + 1] == LF && text[i + 2] == CR && text[i + 3] == LF)
             || (b == i + 2 <= |text| && text[i] == LF && text[i + 1] == LF)
             || (b == i + 3 <= |text| && text[i] == LF && text[i + 1] == CR && text[i + 2] == LF)
      {
        BlankLineSpelled(text, i, b);
      }
      forall j, b, c | j < i && mark(j, b) && mark(i, c)
        ensures b <= c
      {
        BlankLinesOrdered(text, j, b, i, c);
      }
      if i + 3 < |text| && text[i] == CR && text[i + 1] == LF && text[i + 2] == CR && text[i + 3] == LF {
        assert mark(i, i + 4);
        return i + 4;
      }
      if i + 1 < |text| && text[i] == LF && text[i + 1] == LF {
        assert mark(i, i + 2);
        return i + 2;
      }
      if i + 2 < |text| && text[i] == LF && text[i + 1] == CR && text[i + 2] == LF {
        assert mark(i, i + 3);
        return i + 3;
      }
      i := i - 1;
    }
    r := end;
  }

  // ------------------------------------------------------------ repeated calls

  /** The boundary is determined: there is only one last cut. */
  lemma LastCutUnique(mark: (int, int) -> bool, start: int, limit: int, end: int, r: int, s: int)
    requires LastCut(mark, start, limit, end, r) && LastCut(mark, start, limit, end, s)
    ensures r == s
  {
    if exists i :: start < i < limit && mark(i, r) {
      var i :| start < i < limit && mark(i, r);
      assert r <= s;
      if exists j :: start < j < limit && mark(j, s) {
        var j :| start < j < limit && mark(j, s);
      }
    }
  }

  lemma SentenceCutRange(text: QString, start: int, end: int, r: int)
    requires -1 <= start < end <= |text| && LastSentenceCut(text, start, end, r)
    ensures start < r <= Min(end + 2, |text|)
  {
    var mark := (i, b) => SentenceEnd(text, i, b);
    if exists i :: start < i < ToInt32(end - 1) + 1 && mark(i, r) {
      var i :| start < i < ToInt32(end - 1) + 1 && mark(i, r);
      assert SentenceEnd(text, i, r);
    }
  }

  lemma ParagraphCutRange(text: QString, start: int, end: int, r: int)
    requires -1 <= start < end <= |text| && LastParagraphCut(text, start, end, r)
    ensures start < r <= Min(end + 3, |text|)
  {
    var mark := (i, b) => BlankLine(text, i, b);
    if exists i :: start < i < ToInt32(end - 1) + 1 && mark(i, r) {
      var i :| start < i < ToInt32(end - 1) + 1 && mark(i, r);
      BlankLineSpelled(text, i, r);
    }
  }

  /** Every position follows from the one before by `step`, from the start of
      the text on. */
  ghost predicate IsRun(step: (int, int) -> bool, cuts: seq<int>) {
    && cuts != [] && cuts[0] == 0
    && forall j, k :: 0 <= j < k < |cuts| && k == j + 1 ==> step(cuts[j], cuts[k])
  }

  /** One more search with a window of `n` characters, from the last boundary on. */
  ghost predicate SentenceStep(text: QString, n: nat, p: int, q: int) {
    0 <= p < |text| && LastSentenceCut(text, p, Min(p + n, |text|), q)
  }

  ghost predicate ParagraphStep(text: QString, n: nat, p: int, q: int) {
    0 <= p < |text| && LastParagraphCut(text, p, Min(p + n, |text|), q)
  }

  /** A step forward by 1 to `most` characters within a text. */
  predicate Forward(text: QString, most: nat, p: int, q: int) {
    0 <= p < q <= Min(p + most, |text|)
  }

  function Slice(text: QString, p: int, q: int): QString {
    if 0 <= p <= q <= |text| then text[p..q] else []
  }

  /** The pieces between consecutive positions. */
  function Pieces(text: QString, cuts: seq<int>): seq<QString> {
    if |cuts| <= 1 then []
    else Pieces(text, cuts[..|cuts| - 1]) + [Slice(text, cuts[|cuts| - 2], cuts[|cuts| - 1])]
  }

  lemma RunSnoc(step: (int, int) -> bool, cuts: seq<int>, next: int)
    requires IsRun(step, cuts) && step(cuts[|cuts| - 1], next)
    ensures IsRun(step, cuts + [next])
  {
  }

  lemma {:induction false} ForwardRunPartitions(text: QString, most: nat, cuts: seq<int>)
    requires IsRun((p, q) => Forward(text, most, p, q), cuts)
    ensures |cuts| - 1 <= cuts[|cuts| - 1] <= |text|
    ensures Concat(Pieces(text, cuts)) == text[..cuts[|cuts| - 1]]
  {
    if |cuts| == 1 {
    } else {
      var before := cuts[..|cuts| - 1];
      var p, q := cuts[|cuts| - 2], cuts[|cuts| - 1];
      ForwardRunPartitions(text, most, before);
      assert Forward(text, most, p, q);
      ConcatSnoc(Pieces(text, before), text[p..q]);
      assert text[..p] + text[p..q] == text[..q];
    }
  }

  lemma {:induction false} PieceSizes(text: QString, most: nat, cuts: seq<int>)
    requires IsRun((p, q) => Forward(text, most, p, q), cuts)
    ensures forall piece :: piece in Pieces(text, cuts) ==> 1 <= |piece| <= most
  {
    if |cuts| == 1 {
    } else {
      PieceSizes(text, most, cuts[..|cuts| - 1]);
      assert Forward(text, most, cuts[|cuts| - 2], cuts[|cuts| - 1]);
    }
  }

  /** Repeated sentence searches always make progress: with windows of at least
      one character there are at most as many calls as characters, every piece
      has 1 to n + 2 characters, and the pieces are the text up to the last
      boundary. */
  lemma SentenceRunPartitions(text: QString, n: nat, cuts: seq<int>)
    requires n >= 1 && IsRun((p, q) => SentenceStep(text, n, p, q), cuts)
    ensures IsRun((p, q) => Forward(text, n + 2, p, q), cuts)
    ensures |cuts| - 1 <= cuts[|cuts| - 1] <= |text|
    ensures Concat(Pieces(text, cuts)) == text[..cuts[|cuts| - 1]]
  {
    forall j, k | 0 <= j < k < |cuts| && k == j + 1
      ensures Forward(text, n + 2, cuts[j], cuts[k])
    {
      assert SentenceStep(text, n, cuts[j], cuts[k]);
      SentenceCutRange(text, cuts[j], Min(cuts[j] + n, |text|), cuts[k]);
    }
    ForwardRunPartitions(text, n + 2, cuts);
  }

  /** Repeated paragraph searches do the same, with pieces of at most n + 3. */
  lemma ParagraphRunPartitions(text: QString, n: nat, cuts: seq<int>)
    requires n >= 1 && IsRun((p, q) => ParagraphStep(text, n, p, q), cuts)
    ensures IsRun((p, q) => Forward(text, n + 3, p, q), cuts)
    ensures |cuts| - 1 <= cuts[|cuts| - 1] <= |text|
    ensures Concat(Pieces(text, cuts)) == text[..cuts[|cuts| - 1]]
  {
    forall j, k | 0 <= j < k < |cuts| && k == j + 1
      ensures Forward(text, n + 3, cuts[j], cuts[k])
    {
      assert ParagraphStep(text, n, cuts[j], cuts[k]);
      ParagraphCutRange(text, cuts[j], Min(cuts[j] + n, |text|), cuts[k]);
    }
    ForwardRunPartitions(text, n + 3, cuts);
  }

  /** A client that searches again and again: it always reaches the end of the text,
      and the sentences it cuts are the text. */
  method CutSentences(text: QString, n: nat) returns (cuts: seq<int>)
    requires n >= 1
    ensures IsRun((p, q) => SentenceStep(text, n, p, q), cuts)
    ensures cuts[|cuts| - 1] == |text|
    ensures Concat(Pieces(text, cuts)) == text
    ensures forall piece :: piece in Pieces(text, cuts) ==> 1 <= |piece| <= n + 2
  {
    cuts := [0];
    while cuts[|cuts| - 1] < |text|
      invariant IsRun((p, q) => SentenceStep(text, n, p, q), cuts)
      invariant 0 <= cuts[|cuts| - 1] <= |text|
      decreases |text| - cuts[|cuts| - 1]
    {
      var p := cuts[|cuts| - 1];
      var q := FindSentenceBoundary(text, p, Min(p + n, |text|));
      assert SentenceStep(text, n, p, q);
      RunSnoc((p, q) => SentenceStep(text, n, p, q), cuts, q);
      cuts := cuts + [q];
    }
    SentenceRunPartitions(text, n, cuts);
    PieceSizes(text, n + 2, cuts);
    assert text[..|text|] == text;
  }

  /** The same for paragraphs. */
  method CutParagraphs(text: QString, n: nat) returns (cuts: seq<int>)
    requires n >= 1
    ensures IsRun((p, q) => ParagraphStep(text, n, p, q), cuts)
    ensures cuts[|cuts| - 1] == |text|
    ensures Concat(Pieces(text, cuts)) == text
    ensures forall piece :: piece in Pieces(text, cuts) ==> 1 <= |piece| <= n + 3
  {
    cuts := [0];
    while cuts[|cuts| - 1] < |text|
      invariant IsRun((p, q) => ParagraphStep(text, n, p, q), cuts)
      invariant 0 <= cuts[|cuts| - 1] <= |text|
      decreases |text| - cuts[|cuts| - 1]
    {
      var p := cuts[|cuts| - 1];
      var q := FindParagraphBoundary(text, p, Min(p + n, |text|));
      assert ParagraphStep(text, n, p, q);
      RunSnoc((p, q) => ParagraphStep(text, n, p, q), cuts, q);
      cuts := cuts + [q];
    }
    ParagraphRunPartitions(text, n, cuts);
    PieceSizes(text, n + 3, cuts);
    assert text[..|text|] == text;
  }

  // --------------------------------------------------------------- the window

  /** What the search answers, in a window that the counter covers: the end of some
      sentence whose terminator lies strictly inside, and no such sentence ends later; or
      the end of the window, if there is none, whatever stands at `start` or before. */
  lemma SentenceCutMeans(text: QString, start: int, end: int, r: int)
    requires -1 <= start && 0 <= end <= 0x8000_0000 && LastSentenceCut(text, start, end, r)
    ensures forall i, b :: start < i < end && SentenceEnd(text, i, b) ==> b <= r
    ensures (exists i, b :: start < i < end && SentenceEnd(text, i, b)) ==>
      exists i :: start < i < end && SentenceEnd(text, i, r)
    ensures (forall i, b :: start < i < end ==> !SentenceEnd(text, i, b)) ==> r == end
  {
    assert ToInt32(end - 1) + 1 == end;
    var mark := (i, b) => SentenceEnd(text, i, b);
    assert LastCut(mark, start, end, end, r);
    assert forall i, b :: mark(i, b) == SentenceEnd(text, i, b);
  }

  /** The same for blank lines. */
  lemma ParagraphCutMeans(text: QString, start: int, end: int, r: int)
    requires -1 <= start && 0 <= end <= 0x8000_0000 && LastParagraphCut(text, start, end, r)
    ensures forall i, b :: start < i < end && BlankLine(text, i, b) ==> b <= r
    ensures (exists i, b :: start < i < end && BlankLine(text, i, b)) ==>
      exists i :: start < i < end && BlankLine(text, i, r)
    ensures (forall i, b :: start < i < end ==> !BlankLine(text, i, b)) ==> r == end
  {
    assert ToInt32(end - 1) + 1 == end;
    var mark := (i, b) => BlankLine(text, i, b);
    assert LastCut(mark, start, end, end, r);
    assert forall i, b :: mark(i, b) == BlankLine(text, i, b);
  }

  // ------------------------------------------------------------- counter width

  /** A position at `i`, and `ahead` more, is an `int`. */
  predicate FitsInt(i: int, ahead: nat) {
    -0x8000_0000 <= i && i + ahead < 0x8000_0000
  }

  /** The positions the search computes are `int`s: the counter, and up to `ahead`
      more. They all fit, and the counter covers the whole window, if and only if the
      window ends at least `ahead` characters below 2^31. Sentences look and end up to
      three characters ahead, paragraphs up to four. */
  lemma CounterWidth(end: int, ahead: nat)
    requires 0 <= end <= 0x1_0000_0000 && ahead <= 0x8000_0000
    ensures (ToInt32(end - 1) + 1 == end && forall i :: 0 <= i < end ==> FitsInt(i, ahead))
       <==> end <= 0x8000_0000 - ahead
  {
    if end > 0x8000_0000 - ahead && ToInt32(end - 1) + 1 == end {
      assert !FitsInt(end - 1, ahead);
    }
  }

  /** Beyond 2^31 the converted position is negative, nothing is looked at, and the
      answer is `end` whatever the text holds. */
  lemma NothingSearched(text: QString, start: int, end: int, r: int)
    requires -1 <= start && 0x8000_0000 < end <= |text| && end <= 0x1_0000_0000
    requires LastSentenceCut(text, start, end, r) || LastParagraphCut(text, start, end, r)
    ensures r == end
  {
    assert ToInt32(end - 1) < 0;
  }
}
