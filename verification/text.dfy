/** Text as the library sees it: a sequence of UTF-16 code units. */
module Text {
  newtype QChar = c: int | 0 <= c < 0x1_0000

  type QString = seq<QChar>

  const TAB: QChar := 0x09
  const LF: QChar := 0x0A
  const CR: QChar := 0x0D

  /** The conversion of a 64-bit position to the `int` of a loop counter. */
  function ToInt32(n: int): (i: int)
    ensures -0x8000_0000 <= i < 0x8000_0000
    ensures n < 0x8000_0000 && n >= -0x8000_0000 ==> i == n
    ensures n >= -1 ==> i <= n
  {
    (n + 0x8000_0000) % 0x1_0000_0000 - 0x8000_0000
  }

  function Min(a: int, b: int): int {
    if a <= b then a else b
  }

  function Concat<T>(pieces: seq<seq<T>>): seq<T> {
    if pieces == [] then [] else pieces[0] + Concat(pieces[1..])
  }

  lemma {:induction false} ConcatSnoc<T>(pieces: seq<seq<T>>, last: seq<T>)
    ensures Concat(pieces + [last]) == Concat(pieces) + last
  {
    if pieces == [] {
      assert pieces + [last] == [last];
      assert [last][1..] == [];
    } else {
      assert (pieces + [last])[1..] == pieces[1..] + [last];
      ConcatSnoc(pieces[1..], last);
    }
  }
}
