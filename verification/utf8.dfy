/** UTF-8 of UTF-16 text, as `QString::toUtf8` produces it: section 3 of RFC 3629
    for every code point, and a question mark for a surrogate without partner. */
module Utf8 {
  import opened Octets
  import opened Text

  predicate IsHigh(c: QChar) {
    0xD800 <= c < 0xDC00
  }

  predicate IsLow(c: QChar) {
    0xDC00 <= c < 0xE000
  }

  predicate StartsWithPair(text: QString) {
    |text| >= 2 && IsHigh(text[0]) && IsLow(text[1])
  }

  function EncodeUnit(c: QChar): Bytes {
    var n := c as int;
    if n < 0x80 then [n as Byte]
    else if n < 0x800 then [(0xC0 + n / 0x40) as Byte, (0x80 + n % 0x40) as Byte]
    else if IsHigh(c) || IsLow(c) then [0x3F]
    else [(0xE0 + n / 0x1000) as Byte, (0x80 + n / 0x40 % 0x40) as Byte, (0x80 + n % 0x40) as Byte]
  }

  function CodePoint(high: QChar, low: QChar): (n: int)
    requires IsHigh(high) && IsLow(low)
    ensures 0x1_0000 <= n < 0x11_0000
  {
    0x1_0000 + (high as int - 0xD800) * 0x400 + (low as int - 0xDC00)
  }

  function EncodePair(high: QChar, low: QChar): Bytes
    requires IsHigh(high) && IsLow(low)
  {
    var n := CodePoint(high, low);
    [(0xF0 + n / 0x4_0000) as Byte, (0x80 + n / 0x1000 % 0x40) as Byte,
     (0x80 + n / 0x40 % 0x40) as Byte, (0x80 + n % 0x40) as Byte]
  }

  function Encode(text: QString): Bytes {
    if text == [] then []
    else if StartsWithPair(text) then EncodePair(text[0], text[1]) + Encode(text[2..])
    else EncodeUnit(text[0]) + Encode(text[1..])
  }

  // ----------------------------------------------------------------- splitting

  /** A surrogate pair is cut in two between `a` and `b`. */
  predicate SplitsPair(a: QString, b: QString) {
    a != [] && b != [] && IsHigh(a[|a| - 1]) && IsLow(b[0])
  }

  /** Encoding the parts of a text gives the encoding of the whole exactly when no
      surrogate pair is cut; a cut pair makes the whole two bytes longer. */
  lemma {:induction false} EncodeSplit(a: QString, b: QString)
    ensures Encode(a + b) == Encode(a) + Encode(b) <==> !SplitsPair(a, b)
    ensures |Encode(a + b)| == |Encode(a)| + |Encode(b)| + (if SplitsPair(a, b) then 2 else 0)
  {
    if a == [] {
      assert a + b == b;
    } else if StartsWithPair(a) {
      assert (a + b)[2..] == a[2..] + b;
      EncodeSplit(a[2..], b);
      Prepend(EncodePair(a[0], a[1]), Encode(a[2..]), Encode(b), Encode(a[2..] + b));
    } else if |a| == 1 && SplitsPair(a, b) {
      assert (a + b)[2..] == b[1..];
      assert a[1..] == [];
    } else {
      assert (a + b)[1..] == a[1..] + b;
      EncodeSplit(a[1..], b);
      Prepend(EncodeUnit(a[0]), Encode(a[1..]), Encode(b), Encode(a[1..] + b));
    }
  }

  lemma Prepend(u: Bytes, v: Bytes, w: Bytes, x: Bytes)
    ensures u + x == (u + v) + w <==> x == v + w
  {
    assert (u + v) + w == u + (v + w);
    assert u + x == u + (v + w) ==> (u + x)[|u|..] == (u + (v + w))[|u|..];
  }

  lemma EncodeNonEmpty(text: QString)
    requires text != []
    ensures Encode(text) != []
  {
  }

  // ------------------------------------------------------------------ decoding

  /** Every surrogate is part of a pair. */
  predicate WellFormed(text: QString) {
    text == [] ||
    (if StartsWithPair(text) then WellFormed(text[2..])
     else !IsHigh(text[0]) && !IsLow(text[0]) && WellFormed(text[1..]))
  }

  function Unit(n: int): QString {
    if 0 <= n < 0x1_0000 then [n as QChar] else []
  }

  function Pair(n: int): QString {
    if 0x1_0000 <= n < 0x11_0000 then
      [(0xD800 + (n - 0x1_0000) / 0x400) as QChar, (0xDC00 + (n - 0x1_0000) % 0x400) as QChar]
    else []
  }

  /** The text that a byte sequence stands for, by the length that each leading
      byte announces. */
  function Decode(s: Bytes): QString {
    if s == [] then []
    else
      var b0 := s[0] as int;
      if b0 < 0x80 then Unit(b0) + Decode(s[1..])
      else if b0 < 0xE0 then
        if |s| < 2 then [] else Unit((b0 - 0xC0) * 0x40 + (s[1] as int - 0x80)) + Decode(s[2..])
      else if b0 < 0xF0 then
        if |s| < 3 then []
        else Unit((b0 - 0xE0) * 0x1000 + (s[1] as int - 0x80) * 0x40 + (s[2] as int - 0x80)) + Decode(s[3..])
      else
        if |s| < 4 then []
        else Pair((b0 - 0xF0) * 0x4_0000 + (s[1] as int - 0x80) * 0x1000 + (s[2] as int - 0x80) * 0x40
                  + (s[3] as int - 0x80)) + Decode(s[4..])
  }

  lemma DecodeOne(b0: Byte, rest: Bytes)
    requires b0 < 0x80
    ensures Decode([b0] + rest) == Unit(b0 as int) + Decode(rest)
  {
    var s := [b0] + rest;
    assert s[1..] == rest;
  }

  lemma DecodeTwo(b0: Byte, b1: Byte, rest: Bytes)
    requires 0x80 <= b0 < 0xE0
    ensures Decode([b0, b1] + rest) == Unit((b0 as int - 0xC0) * 0x40 + (b1 as int - 0x80)) + Decode(rest)
  {
    var s := [b0, b1] + rest;
    assert s[2..] == rest;
  }

  lemma DecodeThree(b0: Byte, b1: Byte, b2: Byte, rest: Bytes)
    requires 0xE0 <= b0 < 0xF0
    ensures Decode([b0, b1, b2] + rest)
         == Unit((b0 as int - 0xE0) * 0x1000 + (b1 as int - 0x80) * 0x40 + (b2 as int - 0x80)) + Decode(rest)
  {
    var s := [b0, b1, b2] + rest;
    assert s[3..] == rest;
  }

  lemma DecodeUnit(c: QChar, rest: Bytes)
    requires !IsHigh(c) && !IsLow(c)
    ensures Decode(EncodeUnit(c) + rest) == [c] + Decode(rest)
  {
    var n := c as int;
    var s := EncodeUnit(c);
    if n < 0x80 {
      DecodeOne(s[0], rest);
    } else if n < 0x800 {
      DecodeTwo(s[0], s[1], rest);
    } else {
      SixBitDigits(n);
      DecodeThree(s[0], s[1], s[2], rest);
    }
  }

  lemma SixBitDigits(n: int)
    ensures n / 0x4_0000 * 0x4_0000 + n / 0x1000 % 0x40 * 0x1000 + n / 0x40 % 0x40 * 0x40 + n % 0x40 == n
  {
    var m := n / 0x40;
    assert n == 0x40 * m + n % 0x40;
    assert n / 0x1000 == m / 0x40 && n / 0x4_0000 == m / 0x1000;
    assert m == 0x40 * (m / 0x40) + m % 0x40;
    assert m / 0x1000 == m / 0x40 / 0x40;
  }

  lemma PairOfCodePoint(high: QChar, low: QChar)
    requires IsHigh(high) && IsLow(low)
    ensures Pair(CodePoint(high, low)) == [high, low]
  {
  }

  lemma DecodeFour(b0: Byte, b1: Byte, b2: Byte, b3: Byte, rest: Bytes)
    requires b0 >= 0xF0
    ensures Decode([b0, b1, b2, b3] + rest)
         == Pair((b0 as int - 0xF0) * 0x4_0000 + (b1 as int - 0x80) * 0x1000 + (b2 as int - 0x80) * 0x40
                 + (b3 as int - 0x80)) + Decode(rest)
  {
    var s := [b0, b1, b2, b3] + rest;
    assert s[4..] == rest;
  }

  lemma DecodePair(high: QChar, low: QChar, rest: Bytes)
    requires IsHigh(high) && IsLow(low)
    ensures Decode(EncodePair(high, low) + rest) == [high, low] + Decode(rest)
  {
    var n := CodePoint(high, low);
    var s := EncodePair(high, low);
    SixBitDigits(n);
    DecodeFour(s[0], s[1], s[2], s[3], rest);
    PairOfCodePoint(high, low);
  }

  /** Encoding loses nothing: well-formed text is recovered from its bytes. */
  lemma {:induction false} DecodeEncode(text: QString)
    requires WellFormed(text)
    ensures Decode(Encode(text)) == text
  {
    if text == [] {
    } else {
      if StartsWithPair(text) {
        DecodeEncode(text[2..]);
        DecodePair(text[0], text[1], Encode(text[2..]));
      } else {
        DecodeEncode(text[1..]);
        DecodeUnit(text[0], Encode(text[1..]));
      }
    }
  }

  // ------------------------------------------------------------ the shortest form

  predicate Continuation(b: Byte) {
    0x80 <= b <= 0xBF
  }

  /** The sequence of bytes that section 4 of RFC 3629 allows at the beginning of `s`:
      how many of them, or none. */
  function FirstLength(s: Bytes): (n: nat)
    ensures n <= |s|
  {
    if |s| >= 1 && s[0] <= 0x7F then 1
    else if |s| >= 2 && 0xC2 <= s[0] <= 0xDF && Continuation(s[1]) then 2
    else if |s| >= 3 && Continuation(s[1]) && Continuation(s[2])
        && (|| (s[0] == 0xE0 && s[1] >= 0xA0)
            || 0xE1 <= s[0] <= 0xEC
            || (s[0] == 0xED && s[1] <= 0x9F)
            || 0xEE <= s[0] <= 0xEF) then 3
    else if |s| >= 4 && Continuation(s[1]) && Continuation(s[2]) && Continuation(s[3])
        && (|| (s[0] == 0xF0 && s[1] >= 0x90)
            || 0xF1 <= s[0] <= 0xF3
            || (s[0] == 0xF4 && s[1] <= 0x8F)) then 4
    else 0
  }

  /** A sequence of bytes in the grammar of RFC 3629. */
  predicate Valid(s: Bytes) {
    s == [] || (FirstLength(s) > 0 && Valid(s[FirstLength(s)..]))
  }

  /** The number that a single allowed sequence stands for, from the payload bits of
      its bytes. */
  predicate Spells(s: Bytes, n: int) {
    && s != [] && FirstLength(s) == |s|
    && n == (if |s| == 1 then s[0] as int
             else if |s| == 2 then s[0] as int % 0x20 * 0x40 + s[1] as int % 0x40
             else if |s| == 3 then
               s[0] as int % 0x10 * 0x1000 + s[1] as int % 0x40 * 0x40 + s[2] as int % 0x40
             else
               s[0] as int % 0x08 * 0x4_0000 + s[1] as int % 0x40 * 0x1000
               + s[2] as int % 0x40 * 0x40 + s[3] as int % 0x40)
  }

  lemma Payload(lead: int, d: int)
    ensures 0 <= d < 0x40 ==> (0x80 + d) % 0x40 == d
    ensures 0 <= lead < 0x20 ==> (0xC0 + lead) % 0x20 == lead
    ensures 0 <= lead < 0x10 ==> (0xE0 + lead) % 0x10 == lead
    ensures 0 <= lead < 0x08 ==> (0xF0 + lead) % 0x08 == lead
  {
  }

  lemma ThreeSpelled(n: int, a: int, b: int, c: int)
    requires n == a * 0x1000 + b * 0x40 + c && 0 <= a < 0x10 && 0 <= b < 0x40 && 0 <= c < 0x40
    requires n >= 0x800 && !(0xD800 <= n < 0xE000)
    ensures Spells([(0xE0 + a) as Byte, (0x80 + b) as Byte, (0x80 + c) as Byte], n)
  {
    Payload(a, b);
    Payload(a, c);
  }

  lemma FourSpelled(n: int, a: int, b: int, c: int, d: int)
    requires n == a * 0x4_0000 + b * 0x1000 + c * 0x40 + d
    requires 0 <= a < 0x08 && 0 <= b < 0x40 && 0 <= c < 0x40 && 0 <= d < 0x40
    requires 0x1_0000 <= n < 0x11_0000
    ensures Spells([(0xF0 + a) as Byte, (0x80 + b) as Byte, (0x80 + c) as Byte, (0x80 + d) as Byte], n)
  {
    Payload(a, b);
    Payload(a, c);
    Payload(a, d);
  }

  lemma UnitSpelled(c: QChar)
    ensures Spells(EncodeUnit(c), if IsHigh(c) || IsLow(c) then 0x3F else c as int)
  {
    var n := c as int;
    if 0x80 <= n < 0x800 {
      Payload(n / 0x40, n % 0x40);
    } else if n >= 0x800 && !IsHigh(c) && !IsLow(c) {
      SixBitDigits(n);
      ThreeSpelled(n, n / 0x1000, n / 0x40 % 0x40, n % 0x40);
    }
  }

  lemma PairSpelled(high: QChar, low: QChar)
    requires IsHigh(high) && IsLow(low)
    ensures Spells(EncodePair(high, low), 0x1_0000 + (high as int - 0xD800) * 0x400 + (low as int - 0xDC00))
  {
    var n := CodePoint(high, low);
    SixBitDigits(n);
    FourSpelled(n, n / 0x4_0000, n / 0x1000 % 0x40, n / 0x40 % 0x40, n % 0x40);
  }

  /** The value, without remainders. */
  lemma SpelledValue(s: Bytes, n: int)
    requires Spells(s, n)
    ensures |s| == 1 ==> n == s[0] as int < 0x80
    ensures |s| == 2 ==> n == (s[0] as int - 0xC0) * 0x40 + (s[1] as int - 0x80) && 0x80 <= n < 0x800
    ensures |s| == 3 ==> n == (s[0] as int - 0xE0) * 0x1000 + (s[1] as int - 0x80) * 0x40 + (s[2] as int - 0x80)
                         && 0x800 <= n < 0x1_0000
    ensures |s| == 4 ==> n == (s[0] as int - 0xF0) * 0x4_0000 + (s[1] as int - 0x80) * 0x1000
                              + (s[2] as int - 0x80) * 0x40 + (s[3] as int - 0x80) && n >= 0x1_0000
  {
    if |s| == 2 {
      Payload(s[0] as int - 0xC0, s[1] as int - 0x80);
    } else if |s| == 3 {
      Payload(s[0] as int - 0xE0, s[1] as int - 0x80);
      Payload(0, s[2] as int - 0x80);
    } else if |s| == 4 {
      Payload(s[0] as int - 0xF0, s[1] as int - 0x80);
      Payload(0, s[2] as int - 0x80);
      Payload(0, s[3] as int - 0x80);
    }
  }

  lemma DigitsUnique(a: int, b: int, c: int, d: int)
    requires 0 <= b < 0x40 && 0 <= d < 0x40 && a * 0x40 + b == c * 0x40 + d
    ensures a == c && b == d
  {
  }

  /** There is only one way to spell a number. */
  lemma OneSpelling(s: Bytes, t: Bytes, n: int)
    requires Spells(s, n) && Spells(t, n)
    ensures s == t
  {
    SpelledValue(s, n);
    SpelledValue(t, n);
    assert |s| == |t|;
    if |s| == 2 {
      DigitsUnique(s[0] as int - 0xC0, s[1] as int - 0x80, t[0] as int - 0xC0, t[1] as int - 0x80);
    } else if |s| == 3 {
      var a := (s[0] as int - 0xE0) * 0x40 + (s[1] as int - 0x80);
      var b := (t[0] as int - 0xE0) * 0x40 + (t[1] as int - 0x80);
      DigitsUnique(a, s[2] as int - 0x80, b, t[2] as int - 0x80);
      DigitsUnique(s[0] as int - 0xE0, s[1] as int - 0x80, t[0] as int - 0xE0, t[1] as int - 0x80);
    } else if |s| == 4 {
      var a := (s[0] as int - 0xF0) * 0x40 + (s[1] as int - 0x80);
      var b := (t[0] as int - 0xF0) * 0x40 + (t[1] as int - 0x80);
      DigitsUnique(a * 0x40 + (s[2] as int - 0x80), s[3] as int - 0x80,
                   b * 0x40 + (t[2] as int - 0x80), t[3] as int - 0x80);
      DigitsUnique(a, s[2] as int - 0x80, b, t[2] as int - 0x80);
      DigitsUnique(s[0] as int - 0xF0, s[1] as int - 0x80, t[0] as int - 0xF0, t[1] as int - 0x80);
    }
  }

  /** The encoding of a text begins with the one spelling of its first character, a
      question mark for a surrogate without partner, and goes on with the rest. */
  lemma EncodeFirst(text: QString, s: Bytes)
    requires text != []
    ensures StartsWithPair(text) && Spells(s, CodePoint(text[0], text[1])) ==> Encode(text) == s + Encode(text[2..])
    ensures !StartsWithPair(text) && Spells(s, if IsHigh(text[0]) || IsLow(text[0]) then 0x3F else text[0] as int) ==>
      Encode(text) == s + Encode(text[1..])
  {
    if StartsWithPair(text) {
      var n := CodePoint(text[0], text[1]);
      PairSpelled(text[0], text[1]);
      if Spells(s, n) {
        OneSpelling(s, EncodePair(text[0], text[1]), n);
      }
    } else {
      var n := if IsHigh(text[0]) || IsLow(text[0]) then 0x3F else text[0] as int;
      UnitSpelled(text[0]);
      if Spells(s, n) {
        OneSpelling(s, EncodeUnit(text[0]), n);
      }
    }
  }

  lemma ValidFront(s: Bytes, n: int, rest: Bytes)
    requires Spells(s, n) && Valid(rest)
    ensures Valid(s + rest)
  {
    assert FirstLength(s + rest) == |s|;
    assert (s + rest)[|s|..] == rest;
  }

  /** Whatever the text, its encoding is in the grammar of RFC 3629: shortest forms only,
      and no surrogates. */
  lemma {:induction false} EncodeValid(text: QString)
    ensures Valid(Encode(text))
  {
    if text == [] {
    } else if StartsWithPair(text) {
      EncodeValid(text[2..]);
      PairSpelled(text[0], text[1]);
      ValidFront(EncodePair(text[0], text[1]), CodePoint(text[0], text[1]), Encode(text[2..]));
    } else {
      EncodeValid(text[1..]);
      UnitSpelled(text[0]);
      var c := text[0];
      ValidFront(EncodeUnit(c), if IsHigh(c) || IsLow(c) then 0x3F else c as int, Encode(text[1..]));
    }
  }

  /** Characters below 0x80 are encoded as themselves. */
  lemma {:induction false} EncodeAscii(text: QString)
    requires forall i :: 0 <= i < |text| ==> text[i] < 0x80
    ensures |Encode(text)| == |text| && forall i :: 0 <= i < |text| ==> Encode(text)[i] as int == text[i] as int
  {
    if text == [] {
    } else {
      EncodeAscii(text[1..]);
      assert Encode(text) == EncodeUnit(text[0]) + Encode(text[1..]);
      forall i | 0 <= i < |text|
        ensures Encode(text)[i] as int == text[i] as int
      {
        if i > 0 {
          assert text[1..][i - 1] == text[i];
        }
      }
    }
  }
}
