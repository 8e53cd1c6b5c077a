/** Messages as bit sequences: the order in which the CRC register sees them,
    every byte low bit first. */
module BitStream {
  type Bytes = seq<bv8>
  type Bits = seq<bool>

  predicate Test(b: bv8, mask: bv8) {
    b & mask != 0
  }

  function ByteBits(b: bv8): (s: Bits)
    ensures |s| == 8
  {
    [Test(b, 0x01), Test(b, 0x02), Test(b, 0x04), Test(b, 0x08),
     Test(b, 0x10), Test(b, 0x20), Test(b, 0x40), Test(b, 0x80)]
  }

  function MessageBits(m: Bytes): (s: Bits)
    ensures |s| == 8 * |m|
  {
    if m == [] then [] else ByteBits(m[0]) + MessageBits(m[1..])
  }

  function XorBits(s: Bits, t: Bits): (u: Bits)
    requires |s| == |t|
    ensures |u| == |s|
  {
    seq(|s|, i requires 0 <= i < |s| => s[i] != t[i])
  }

  function XorByte(x: bv8, y: bv8): bv8 {
    x ^ y
  }

  function XorBytes(a: Bytes, b: Bytes): (x: Bytes)
    requires |a| == |b|
    ensures |x| == |a|
  {
    seq(|a|, i requires 0 <= i < |a| => XorByte(a[i], b[i]))
  }

  /** The number of positions at which two bit sequences differ. */
  function Distance(s: Bits, t: Bits): nat
    requires |s| == |t|
  {
    if s == [] then 0 else (if s[0] != t[0] then 1 else 0) + Distance(s[1..], t[1..])
  }

  /** `s` and `t` agree outside the `w` bits that start at `p`. */
  predicate AgreeOutside(s: Bits, t: Bits, p: nat, w: nat)
    requires |s| == |t|
  {
    forall i :: 0 <= i < |s| && !(p <= i < p + w) ==> s[i] == t[i]
  }

  lemma AppendAssociative<T>(s: seq<T>, t: seq<T>, u: seq<T>)
    ensures (s + t) + u == s + (t + u)
  {
  }

  lemma NextByte(m: Bytes, i: nat)
    requires i < |m|
    ensures m[..i + 1] == m[..i] + [m[i]]
  {
  }

  lemma SplitAt(s: Bits, p: nat, q: nat)
    requires p <= q <= |s|
    ensures s == s[..p] + (s[p..q] + s[q..])
  {
  }

  lemma XorBitsAppend(s: Bits, t: Bits, u: Bits, v: Bits)
    requires |s| == |t| && |u| == |v|
    ensures XorBits(s + u, t + v) == XorBits(s, t) + XorBits(u, v)
  {
  }

  lemma {:induction false} MessageBitsAppend(a: Bytes, b: Bytes)
    ensures MessageBits(a + b) == MessageBits(a) + MessageBits(b)
  {
    if a == [] {
      assert a + b == b;
    } else {
      assert (a + b)[1..] == a[1..] + b;
      MessageBitsAppend(a[1..], b);
      AppendAssociative(ByteBits(a[0]), MessageBits(a[1..]), MessageBits(b));
    }
  }

  lemma ByteBitsInjective(x: bv8, y: bv8)
    requires ByteBits(x) == ByteBits(y)
    ensures x == y
  {
  }

  lemma {:induction false} MessageBitsInjective(a: Bytes, b: Bytes)
    requires MessageBits(a) == MessageBits(b)
    ensures a == b
  {
    assert 8 * |a| == 8 * |b|;
    if a == [] {
    } else {
      var s, t := MessageBits(a), MessageBits(b);
      assert ByteBits(a[0]) == s[..8] && ByteBits(b[0]) == t[..8];
      assert MessageBits(a[1..]) == s[8..] && MessageBits(b[1..]) == t[8..];
      ByteBitsInjective(a[0], b[0]);
      MessageBitsInjective(a[1..], b[1..]);
    }
  }

  lemma TestXor(x: bv8, y: bv8)
    ensures Test(XorByte(x, y), 0x01) == (Test(x, 0x01) != Test(y, 0x01))
    ensures Test(XorByte(x, y), 0x02) == (Test(x, 0x02) != Test(y, 0x02))
    ensures Test(XorByte(x, y), 0x04) == (Test(x, 0x04) != Test(y, 0x04))
    ensures Test(XorByte(x, y), 0x08) == (Test(x, 0x08) != Test(y, 0x08))
    ensures Test(XorByte(x, y), 0x10) == (Test(x, 0x10) != Test(y, 0x10))
    ensures Test(XorByte(x, y), 0x20) == (Test(x, 0x20) != Test(y, 0x20))
    ensures Test(XorByte(x, y), 0x40) == (Test(x, 0x40) != Test(y, 0x40))
    ensures Test(XorByte(x, y), 0x80) == (Test(x, 0x80) != Test(y, 0x80))
  {
  }

  lemma EightPointwise(s: Bits, t: Bits, u: Bits)
    requires |s| == |t| == |u| == 8
    requires u[0] == (s[0] != t[0]) && u[1] == (s[1] != t[1]) && u[2] == (s[2] != t[2]) && u[3] == (s[3] != t[3])
    requires u[4] == (s[4] != t[4]) && u[5] == (s[5] != t[5]) && u[6] == (s[6] != t[6]) && u[7] == (s[7] != t[7])
    ensures u == XorBits(s, t)
  {
    forall i | 0 <= i < 8
      ensures u[i] == (s[i] != t[i])
    {
      assert i == 0 || i == 1 || i == 2 || i == 3 || i == 4 || i == 5 || i == 6 || i == 7;
    }
  }

  lemma ByteBitsAre(b: bv8)
    ensures ByteBits(b)[0] == Test(b, 0x01)
    ensures ByteBits(b)[1] == Test(b, 0x02)
    ensures ByteBits(b)[2] == Test(b, 0x04)
    ensures ByteBits(b)[3] == Test(b, 0x08)
    ensures ByteBits(b)[4] == Test(b, 0x10)
    ensures ByteBits(b)[5] == Test(b, 0x20)
    ensures ByteBits(b)[6] == Test(b, 0x40)
    ensures ByteBits(b)[7] == Test(b, 0x80)
  {
  }

  lemma ByteBitsXor(x: bv8, y: bv8, z: bv8)
    requires z == XorByte(x, y)
    ensures ByteBits(z) == XorBits(ByteBits(x), ByteBits(y))
  {
    TestXor(x, y);
    ByteBitsAre(x);
    ByteBitsAre(y);
    ByteBitsAre(z);
    EightPointwise(ByteBits(x), ByteBits(y), ByteBits(z));
  }

  lemma MessageBitsFirst(m: Bytes, b: bv8, rest: Bytes)
    requires m != [] && m[0] == b && m[1..] == rest
    ensures MessageBits(m) == ByteBits(b) + MessageBits(rest)
  {
  }

  lemma {:induction false} MessageBitsXor(a: Bytes, b: Bytes)
    requires |a| == |b|
    ensures MessageBits(XorBytes(a, b)) == XorBits(MessageBits(a), MessageBits(b))
  {
    if a == [] {
    } else {
      var x := XorBytes(a, b);
      var rest := XorBytes(a[1..], b[1..]);
      assert x[1..] == rest;
      MessageBitsFirst(x, x[0], rest);
      MessageBitsXor(a[1..], b[1..]);
      ByteBitsXor(a[0], b[0], x[0]);
      XorBitsAppend(ByteBits(a[0]), ByteBits(b[0]), MessageBits(a[1..]), MessageBits(b[1..]));
    }
  }
}
