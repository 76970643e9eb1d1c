/** The checksum of discovery payloads (udpCRC32 in pkg/baichuan/udp.go). */
module UdpChecksum {
  import opened Bytes

  // ---- a uint32 as its bits, lowest first

  type Word = s: seq<bool> | |s| == 32 witness seq(32, _ => false)

  function Bits(v: nat, n: nat): (s: seq<bool>)
    ensures |s| == n
    decreases n
  {
    if n == 0 then [] else [v % 2 == 1] + Bits(v / 2, n - 1)
  }

  function Value(s: seq<bool>): nat
  {
    if s == [] then 0 else (if s[0] then 1 else 0) + 2 * Value(s[1..])
  }

  lemma {:induction false} ValueOfBits(v: nat, n: nat)
    requires v < Pow2(n)
    ensures Value(Bits(v, n)) == v
    decreases n
  {
    if n > 0 {
      ValueOfBits(v / 2, n - 1);
      assert Bits(v, n)[1..] == Bits(v / 2, n - 1);
    }
  }

  lemma {:induction false} ValueInjective(s: seq<bool>, t: seq<bool>)
    requires |s| == |t| && Value(s) == Value(t)
    ensures s == t
    decreases |s|
  {
    if s != [] {
      ValueInjective(s[1..], t[1..]);
      assert s == [s[0]] + s[1..] && t == [t[0]] + t[1..];
    }
  }

  lemma {:induction false} ValueBound(s: seq<bool>)
    ensures Value(s) < Pow2(|s|)
    decreases |s|
  {
    if s != [] {
      ValueBound(s[1..]);
    }
  }

  lemma Pow2Of32()
    ensures Pow2(8) == 0x100 && Pow2(32) == TWO32
  {
    assert Pow2(8) == 0x100;
    assert Pow2(16) == 0x100 * Pow2(8);
    assert Pow2(24) == 0x100 * Pow2(16);
    assert Pow2(32) == 0x100 * Pow2(24);
  }

  function Zero(n: nat): seq<bool> { seq(n, _ => false) }

  function Xor(a: Word, b: Word): Word { seq(32, i requires 0 <= i < 32 => a[i] != b[i]) }

  function Shr(a: Word, n: nat): Word
    requires n <= 32
  {
    a[n..] + Zero(n)
  }

  /** The bytes of w, lowest first, as a word whose remaining bits are zero. */
  function Wide(w: seq<byte>): Word
    requires |w| <= 4
  {
    ByteBits(w) + Zero(32 - 8 * |w|)
  }

  function ByteBits(w: seq<byte>): (s: seq<bool>)
    ensures |s| == 8 * |w|
  {
    if w == [] then [] else Bits(w[0], 8) + ByteBits(w[1..])
  }

  const POLY_VALUE: nat := 0xEDB88320

  function Poly(): Word { Bits(POLY_VALUE, 32) }

  // ---- the checksum

  function CrcBit(crc: Word): Word
  {
    if crc[0] then Xor(Shr(crc, 1), Poly()) else Shr(crc, 1)
  }

  function CrcBits(crc: Word, n: nat): Word
    decreases n
  {
    if n == 0 then crc else CrcBits(CrcBit(crc), n - 1)
  }

  function CrcByte(crc: Word, b: byte): Word
  {
    CrcBits(Xor(crc, Wide([b])), 8)
  }

  function Crc(crc: Word, buf: seq<byte>): Word
    decreases |buf|
  {
    if buf == [] then crc else Crc(CrcByte(crc, buf[0]), buf[1..])
  }

  function Checksum(buf: seq<byte>): u32
  {
    ValueBound(Crc(Zero(32), buf));
    Pow2Of32();
    Value(Crc(Zero(32), buf))
  }

  /** udpCRC32: the loops over bytes and bits compute the recursive checksum. */
  method UdpCrc32(buf: seq<byte>) returns (sum: u32)
    ensures sum == Checksum(buf)
  {
    var crc: Word := Zero(32);
    for i := 0 to |buf|
      invariant Crc(crc, buf[i..]) == Crc(Zero(32), buf)
    {
      assert buf[i..][1..] == buf[i + 1..];
      crc := Mix(crc, buf[i]);
    }
    ValueBound(crc);
    Pow2Of32();
    sum := Value(crc);
  }

  method Mix(state: Word, b: byte) returns (crc: Word)
    ensures crc == CrcByte(state, b)
  {
    hide Xor, Wide, Shr, Poly;
    crc := Xor(state, Wide([b]));
    ghost var n: nat := 8;
    for j := 0 to 8
      invariant CrcBits(crc, n - j) == CrcByte(state, b)
    {
      crc := if crc[0] then Xor(Shr(crc, 1), Poly()) else Shr(crc, 1);
    }
  }

  // ---- the polynomial

  /** Only bit k is set. */
  predicate Only(w: Word, k: nat) { forall i :: 0 <= i < 32 ==> w[i] == (i == k) }

  /** A single bit that is shifted out leaves the polynomial. */
  lemma {:induction false} OneBitLeavesPoly(w: Word, k: nat)
    requires k < 32 && Only(w, k)
    ensures CrcBits(w, k + 1) == Poly()
    decreases k
  {
    hide Poly;
    if k == 0 {
      assert Xor(Shr(w, 1), Poly()) == Poly();
      assert CrcBits(CrcBit(w), 0) == CrcBit(w);
    } else {
      assert Only(CrcBit(w), k - 1);
      OneBitLeavesPoly(CrcBit(w), k - 1);
    }
  }

  lemma TopBit(b: byte)
    requires b == 0x80
    ensures Only(Xor(Zero(32), Wide([b])), 7)
  {
    TopBits(b);
    assert [b][1..] == [];
    assert ByteBits([b]) == Bits(b, 8);
  }

  lemma TopBits(b: byte)
    requires b == 0x80
    ensures Bits(b, 8) == [false, false, false, false, false, false, false, true]
  {
  }

  lemma ChecksumOfTopBit(b: byte)
    requires b == 0x80
    ensures Checksum([b]) == 0xEDB88320
  {
    hide Xor, Bits, CrcBits, Wide, Value;
    var z: Word, n: nat, poly: nat := Zero(32), 8, 0xEDB88320;
    TopBit(b);
    OneBitLeavesPoly(Xor(z, Wide([b])), n - 1);
    assert [b][1..] == [] && Crc(CrcByte(z, b), []) == CrcByte(z, b);
    Pow2Of32();
    PolyIs(poly);
    ValueOfBits(poly, 32);
  }

  lemma PolyIs(v: nat)
    requires v == 0xEDB88320
    ensures Poly() == Bits(v, 32)
  {
    hide Bits;
  }

  /** The polynomial of IEEE 802.3, by its effect: it is the checksum of the one byte 0x80. */
  lemma KnownChecksum()
    ensures Checksum([0x80]) == 0xEDB88320
  {
    hide Checksum;
    var b: byte := 0x80;
    ChecksumOfTopBit(b);
  }

  // ---- injectivity

  lemma PolyTop()
    ensures Poly()[31]
  {
    assert Pow2(31) == 0x8000_0000 by {
      Pow2Of32();
      assert Pow2(32) == 2 * Pow2(31);
    }
    var n: nat := 31;
    BitsTop(POLY_VALUE, n);
  }

  lemma {:induction false} BitsTop(v: nat, n: nat)
    requires Pow2(n) <= v < 2 * Pow2(n)
    ensures Bits(v, n + 1)[n]
    decreases n
  {
    if n > 0 {
      BitsTop(v / 2, n - 1);
      assert Bits(v, n + 1) == [v % 2 == 1] + Bits(v / 2, n);
    }
  }

  /** The top bit of the result tells which branch was taken. */
  lemma CrcBitTop(c: Word)
    ensures CrcBit(c)[31] == c[0]
  {
    PolyTop();
  }

  /** One bit step loses nothing. */
  lemma CrcBitInjective(c: Word, d: Word)
    requires CrcBit(c) == CrcBit(d)
    ensures c == d
  {
    CrcBitTop(c);
    CrcBitTop(d);
    if c[0] {
      XorCancels(Shr(c, 1), Shr(d, 1), Poly());
    }
    assert c == [c[0]] + Shr(c, 1)[..31];
    assert d == [d[0]] + Shr(d, 1)[..31];
  }

  lemma {:induction false} CrcBitsInjective(c: Word, d: Word, n: nat)
    requires CrcBits(c, n) == CrcBits(d, n)
    ensures c == d
    decreases n
  {
    if n > 0 {
      CrcBitsInjective(CrcBit(c), CrcBit(d), n - 1);
      CrcBitInjective(c, d);
    }
  }

  lemma XorCancels(c: Word, d: Word, w: Word)
    requires Xor(c, w) == Xor(d, w)
    ensures c == d
  {
    forall i | 0 <= i < 32
      ensures c[i] == d[i]
    {
      assert Xor(c, w)[i] == Xor(d, w)[i];
    }
  }

  /** The whole loop is injective in its state: a difference never heals over a common suffix. */
  lemma {:induction false} CrcInjectiveInState(c: Word, d: Word, buf: seq<byte>)
    requires Crc(c, buf) == Crc(d, buf)
    ensures c == d
    decreases |buf|
  {
    if buf != [] {
      var w, n: nat := Wide([buf[0]]), 8;
      CrcInjectiveInState(CrcByte(c, buf[0]), CrcByte(d, buf[0]), buf[1..]);
      CrcBitsInjective(Xor(c, w), Xor(d, w), n);
      XorCancels(c, d, w);
    }
  }

  lemma {:induction false} CrcSplit(c: Word, a: seq<byte>, b: seq<byte>)
    ensures Crc(c, a + b) == Crc(Crc(c, a), b)
    decreases |a|
  {
    hide CrcByte;
    if a == [] {
      assert a + b == b;
    } else {
      assert (a + b)[1..] == a[1..] + b;
      CrcSplit(CrcByte(c, a[0]), a[1..], b);
    }
  }

  // ---- a window of at most four bytes enters the state like one word

  /** A mixed-in word whose low n bits are clear passes n bit steps unchanged but for the shift. */
  lemma {:induction false} CrcBitsShift(x: Word, y: Word, n: nat)
    requires n <= 32 && forall i :: 0 <= i < n ==> !y[i]
    ensures CrcBits(Xor(x, y), n) == Xor(CrcBits(x, n), Shr(y, n))
    decreases n
  {
    hide CrcBit, Xor;
    if n == 0 {
      assert Shr(y, 0) == y;
    } else {
      var z := Shr(y, 1);
      CrcBitShift(x, y);
      CrcBitsShift(CrcBit(x), z, n - 1);
      assert Shr(z, n - 1) == Shr(y, n);
    }
  }

  lemma CrcBitShift(x: Word, y: Word)
    requires !y[0]
    ensures CrcBit(Xor(x, y)) == Xor(CrcBit(x), Shr(y, 1))
  {
    hide Poly;
  }

  lemma {:induction false} CrcBitsAdd(c: Word, m: nat, n: nat)
    ensures CrcBits(CrcBits(c, m), n) == CrcBits(c, m + n)
    decreases m
  {
    hide CrcBit;
    if m > 0 {
      CrcBitsAdd(CrcBit(c), m - 1, n);
    }
  }

  /** The bytes after the first, in the place they have in the word. */
  function High(rest: seq<byte>): Word
    requires |rest| <= 3
  {
    Zero(8) + ByteBits(rest) + Zero(24 - 8 * |rest|)
  }

  lemma WideSplit(c: Word, w: seq<byte>)
    requires 0 < |w| <= 4
    ensures Xor(c, Wide(w)) == Xor(Xor(c, Wide([w[0]])), High(w[1..]))
    ensures Shr(High(w[1..]), 8) == Wide(w[1..])
  {
    hide Xor, Wide, High;
    WideIsXor(w);
    XorAssociates(c, Wide([w[0]]), High(w[1..]));
    HighShifted(w[1..]);
  }

  lemma XorAssociates(x: Word, y: Word, z: Word)
    ensures Xor(x, Xor(y, z)) == Xor(Xor(x, y), z)
  {
  }

  lemma WideIsXor(w: seq<byte>)
    requires 0 < |w| <= 4
    ensures Wide(w) == Xor(Wide([w[0]]), High(w[1..]))
  {
    hide Bits;
    var rest := ByteBits(w[1..]);
    assert ByteBits([w[0]]) == Bits(w[0], 8);
    assert Wide(w) == Bits(w[0], 8) + rest + Zero(32 - 8 * |w|);
  }

  lemma HighShifted(rest: seq<byte>)
    requires |rest| <= 3
    ensures Shr(High(rest), 8) == Wide(rest)
  {
    hide ByteBits;
  }

  lemma {:induction false} CrcOfWindow(c: Word, w: seq<byte>)
    requires |w| <= 4
    ensures Crc(c, w) == CrcBits(Xor(c, Wide(w)), 8 * |w|)
    decreases |w|
  {
    if w == [] {
      assert Xor(c, Wide(w)) == c;
    } else {
      var first, rest, n: nat := Wide([w[0]]), w[1..], 8;
      WideSplit(c, w);
      CrcBitsShift(Xor(c, first), High(rest), n);
      var c' := CrcBits(Xor(c, first), n);
      CrcOfWindow(c', rest);
      CrcBitsAdd(Xor(c, Wide(w)), n, 8 * |rest|);
    }
  }

  lemma FirstByteBits(w: seq<byte>, n: nat)
    requires w != [] && n == 8
    ensures ByteBits(w)[..n] == Bits(w[0], n) && ByteBits(w)[n..] == ByteBits(w[1..])
  {
    hide Bits;
  }

  lemma {:induction false} ByteBitsInjective(v: seq<byte>, w: seq<byte>)
    requires |v| == |w| && ByteBits(v) == ByteBits(w)
    ensures v == w
    decreases |v|
  {
    hide ByteBits, Bits;
    if v != [] {
      var n: nat := 8;
      FirstByteBits(v, n);
      FirstByteBits(w, n);
      Pow2Of32();
      ValueOfBits(v[0], n);
      ValueOfBits(w[0], n);
      ByteBitsInjective(v[1..], w[1..]);
      assert v == [v[0]] + v[1..] && w == [w[0]] + w[1..];
    }
  }

  /** From one state, two windows of at most four bytes lead to the same state only if they are equal. */
  lemma WindowInjective(c: Word, v: seq<byte>, w: seq<byte>)
    requires |v| == |w| <= 4 && Crc(c, v) == Crc(c, w)
    ensures v == w
  {
    hide Crc, CrcBits, Xor, ByteBits;
    CrcOfWindow(c, v);
    CrcOfWindow(c, w);
    CrcBitsInjective(Xor(c, Wide(v)), Xor(c, Wide(w)), 8 * |v|);
    XorCancelsLeft(c, Wide(v), Wide(w));
    assert ByteBits(v) == Wide(v)[..8 * |v|] && ByteBits(w) == Wide(w)[..8 * |w|];
    ByteBitsInjective(v, w);
  }

  lemma XorCancelsLeft(c: Word, d: Word, e: Word)
    requires Xor(c, d) == Xor(c, e)
    ensures d == e
  {
    forall i | 0 <= i < 32
      ensures d[i] == e[i]
    {
      assert Xor(c, d)[i] == Xor(c, e)[i];
    }
  }

  /** Two payloads that differ only inside a window of at most four bytes never share a checksum. */
  lemma DetectsWindow(before: seq<byte>, v: seq<byte>, w: seq<byte>, after: seq<byte>)
    requires |v| == |w| <= 4 && v != w
    ensures Checksum(before + v + after) != Checksum(before + w + after)
  {
    hide Crc;
    var z := Zero(32);
    if Checksum(before + v + after) == Checksum(before + w + after) {
      ValueInjective(Crc(z, before + v + after), Crc(z, before + w + after));
      var c := Crc(z, before);
      CrcSplit(z, before + v, after);
      CrcSplit(z, before, v);
      CrcSplit(z, before + w, after);
      CrcSplit(z, before, w);
      CrcInjectiveInState(Crc(c, v), Crc(c, w), after);
      WindowInjective(c, v, w);
      assert false;
    }
  }

  lemma {:induction false} BitsOfValue(s: seq<bool>)
    ensures Bits(Value(s), |s|) == s
    decreases |s|
  {
    if s != [] {
      BitsOfValue(s[1..]);
      assert s == [s[0]] + s[1..];
    }
  }

  /** The bytes with the given bits. */
  function BytesOf(s: seq<bool>, k: nat): (w: seq<byte>)
    requires |s| == 8 * k
    ensures |w| == k && ByteBits(w) == s
    decreases k
  {
    if k == 0 then []
    else
      var n: nat := 8;
      Pow2Of32();
      ValueBound(s[..n]);
      BitsOfValue(s[..n]);
      var rest := BytesOf(s[n..], k - 1);
      assert ([Value(s[..n])] + rest)[1..] == rest;
      [Value(s[..n])] + rest
  }

  /** Four bytes is the exact limit: after every byte there are two five-byte windows that collide. */
  lemma FiveBytesCanCollide(before: seq<byte>, after: seq<byte>) returns (v: seq<byte>, w: seq<byte>)
    ensures |v| == |w| == 5 && v != w
    ensures Checksum(before + v + after) == Checksum(before + w + after)
  {
    var z := Zero(32);
    var c := Crc(z, before);
    v := [0] + BytesOf(CrcByte(c, 0), 4);
    w := [1] + BytesOf(CrcByte(c, 1), 4);
    CrcSplit(z, before + v, after);
    CrcSplit(z, before, v);
    CrcSplit(z, before + w, after);
    CrcSplit(z, before, w);
    LastFourCancel(c, 0);
    LastFourCancel(c, 1);
  }

  lemma LastFourCancel(c: Word, b: byte)
    ensures Crc(c, [b] + BytesOf(CrcByte(c, b), 4)) == CrcBits(Zero(32), 8 * 4)
  {
    hide CrcByte, BytesOf, Wide, Xor, CrcBits;
    var s := CrcByte(c, b);
    var w := BytesOf(s, 4);
    WideOfBytes(s, w);
    assert ([b] + w)[1..] == w;
    CrcOfWindow(s, w);
    SelfCancels(s);
  }

  lemma WideOfBytes(s: Word, w: seq<byte>)
    requires |w| == 4 && ByteBits(w) == s
    ensures Wide(w) == s
  {
    hide ByteBits;
    assert s + Zero(0) == s;
  }

  lemma SelfCancels(s: Word)
    ensures Xor(s, s) == Zero(32)
  {
  }
}
