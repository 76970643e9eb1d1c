/**
 The message ciphers (pkg/baichuan/crypto.go): two XOR streams, AES in cipher feedback mode (section 6.3 of
 NIST SP 800-38A) over a block function that is left open, and reading a text of unknown encryption.
 */
module Cipher {
  import opened Bytes

  /** The lowest bit of the exclusive or. */
  function Odd(a: nat, b: nat): (r: nat)
    ensures r < 2
  {
    (a % 2 + b % 2) % 2
  }

  /** The lowest n bits of the exclusive or. */
  function Xor(a: nat, b: nat, n: nat): nat
  {
    if n == 0 then 0 else 2 * Xor(a / 2, b / 2, n - 1) + Odd(a, b)
  }

  lemma XorStep(a: nat, b: nat, n: nat)
    requires n > 0
    ensures Xor(a, b, n) == 2 * Xor(a / 2, b / 2, n - 1) + Odd(a, b)
  {
    hide Odd;
  }

  lemma HalfXor(a: nat, b: nat, n: nat)
    requires n > 0
    ensures Xor(a, b, n) / 2 == Xor(a / 2, b / 2, n - 1) && Xor(a, b, n) % 2 == Odd(a, b)
  {
    hide Xor, Odd;
    XorStep(a, b, n);
    HalfOf(Xor(a / 2, b / 2, n - 1), Odd(a, b));
  }

  lemma HalfOf(h: nat, odd: nat)
    requires odd < 2
    ensures (2 * h + odd) / 2 == h && (2 * h + odd) % 2 == odd
  {
  }

  lemma OddLaws(a: nat, b: nat, c: nat, u: nat, v: nat)
    requires u % 2 == Odd(a, b) && v % 2 == Odd(b, c)
    ensures Odd(a, b) == Odd(b, a) && Odd(u, c) == Odd(a, v) && Odd(u, b) == a % 2
  {
  }

  lemma {:induction false} XorBounded(a: nat, b: nat, n: nat)
    ensures Xor(a, b, n) < Pow2(n)
  {
    hide Odd;
    if n > 0 {
      XorBounded(a / 2, b / 2, n - 1);
    }
  }

  lemma {:induction false} XorCommutes(a: nat, b: nat, n: nat)
    ensures Xor(a, b, n) == Xor(b, a, n)
  {
    hide Odd;
    if n > 0 {
      OddLaws(a, b, a, Odd(a, b), Odd(b, a));
      XorCommutes(a / 2, b / 2, n - 1);
    }
  }

  lemma {:induction false} XorTwice(a: nat, b: nat, n: nat)
    requires a < Pow2(n)
    ensures Xor(Xor(a, b, n), b, n) == a
  {
    if n > 0 {
      hide Xor, Odd;
      var u := Xor(a, b, n);
      HalfXor(a, b, n);
      XorStep(u, b, n);
      OddLaws(a, b, b, u, Odd(b, b));
      XorTwice(a / 2, b / 2, n - 1);
    } else {
      assert Xor(Xor(a, b, 0), b, 0) == 0;
    }
  }

  lemma {:induction false} XorAssociates(a: nat, b: nat, c: nat, n: nat)
    ensures Xor(Xor(a, b, n), c, n) == Xor(a, Xor(b, c, n), n)
  {
    if n > 0 {
      hide Xor, Odd;
      var u, v := Xor(a, b, n), Xor(b, c, n);
      HalfXor(a, b, n);
      HalfXor(b, c, n);
      XorStep(u, c, n);
      XorStep(a, v, n);
      OddLaws(a, b, c, u, v);
      XorAssociates(a / 2, b / 2, c / 2, n - 1);
    }
  }

  function Bit(v: nat, k: nat): nat { if k == 0 then v % 2 else Bit(v / 2, k - 1) }

  lemma {:induction false} BitOfXor(a: nat, b: nat, n: nat, k: nat)
    requires k < n
    ensures Bit(Xor(a, b, n), k) == (Bit(a, k) + Bit(b, k)) % 2
  {
    HalfXor(a, b, n);
    if k > 0 {
      BitOfXor(a / 2, b / 2, n - 1, k - 1);
    }
  }

  function XorByte(a: byte, b: byte): byte
  {
    XorBounded(a, b, 8);
    EightBits();
    Xor(a, b, 8)
  }

  lemma EightBits()
    ensures Pow2(8) == 0x100
  {
  }

  lemma XorByteLaws(a: byte, b: byte, c: byte)
    ensures XorByte(a, b) == XorByte(b, a)
    ensures XorByte(XorByte(a, b), c) == XorByte(a, XorByte(b, c))
    ensures XorByte(XorByte(a, b), b) == a
  {
    hide Xor;
    EightBits();
    XorCommutes(a, b, 8);
    XorAssociates(a, b, c, 8);
    XorTwice(a, b, 8);
  }

  lemma XorByteBit(a: byte, b: byte, k: nat)
    requires k < 8
    ensures Bit(XorByte(a, b), k) == (Bit(a, k) + Bit(b, k)) % 2
  {
    hide Xor, Bit;
    BitOfXor(a, b, 8, k);
  }

  /** Byte by byte, as far as the key stream is defined. */
  function XorSeq(s: seq<byte>, key: seq<byte>): (r: seq<byte>)
    requires |s| <= |key|
    ensures |r| == |s|
  {
    seq(|s|, i requires 0 <= i < |s| => XorByte(s[i], key[i]))
  }

  lemma XorSeqTwice(s: seq<byte>, key: seq<byte>)
    requires |s| <= |key|
    ensures XorSeq(XorSeq(s, key), key) == s
  {
    hide XorByte;
    forall i | 0 <= i < |s|
      ensures XorSeq(XorSeq(s, key), key)[i] == s[i]
    {
      XorByteLaws(s[i], key[i], 0);
    }
  }

  // ---- the two XOR streams

  const XML_KEY: seq<byte> := [0x1F, 0x2D, 0x3C, 0x4B, 0x5A, 0x69, 0x78, 0xFF]

  function BcKey(offset: byte, i: nat): byte { XorByte(XML_KEY[(offset + i) % 8], offset) }

  function BcStream(offset: byte, n: nat): (s: seq<byte>)
    ensures |s| == n
  {
    seq(n, i requires 0 <= i < n => BcKey(offset, i))
  }

  function Bc(offset: byte, buf: seq<byte>): (r: seq<byte>)
    ensures |r| == |buf|
  {
    XorSeq(buf, BcStream(offset, |buf|))
  }

  /** BCXOR. */
  method BcXor(offset: byte, buf: seq<byte>) returns (out: array<byte>)
    ensures fresh(out) && out[..] == Bc(offset, buf)
  {
    hide XorByte;
    out := new byte[|buf|](_ => 0);
    for i := 0 to |buf|
      invariant out[..i] == Bc(offset, buf)[..i]
    {
      var key := XML_KEY[((offset as int) + i) % |XML_KEY|];
      out[i] := XorByte(XorByte(buf[i], key), offset);
      XorByteLaws(buf[i], key, offset);
      assert out[..i + 1] == out[..i] + [Bc(offset, buf)[i]];
    }
    assert out[..] == out[..|buf|];
  }

  lemma BcIsItsOwnInverse(offset: byte, buf: seq<byte>)
    ensures Bc(offset, Bc(offset, buf)) == buf
  {
    XorSeqTwice(buf, BcStream(offset, |buf|));
  }

  const UDP_KEY: seq<u32> := [
    0x1f2d3c4b, 0x5a6c7f8d, 0x38172e4b, 0x8271635a, 0x863f1a2b, 0xa5c6f7d8, 0x8371e1b4, 0x17f2d3a5]

  /** The key words, each shifted by the transaction number modulo 2^32. */
  function UdpWords(tid: u32): (ws: seq<u32>)
    ensures |ws| == 8
  {
    seq(8, k requires 0 <= k < 8 => ((UDP_KEY[k] as int) + tid) % TWO32)
  }

  function UdpStream(tid: u32, n: nat): (s: seq<byte>)
    ensures |s| == n
  {
    seq(n, i requires 0 <= i < n => Words(UdpWords(tid))[i % 32])
  }

  function Udp(tid: u32, buf: seq<byte>): (r: seq<byte>)
    ensures |r| == |buf|
  {
    XorSeq(buf, UdpStream(tid, |buf|))
  }

  /** UDPXOR. */
  method UdpXor(tid: u32, buf: seq<byte>) returns (out: array<byte>)
    ensures fresh(out) && out[..] == Udp(tid, buf)
  {
    hide XorByte, Words, Le32;
    var stream: seq<byte> := [];
    var words := UdpWords(tid);
    for k := 0 to 8
      invariant stream == Words(words[..k])
    {
      var value := ((UDP_KEY[k] as int) + tid) % TWO32;
      stream := stream + Le32(value);
      assert words[..k + 1] == words[..k] + [value];
      WordsAppend(words[..k], [value]);
      OneWord(value);
    }
    assert words[..8] == words;
    out := new byte[|buf|](_ => 0);
    for i := 0 to |buf|
      invariant out[..i] == Udp(tid, buf)[..i]
    {
      out[i] := XorByte(buf[i], stream[i % |stream|]);
      assert out[..i + 1] == out[..i] + [Udp(tid, buf)[i]];
    }
    assert out[..] == out[..|buf|];
  }

  lemma OneWord(value: u32)
    ensures Words([value]) == Le32(value)
  {
  }

  lemma UdpIsItsOwnInverse(tid: u32, buf: seq<byte>)
    ensures Udp(tid, Udp(tid, buf)) == buf
  {
    XorSeqTwice(buf, UdpStream(tid, |buf|));
  }

  /** The BC stream: key byte (offset + i) modulo 8, and the offset itself. */
  lemma BcAt(offset: byte, buf: seq<byte>, i: nat)
    requires i < |buf|
    ensures var key: seq<byte> := [0x1F, 0x2D, 0x3C, 0x4B, 0x5A, 0x69, 0x78, 0xFF];
      Bc(offset, buf)[i] == XorByte(XorByte(buf[i], key[(offset + i) % 8]), offset)
  {
    hide XorByte;
    XorByteLaws(buf[i], XML_KEY[(offset + i) % 8], offset);
  }

  /** The UDP stream: 32 bytes over and over, the words of the key plus the transaction number, lowest byte first. */
  lemma UdpAt(tid: u32, buf: seq<byte>, i: nat)
    requires i < |buf|
    ensures var key: seq<u32> := [
        0x1f2d3c4b, 0x5a6c7f8d, 0x38172e4b, 0x8271635a, 0x863f1a2b, 0xa5c6f7d8, 0x8371e1b4, 0x17f2d3a5];
      var word: u32 := (key[i % 32 / 4] + tid as int) % 0x1_0000_0000;
      Udp(tid, buf)[i] == XorByte(buf[i], Le32(word)[i % 4])
  {
    hide XorByte, Words, Le32;
    var k, j := i % 32 / 4, i % 4;
    assert i % 32 == 4 * k + j;
    ByteOfWords(UdpWords(tid), k, j);
  }

  lemma {:induction false} ByteOfWords(ws: seq<u32>, k: nat, j: nat)
    requires k < |ws| && j < 4
    ensures Words(ws)[4 * k + j] == Le32(ws[k])[j]
    decreases k
  {
    hide Le32;
    if k > 0 {
      ByteOfWords(ws[1..], k - 1, j);
      assert Words(ws)[4 * k + j] == Words(ws[1..])[4 * (k - 1) + j];
    }
  }

  // ---- AES-128 in cipher feedback mode, over any block function

  type BlockFunction = seq<byte> -> seq<byte>

  const IV: seq<byte> :=
    [0x30, 0x31, 0x32, 0x33, 0x34, 0x35, 0x36, 0x37, 0x38, 0x39, 0x61, 0x62, 0x63, 0x64, 0x65, 0x66]

  /** The block function, made one on blocks of 16 bytes. */
  function BlockOf(aes: BlockFunction, input: seq<byte>): (block: seq<byte>)
    ensures |block| == 16
  {
    (aes(input) + Zeros(16))[..16]
  }

  function FirstBlock(buf: seq<byte>): (n: nat)
    ensures n <= |buf| && n <= 16 && (buf != [] ==> n > 0)
  {
    if |buf| < 16 then |buf| else 16
  }

  function CfbEncrypt(aes: BlockFunction, feedback: seq<byte>, plain: seq<byte>): (c: seq<byte>)
    ensures |c| == |plain|
    decreases |plain|
  {
    if plain == [] then []
    else
      var n := FirstBlock(plain);
      var block := XorSeq(plain[..n], BlockOf(aes, feedback));
      block + CfbEncrypt(aes, block, plain[n..])
  }

  function CfbDecrypt(aes: BlockFunction, feedback: seq<byte>, data: seq<byte>): (p: seq<byte>)
    ensures |p| == |data|
    decreases |data|
  {
    if data == [] then []
    else
      var n := FirstBlock(data);
      XorSeq(data[..n], BlockOf(aes, feedback)) + CfbDecrypt(aes, data[..n], data[n..])
  }

  lemma {:induction false} CfbRoundTrip(aes: BlockFunction, feedback: seq<byte>, plain: seq<byte>)
    ensures CfbDecrypt(aes, feedback, CfbEncrypt(aes, feedback, plain)) == plain
    decreases |plain|
  {
    hide XorSeq, BlockOf;
    if plain != [] {
      var n := FirstBlock(plain);
      var block := XorSeq(plain[..n], BlockOf(aes, feedback));
      var data := CfbEncrypt(aes, feedback, plain);
      XorSeqTwice(plain[..n], BlockOf(aes, feedback));
      CfbRoundTrip(aes, block, plain[n..]);
      assert data[..n] == block && data[n..] == CfbEncrypt(aes, block, plain[n..]);
      assert FirstBlock(data) == n;
      assert plain[..n] + plain[n..] == plain;
    }
  }

  /**
   Cipher feedback, block by block: each 16 bytes are masked with what the block function makes of the 16 bytes
   of ciphertext before them, the first ones of the characters 0 to f.
   */
  lemma {:induction false} CfbBlocks(aes: BlockFunction, feedback: seq<byte>, plain: seq<byte>, j: nat)
    requires 16 * j < |plain| && |feedback| == 16
    ensures var c, end := CfbEncrypt(aes, feedback, plain), Min(16 * j + 16, |plain|);
      var before := if j == 0 then feedback else c[16 * j - 16..16 * j];
      c[16 * j..end] == XorSeq(plain[16 * j..end], BlockOf(aes, before))
    decreases j
  {
    hide XorSeq, BlockOf, CfbEncrypt;
    var n := FirstBlock(plain);
    var block := XorSeq(plain[..n], BlockOf(aes, feedback));
    CfbFirst(aes, feedback, plain);
    if j == 0 {
      assert plain[0..n] == plain[..n];
    } else {
      CfbBlocks(aes, block, plain[16..], j - 1);
      var end := Min(16 * j + 16, |plain|);
      assert plain[16..][16 * (j - 1)..end - 16] == plain[16 * j..end];
      BehindFirst(block, CfbEncrypt(aes, block, plain[16..]), 16 * j, end);
    }
  }

  lemma CfbFirst(aes: BlockFunction, feedback: seq<byte>, plain: seq<byte>)
    requires plain != []
    ensures var n := FirstBlock(plain);
      var block := XorSeq(plain[..n], BlockOf(aes, feedback));
      CfbEncrypt(aes, feedback, plain) == block + CfbEncrypt(aes, block, plain[n..])
      && CfbEncrypt(aes, feedback, plain)[0..n] == block
  {
    hide XorSeq, BlockOf, FirstBlock;
  }

  /** A later block of the whole and the one before it, counted from the second block. */
  lemma BehindFirst(block: seq<byte>, rest: seq<byte>, at: nat, end: nat)
    requires |block| == 16 <= at < end <= 16 + |rest| && (at > 16 ==> at >= 32)
    ensures (block + rest)[at..end] == rest[at - 16..end - 16]
    ensures (block + rest)[at - 16..at] == if at == 16 then block else rest[at - 32..at - 16]
  {
    SliceBehind(block, rest, at, end);
    if at > 16 {
      SliceBehind(block, rest, at - 16, at);
    }
  }

  lemma SliceBehind(block: seq<byte>, rest: seq<byte>, from: nat, to: nat)
    requires |block| <= from <= to <= |block| + |rest|
    ensures (block + rest)[from..to] == rest[from - |block|..to - |block|]
  {
  }

  lemma FirstFeedback()
    ensures forall i :: 0 <= i < 16 ==> IV[i] == "0123456789abcdef"[i] as int
    ensures |IV| == 16
  {
  }

  // ---- the session modes

  datatype Mode = Plain | BcMode | AesMode

  /** What a connection has negotiated: the mode, and the AES key once there is one. */
  datatype Session = Session(mode: Mode, key: Option<BlockFunction>)

  function EncryptXml(offset: byte, buf: seq<byte>, s: Session): (r: seq<byte>)
    ensures |r| == |buf|
  {
    match s.mode
    case Plain => buf
    case BcMode => Bc(offset, buf)
    case AesMode => if s.key.None? then Bc(offset, buf) else CfbEncrypt(s.key.value, IV, buf)
  }

  function DecryptXml(offset: byte, buf: seq<byte>, s: Session): (r: seq<byte>)
    ensures |r| == |buf|
  {
    match s.mode
    case Plain => buf
    case BcMode => Bc(offset, buf)
    case AesMode => if s.key.None? then Bc(offset, buf) else CfbDecrypt(s.key.value, IV, buf)
  }

  lemma CipherRoundTrip(offset: byte, buf: seq<byte>, s: Session)
    ensures DecryptXml(offset, EncryptXml(offset, buf, s), s) == buf
  {
    hide Bc, CfbEncrypt, CfbDecrypt;
    BcIsItsOwnInverse(offset, buf);
    if s.key.Some? {
      CfbRoundTrip(s.key.value, IV, buf);
    }
  }

  // ---- texts whose encryption is not known

  predicate Space(b: byte) { b == 0x20 || b == 0x09 || b == 0x0D || b == 0x0A }

  function TrimLeft(buf: seq<byte>): seq<byte>
  {
    if buf != [] && Space(buf[0]) then TrimLeft(buf[1..]) else buf
  }

  const XML_START: seq<byte> := [0x3C, 0x3F, 0x78, 0x6D, 0x6C]

  predicate IsXml(buf: seq<byte>) { XML_START <= TrimLeft(buf) }

  /** What the AES key makes of a buffer, when there is one and the result looks like a text. */
  predicate AesReadable(buf: seq<byte>, s: Session) { s.key.Some? && IsXml(CfbDecrypt(s.key.value, IV, buf)) }

  /** decryptXMLAuto: the session's mode first, then the others as long as the result is not a text. */
  function DecryptAuto(offset: byte, buf: seq<byte>, s: Session): (r: seq<byte>)
    ensures |r| == |buf|
  {
    var out := DecryptXml(offset, buf, s);
    if IsXml(out) then out
    else if IsXml(buf) then buf
    else if IsXml(Bc(offset, buf)) then Bc(offset, buf)
    else if AesReadable(buf, s) then CfbDecrypt(s.key.value, IV, buf)
    else out
  }

  /**
   Under one session on both sides automatic decryption undoes encryption exactly when the plaintext is a
   text, or nothing else it would try looks like one.
   */
  lemma AutoUndoesEncryption(offset: byte, plain: seq<byte>, s: Session)
    ensures var sent := EncryptXml(offset, plain, s);
      DecryptAuto(offset, sent, s) == plain <==>
        IsXml(plain) || !(IsXml(sent) || IsXml(Bc(offset, sent)) || AesReadable(sent, s))
  {
    hide Bc, CfbEncrypt, CfbDecrypt, EncryptXml, DecryptXml, IsXml;
    CipherRoundTrip(offset, plain, s);
  }

  // ---- a BC-encrypted text never looks like a text

  /** Where the text begins: blanks before, the five characters of the declaration at p. */
  ghost predicate StartsAt(buf: seq<byte>, p: nat)
  {
    && p + 5 <= |buf| && (forall i :: 0 <= i < p ==> Space(buf[i]))
    && buf[p] == 0x3C && buf[p + 1] == 0x3F && buf[p + 2] == 0x78 && buf[p + 3] == 0x6D && buf[p + 4] == 0x6C
  }

  lemma {:induction false} XmlStarts(buf: seq<byte>) returns (p: nat)
    requires IsXml(buf)
    ensures StartsAt(buf, p)
  {
    if buf != [] && Space(buf[0]) {
      p := XmlStarts(buf[1..]);
      p := p + 1;
    } else {
      p := 0;
      assert buf[0] == XML_START[0] && buf[1] == XML_START[1] && buf[2] == XML_START[2];
      assert buf[3] == XML_START[3] && buf[4] == XML_START[4];
    }
  }

  lemma {:induction false} StartsIsXml(buf: seq<byte>, p: nat)
    requires StartsAt(buf, p)
    ensures IsXml(buf)
    decreases p
  {
    if p > 0 {
      StartsIsXml(buf[1..], p - 1);
    } else {
      assert buf[..5] == XML_START;
    }
  }

  /** A text is any number of blanks, tabs and line ends followed by "<?xml", and anything behind it. */
  lemma IsXmlExactly(buf: seq<byte>)
    ensures IsXml(buf) <==>
      exists blanks: seq<byte>, rest: seq<byte> ::
        && buf == blanks + [0x3C, 0x3F, 0x78, 0x6D, 0x6C] + rest
        && forall b :: b in blanks ==> b == 0x20 || b == 0x09 || b == 0x0D || b == 0x0A
  {
    hide IsXml;
    if IsXml(buf) {
      var p := XmlStarts(buf);
      var blanks, rest := buf[..p], buf[p + 5..];
      assert buf == blanks + [0x3C, 0x3F, 0x78, 0x6D, 0x6C] + rest;
    }
    forall blanks: seq<byte>, rest: seq<byte> |
      && buf == blanks + [0x3C, 0x3F, 0x78, 0x6D, 0x6C] + rest
      && forall b :: b in blanks ==> b == 0x20 || b == 0x09 || b == 0x0D || b == 0x0A
      ensures IsXml(buf)
    {
      assert forall i :: 0 <= i < |blanks| ==> buf[i] == blanks[i] && blanks[i] in blanks;
      StartsIsXml(buf, |blanks|);
    }
  }

  /** Bits 4 and 7 tell neighbouring bytes of the key apart. */
  function High(v: byte): (bits: (int, int))
    ensures 0 <= bits.0 <= 1 && 0 <= bits.1 <= 1
  {
    (v / 0x10 % 2, v / 0x80 % 2)
  }

  lemma HighBits(v: byte)
    ensures High(v) == (Bit(v, 4), Bit(v, 7))
  {
    hide Bit;
    FourHigher(v, 0);
    FourHigher(v, 3);
    Lowest(v / 0x10);
    ThreeHigher(v / 0x10);
  }

  lemma Lowest(v: nat)
    ensures Bit(v, 0) == v % 2
  {
  }

  lemma FourHigher(v: nat, k: nat)
    ensures Bit(v, k + 4) == Bit(v / 0x10, k)
  {
    hide Bit;
    Shift(v, k + 3);
    Shift(v / 2, k + 2);
    Shift(v / 4, k + 1);
    Shift(v / 8, k);
  }

  lemma ThreeHigher(v: nat)
    ensures Bit(v, 3) == v / 8 % 2
  {
    hide Bit;
    Lowest(v / 8);
    Shift(v, 2);
    Shift(v / 2, 1);
    Shift(v / 4, 0);
  }

  lemma Shift(v: nat, k: nat)
    ensures Bit(v, k + 1) == Bit(v / 2, k)
  {
  }

  /** These bits of a byte, its encryption, the key and the offset are even together. */
  lemma EvenBits(offset: byte, buf: seq<byte>, i: nat)
    requires i < |buf|
    ensures var b, e, k, o := High(buf[i]), High(Bc(offset, buf)[i]), High(XML_KEY[(offset + i) % 8]), High(offset);
      (b.0 + e.0 + k.0 + o.0) % 2 == 0 && (b.1 + e.1 + k.1 + o.1) % 2 == 0
  {
    hide XorByte, Bit, High;
    var b, k := buf[i], XML_KEY[(offset + i) % 8];
    var e := Bc(offset, buf)[i];
    assert e == XorByte(b, XorByte(k, offset));
    HighBits(b);
    HighBits(e);
    HighBits(k);
    HighBits(offset);
    XorByteBit(k, offset, 4);
    XorByteBit(k, offset, 7);
    XorByteBit(b, XorByte(k, offset), 4);
    XorByteBit(b, XorByte(k, offset), 7);
  }

  lemma KeyStep(m: nat, n: nat)
    requires m < 8 && n == if m == 7 then 0 else m + 1
    ensures High(XML_KEY[m]) != High(XML_KEY[n])
  {
  }

  /** In the characters a text begins with these bits are the same, and blanks have neither. */
  lemma TextBits(b: byte)
    ensures b in {0x3C, 0x3F, 0x78} ==> High(b) == (1, 0)
    ensures Space(b) ==> High(b) == (0, 0)
  {
  }

  /** Of two buffers that are each other's encryption, only one can begin like a text. */
  lemma NotBothTexts(offset: byte, buf: seq<byte>, p: nat, q: nat)
    requires StartsAt(buf, p) && q >= p
    ensures !StartsAt(Bc(offset, buf), q)
  {
    hide Bc, High;
    var e := Bc(offset, buf);
    var i := if q == p + 1 then p + 1 else p;
    if StartsAt(e, q) {
      EvenBits(offset, buf, i);
      EvenBits(offset, buf, i + 1);
      KeyStep((offset + i) % 8, (offset + (i + 1)) % 8);
      TextBits(buf[i]);
      TextBits(buf[i + 1]);
      TextBits(e[i]);
      TextBits(e[i + 1]);
    }
  }

  /** So the fallbacks cannot confuse a plain text with a BC-encrypted one. */
  lemma BcNeverLooksLikeXml(offset: byte, buf: seq<byte>)
    requires IsXml(buf)
    ensures !IsXml(Bc(offset, buf))
  {
    hide Bc, IsXml, StartsAt;
    if IsXml(Bc(offset, buf)) {
      var p := XmlStarts(buf);
      var q := XmlStarts(Bc(offset, buf));
      if p <= q {
        NotBothTexts(offset, buf, p, q);
      } else {
        BcIsItsOwnInverse(offset, buf);
        NotBothTexts(offset, Bc(offset, buf), q, p);
      }
    }
  }

  /**
   A text sent plain or BC-encrypted is read under any session mode, exactly unless an AES session makes
   another text of it. The login reply is one: it is BC-encrypted even when the session uses AES.
   */
  lemma ForeignModeIsRead(offset: byte, plain: seq<byte>, sent: seq<byte>, s: Session)
    requires IsXml(plain) && (sent == plain || sent == Bc(offset, plain))
    ensures DecryptAuto(offset, sent, s) == plain <==>
      s.mode == AesMode && AesReadable(sent, s) ==> CfbDecrypt(s.key.value, IV, sent) == plain
  {
    hide Bc, CfbEncrypt, CfbDecrypt, IsXml;
    BcNeverLooksLikeXml(offset, plain);
    BcIsItsOwnInverse(offset, plain);
  }

  /** An AES-encrypted text is read under any session mode, unless its ciphertext passes for another text. */
  lemma AesTextIsRead(offset: byte, plain: seq<byte>, s: Session)
    requires IsXml(plain) && s.key.Some?
    ensures var sent := CfbEncrypt(s.key.value, IV, plain);
      DecryptAuto(offset, sent, s) == plain <==>
        (s.mode != AesMode ==>
          (IsXml(sent) ==> sent == plain) && (IsXml(Bc(offset, sent)) ==> Bc(offset, sent) == plain))
  {
    hide Bc, CfbEncrypt, CfbDecrypt, IsXml;
    var sent := CfbEncrypt(s.key.value, IV, plain);
    CfbRoundTrip(s.key.value, IV, plain);
    if IsXml(sent) {
      BcNeverLooksLikeXml(offset, sent);
    }
  }

  // ---- any text, any two session modes with the same key

  predicate UsesAes(s: Session) { s.mode == AesMode && s.key.Some? }

  /** What it takes for a part to be read back: a text must not be taken for another, any other part for a text. */
  predicate Survives(offset: byte, plain: seq<byte>, sender: Session, reader: Session)
  {
    var sent := EncryptXml(offset, plain, sender);
    if !IsXml(plain) then
      && !IsXml(sent) && !IsXml(Bc(offset, sent)) && !AesReadable(sent, reader)
      && DecryptXml(offset, sent, reader) == plain
    else if UsesAes(sender) then
      reader.mode != AesMode ==>
        (IsXml(sent) ==> sent == plain) && (IsXml(Bc(offset, sent)) ==> Bc(offset, sent) == plain)
    else
      reader.mode == AesMode && AesReadable(sent, reader) ==> CfbDecrypt(reader.key.value, IV, sent) == plain
  }

  /** That is exactly what it takes, whatever the modes of the two sides. */
  lemma AutoReadsExactly(offset: byte, plain: seq<byte>, sender: Session, reader: Session)
    requires sender.key == reader.key
    ensures DecryptAuto(offset, EncryptXml(offset, plain, sender), reader) == plain <==>
      Survives(offset, plain, sender, reader)
  {
    hide Bc, CfbEncrypt, CfbDecrypt, IsXml;
    if IsXml(plain) {
      if UsesAes(sender) {
        AesTextIsRead(offset, plain, reader);
      } else {
        ForeignModeIsRead(offset, plain, EncryptXml(offset, plain, sender), reader);
      }
    }
  }

  /** Under one session only the fallbacks can go wrong, and only for a part that is not a text. */
  lemma SameSessionSurvives(offset: byte, plain: seq<byte>, s: Session)
    requires IsXml(plain)
    ensures Survives(offset, plain, s, s)
  {
    hide IsXml, DecryptAuto, Survives;
    AutoUndoesEncryption(offset, plain, s);
    AutoReadsExactly(offset, plain, s, s);
  }
}
