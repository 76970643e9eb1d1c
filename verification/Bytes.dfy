/** Machine bytes and words, and the little-endian layout every wire format of the proxy uses. */
module Bytes {
  type byte = x: int | 0 <= x < 0x100
  type u16 = x: int | 0 <= x < 0x1_0000
  type u32 = x: int | 0 <= x < 0x1_0000_0000
  type i16 = x: int | -0x8000 <= x < 0x8000
  type i32 = x: int | -0x8000_0000 <= x < 0x8000_0000
  type u64 = x: int | 0 <= x < 0x1_0000_0000_0000_0000

  const TWO16: int := 0x1_0000
  const TWO32: int := 0x1_0000_0000
  const TWO64: int := 0x1_0000_0000_0000_0000

  datatype Option<+T> = None | Some(value: T)

  function Min(a: int, b: int): int { if a <= b then a else b }

  function Max(a: int, b: int): int { if a >= b then a else b }

  function Pow2(n: nat): nat { if n == 0 then 1 else 2 * Pow2(n - 1) }

  function Zeros(n: nat): (s: seq<byte>)
    ensures |s| == n && forall k :: 0 <= k < n ==> s[k] == 0
  {
    seq(n, _ => 0)
  }

  function Le16(v: u16): (s: seq<byte>)
    ensures |s| == 2
  {
    [v % 0x100, v / 0x100]
  }

  function Le32(v: u32): (s: seq<byte>)
    ensures |s| == 4
  {
    [v % 0x100, v / 0x100 % 0x100, v / 0x1_0000 % 0x100, v / 0x100_0000]
  }

  function GetU16(b: seq<byte>, i: nat): u16
    requires i + 2 <= |b|
  {
    (b[i] as int) + (b[i + 1] as int) * 0x100
  }

  function GetU32(b: seq<byte>, i: nat): u32
    requires i + 4 <= |b|
  {
    (b[i] as int) + (b[i + 1] as int) * 0x100 + (b[i + 2] as int) * 0x1_0000 + (b[i + 3] as int) * 0x100_0000
  }

  lemma Le16RoundTrip(v: u16)
    ensures GetU16(Le16(v), 0) == v
  {
  }

  lemma Le32RoundTrip(v: u32)
    ensures GetU32(Le32(v), 0) == v
  {
    var a, b, c := v / 0x100, v / 0x1_0000, v / 0x100_0000;
    assert v == v % 0x100 + 0x100 * a;
    assert b == a / 0x100 && a == a % 0x100 + 0x100 * b;
    assert c == b / 0x100 && b == b % 0x100 + 0x100 * c;
  }

  /** A word read back from the place it was written, whatever surrounds it. */
  lemma ReadBackU32(b: seq<byte>, i: nat, v: u32)
    requires i + 4 <= |b| && b[i..i + 4] == Le32(v)
    ensures GetU32(b, i) == v
  {
    Le32RoundTrip(v);
    var w := b[i..i + 4];
    assert w[0] == b[i] && w[1] == b[i + 1] && w[2] == b[i + 2] && w[3] == b[i + 3];
  }

  /** Every four bytes are the layout of the word they hold. */
  lemma Le32OfWord(b: seq<byte>, i: nat)
    requires i + 4 <= |b|
    ensures Le32(GetU32(b, i)) == b[i..i + 4]
  {
    hide Le32, GetU32;
    Le32RoundTrip(GetU32(b, i));
    var w := Le32(GetU32(b, i));
    WordBytes(w, b, i);
  }

  lemma WordBytes(w: seq<byte>, b: seq<byte>, i: nat)
    requires |w| == 4 && i + 4 <= |b| && GetU32(w, 0) == GetU32(b, i)
    ensures w == b[i..i + 4]
  {
    SameBytes(w[0], w[1], w[2], w[3], b[i], b[i + 1], b[i + 2], b[i + 3]);
  }

  lemma SameBytes(a: byte, b: byte, c: byte, d: byte, a': byte, b': byte, c': byte, d': byte)
    requires (a as int) + (b as int) * 0x100 + (c as int) * 0x1_0000 + (d as int) * 0x100_0000 ==
      (a' as int) + (b' as int) * 0x100 + (c' as int) * 0x1_0000 + (d' as int) * 0x100_0000
    ensures a == a' && b == b' && c == c' && d == d'
  {
    HighDigit((a as int) + (b as int) * 0x100 + (c as int) * 0x1_0000, d,
              (a' as int) + (b' as int) * 0x100 + (c' as int) * 0x1_0000, d', 0x100_0000);
    HighDigit((a as int) + (b as int) * 0x100, c, (a' as int) + (b' as int) * 0x100, c', 0x1_0000);
    HighDigit(a, b, a', b', 0x100);
  }

  lemma HighDigit(low: nat, high: nat, low': nat, high': nat, base: nat)
    requires low < base && low' < base && low + high * base == low' + high' * base
    ensures high == high' && low == low'
  {
    if high < high' {
      NextMultiple(high, high', base);
    } else if high' < high {
      NextMultiple(high', high, base);
    }
  }

  lemma NextMultiple(a: nat, b: nat, base: nat)
    requires a < b
    ensures b * base >= a * base + base
  {
    var more: nat := b - a - 1;
    assert b * base == a * base + base + more * base;
    NotNegative(more, base);
  }

  lemma NotNegative(a: nat, b: nat)
    ensures a * b >= 0
  {
  }

  lemma ReadBackU16(b: seq<byte>, i: nat, v: u16)
    requires i + 2 <= |b| && b[i..i + 2] == Le16(v)
    ensures GetU16(b, i) == v
  {
    Le16RoundTrip(v);
    var w := b[i..i + 2];
    assert w[0] == b[i] && w[1] == b[i + 1];
  }

  // ---- two's complement views of the unsigned words

  function ToI32(v: u32): (r: i32)
    ensures (r - v) % TWO32 == 0
  {
    if v < 0x8000_0000 then v else v - TWO32
  }

  function OfI32(v: i32): (r: u32)
    ensures ToI32(r) == v
  {
    if v < 0 then v + TWO32 else v
  }

  function ToI16(v: u16): i16 { if v < 0x8000 then v else v - TWO16 }

  function OfI16(v: i16): (r: u16)
    ensures ToI16(r) == v
  {
    if v < 0 then v + TWO16 else v
  }

  // ---- in-place writes, as binary.LittleEndian.PutUint16 and PutUint32 do them

  method PutU16(a: array<byte>, i: nat, v: u16)
    requires i + 2 <= a.Length
    modifies a
    ensures a[i..i + 2] == Le16(v)
    ensures a[..i] == old(a[..i]) && a[i + 2..] == old(a[i + 2..])
  {
    a[i], a[i + 1] := v % 0x100, v / 0x100;
  }

  method PutU32(a: array<byte>, i: nat, v: u32)
    requires i + 4 <= a.Length
    modifies a
    ensures a[i..i + 4] == Le32(v)
    ensures a[..i] == old(a[..i]) && a[i + 4..] == old(a[i + 4..])
  {
    a[i], a[i + 1], a[i + 2], a[i + 3] := v % 0x100, v / 0x100 % 0x100, v / 0x1_0000 % 0x100, v / 0x100_0000;
  }

  /** Go's copy of a whole slice into the buffer at offset i. */
  method CopyInto(a: array<byte>, i: nat, src: seq<byte>)
    requires i + |src| <= a.Length
    modifies a
    ensures a[i..i + |src|] == src
    ensures a[..i] == old(a[..i]) && a[i + |src|..] == old(a[i + |src|..])
  {
    forall k | 0 <= k < |src| {
      a[i + k] := src[k];
    }
  }

  // ---- headers made of 32-bit words

  function Words(ws: seq<u32>): (h: seq<byte>)
    ensures |h| == 4 * |ws|
  {
    if ws == [] then [] else Le32(ws[0]) + Words(ws[1..])
  }

  lemma {:induction false} WordsAppend(a: seq<u32>, b: seq<u32>)
    ensures Words(a + b) == Words(a) + Words(b)
  {
    if a == [] {
      assert a + b == b;
    } else {
      assert (a + b)[1..] == a[1..] + b;
      WordsAppend(a[1..], b);
    }
  }

  /** Every word of a header is read back, whatever follows the header. */
  lemma {:induction false} WordAt(ws: seq<u32>, body: seq<byte>, k: nat)
    requires k < |ws|
    ensures GetU32(Words(ws) + body, 4 * k) == ws[k]
  {
    var before, after := ws[..k], ws[k + 1..];
    assert ws == before + ([ws[k]] + after);
    WordsAppend(before, [ws[k]] + after);
    assert ([ws[k]] + after)[1..] == after;
    assert Words(ws) == Words(before) + (Le32(ws[k]) + Words(after));
    ReadBackU32(Words(ws) + body, 4 * k, ws[k]);
  }

  /** PutUint32 at the end of the part of the header that is already filled. */
  method PutWord(a: array<byte>, i: nat, v: u32, ghost ws: seq<u32>, ghost k: nat)
    requires k < |ws| && ws[k] == v && i == 4 * k
    requires i + 4 <= a.Length && a[..i] == Words(ws[..k])
    modifies a
    ensures a[..i + 4] == Words(ws[..k + 1])
  {
    PutU32(a, i, v);
    WordsAppend(ws[..k], [v]);
    assert ws[..k + 1] == ws[..k] + [v];
    assert Words([v]) == Le32(v) + Words([v][1..]);
    assert a[..i + 4] == a[..i] + a[i..i + 4];
  }

  // ---- concatenations of lists of chunks

  function Flat<T>(chunks: seq<seq<T>>): seq<T>
  {
    if chunks == [] then [] else chunks[0] + Flat(chunks[1..])
  }

  lemma FlatNothing<T>()
    ensures Flat<T>([]) == []
  {
  }

  lemma FlatAppend<T>(a: seq<seq<T>>, b: seq<seq<T>>)
    ensures Flat(a + b) == Flat(a) + Flat(b)
  {
    if a == [] {
      assert a + b == b;
    } else {
      assert (a + b)[1..] == a[1..] + b;
      FlatAppend(a[1..], b);
    }
  }

  lemma FlatOne<T>(c: seq<T>)
    ensures Flat([c]) == c
  {
    assert Flat<T>([]) == [];
  }

  lemma FlatPrefix<T>(chunks: seq<seq<T>>, n: nat)
    requires n <= |chunks|
    ensures Flat(chunks[..n]) <= Flat(chunks)
  {
    assert chunks == chunks[..n] + chunks[n..];
    FlatAppend(chunks[..n], chunks[n..]);
  }
}
