/**
 Splitting an Annex B byte stream into NAL units and ordering the units of an access unit for the RTP
 packetizer (pkg/media/translator.go; Annex B of ITU-T H.264 and H.265).
 */
module AnnexB {
  import opened Bytes

  type Nal = seq<byte>

  function StartCodeLen(buf: seq<byte>): (n: nat)
    ensures n <= |buf| && (n == 0 || n == 3 || n == 4)
  {
    if |buf| >= 4 && buf[0] == 0 && buf[1] == 0 && buf[2] == 0 && buf[3] == 1 then 4
    else if |buf| >= 3 && buf[0] == 0 && buf[1] == 0 && buf[2] == 1 then 3
    else 0
  }

  /** Where the first start code begins; one in the last three bytes is not seen. */
  function Find(buf: seq<byte>): (p: nat)
    ensures p <= |buf|
    ensures p < |buf| ==> p + 3 < |buf| && StartCodeLen(buf[p..]) > 0
  {
    if |buf| <= 3 then |buf| else if StartCodeLen(buf) > 0 then 0 else Find(buf[1..]) + 1
  }

  /** The units of a buffer whose first k bytes are known to hold no start code. */
  function UnitsFrom(buf: seq<byte>, k: nat): seq<Nal>
    requires k <= |buf|
    decreases |buf|, |buf| - k
  {
    var p := k + Find(buf[k..]);
    (if p > 0 then [buf[..p]] else []) +
    (if p == |buf| then [] else After(buf, p))
  }

  /** The units behind the start code at p. */
  function After(buf: seq<byte>, p: nat): seq<Nal>
    requires p < |buf| && StartCodeLen(buf[p..]) > 0
    decreases |buf|, 0
  {
    UnitsFrom(buf[p + StartCodeLen(buf[p..])..], 0)
  }

  function Units(buf: seq<byte>): seq<Nal> { UnitsFrom(buf, 0) }

  /** A buffer without any unit in it is returned whole. */
  function Split(buf: seq<byte>): seq<Nal>
  {
    var p := Find(buf);
    var units := if p == |buf| then [] else After(buf, p);
    if units == [] && buf != [] then [buf] else units
  }

  lemma NoCodeHere(buf: seq<byte>, start: nat, i: nat)
    requires start <= i < |buf| - 3 && StartCodeLen(buf[i..]) == 0
    ensures Find(buf[i..]) == 1 + Find(buf[i + 1..])
    ensures UnitsFrom(buf[start..], i - start) == UnitsFrom(buf[start..], i + 1 - start)
  {
    hide StartCodeLen;
    assert buf[start..][i - start..] == buf[i..];
    assert buf[start..][i + 1 - start..] == buf[i + 1..];
    assert buf[i..][1..] == buf[i + 1..];
  }

  lemma CodeHere(buf: seq<byte>, start: nat, i: nat)
    requires start <= i < |buf| - 3 && StartCodeLen(buf[i..]) > 0
    ensures Find(buf[i..]) == 0
    ensures i + StartCodeLen(buf[i..]) <= |buf| && After(buf, i) == UnitsFrom(buf[i + StartCodeLen(buf[i..])..], 0)
    ensures UnitsFrom(buf[start..], i - start) == (if i > start then [buf[start..i]] else []) + After(buf, i)
  {
    hide StartCodeLen;
    assert buf[start..][i - start..] == buf[i..];
    assert buf[start..][i - start + StartCodeLen(buf[i..])..] == buf[i + StartCodeLen(buf[i..])..];
    assert buf[start..][..i - start] == buf[start..i];
  }

  lemma NoMoreCode(buf: seq<byte>, start: nat, i: nat)
    requires start <= i <= |buf| <= i + 3
    ensures Find(buf[i..]) == |buf| - i
    ensures UnitsFrom(buf[start..], i - start) == if start < |buf| then [buf[start..]] else []
  {
    hide StartCodeLen;
    var tail := buf[start..];
    assert tail[i - start..] == buf[i..];
    assert tail[..|tail|] == tail;
  }

  /** SplitAnnexB. */
  method SplitAnnexB(buf: seq<byte>) returns (trimmed: seq<Nal>)
    ensures trimmed == Split(buf)
  {
    hide StartCodeLen, Find, UnitsFrom, After;
    var out: seq<Nal> := [];
    var start, found, i := 0, false, 0;
    ghost var p := Find(buf);
    assert buf[0..] == buf;
    while i < |buf| - 3
      invariant 0 <= start <= i <= |buf| && (found ==> p < |buf|)
      invariant !found ==> out == [] && start == 0 && p == i + Find(buf[i..])
      invariant found ==> After(buf, p) == out + UnitsFrom(buf[start..], i - start)
      decreases |buf| - i
    {
      var prefixLen := StartCodeLen(buf[i..]);
      if prefixLen == 0 {
        NoCodeHere(buf, start, i);
        i := i + 1;
      } else {
        CodeHere(buf, start, i);
        if found && i > start {
          out := out + [buf[start..i]];
        }
        start, found, i := i + prefixLen, true, i + prefixLen;
      }
    }
    NoMoreCode(buf, start, i);
    if found && start < |buf| {
      out := out + [buf[start..]];
    }
    if |out| == 0 && |buf| > 0 {
      out := out + [buf];
    }
    trimmed := DropEmpty(out);
    NoneEmpty(buf);
  }

  /** The loop that trims the list. */
  method DropEmpty(out: seq<Nal>) returns (trimmed: seq<Nal>)
    ensures [] !in out ==> trimmed == out
  {
    trimmed := [];
    for k := 0 to |out|
      invariant [] !in out[..k] ==> trimmed == out[..k]
    {
      assert out[..k + 1] == out[..k] + [out[k]];
      if |out[k]| > 0 {
        trimmed := trimmed + [out[k]];
      }
    }
    assert out[..|out|] == out;
  }

  /** Splitting never produces an empty unit. */
  lemma {:induction false} NoEmptyUnit(buf: seq<byte>, k: nat)
    requires k <= |buf|
    ensures [] !in UnitsFrom(buf, k)
    decreases |buf|
  {
    hide StartCodeLen;
    var p := k + Find(buf[k..]);
    if p < |buf| {
      NoEmptyUnit(buf[p + StartCodeLen(buf[p..])..], 0);
    }
  }

  lemma NoneEmpty(buf: seq<byte>)
    ensures [] !in Split(buf)
  {
    hide StartCodeLen, UnitsFrom;
    var p := Find(buf);
    if p < |buf| {
      NoEmptyUnit(buf[p + StartCodeLen(buf[p..])..], 0);
    }
  }

  // ---- the inverse: joining units with start codes

  /** A unit behind a start code of four bytes, or of three. */
  datatype Piece = Piece(long: bool, nal: Nal)

  function StartCode(long: bool): (code: seq<byte>)
    ensures |code| == (if long then 4 else 3)
  {
    if long then [0, 0, 0, 1] else [0, 0, 1]
  }

  function Join(pieces: seq<Piece>): seq<byte>
  {
    if pieces == [] then [] else StartCode(pieces[0].long) + pieces[0].nal + Join(pieces[1..])
  }

  function Nals(pieces: seq<Piece>): (nals: seq<Nal>)
    ensures |nals| == |pieces|
  {
    if pieces == [] then [] else [pieces[0].nal] + Nals(pieces[1..])
  }

  predicate CodeFree(nal: Nal, end: int)
    requires end <= |nal|
  {
    forall j :: 0 <= j && j + 3 <= end ==> !(nal[j] == 0 && nal[j + 1] == 0 && nal[j + 2] == 1)
  }

  /**
   A unit that survives in front of the given pieces: not empty, free of 00 00 01, and not ending in zero
   where a three-byte start code follows. At the very end of the stream a three-byte start code is not seen.
   */
  predicate Clean(nal: Nal, rest: seq<Piece>)
  {
    && nal != []
    && CodeFree(nal, if rest == [] then |nal| - 1 else |nal|)
    && (rest == [] && |nal| >= 4 ==> nal[|nal| - 4..] != [0, 0, 0, 1])
    && (rest != [] && !rest[0].long ==> nal[|nal| - 1] != 0)
  }

  predicate AllClean(pieces: seq<Piece>)
  {
    pieces == [] || (Clean(pieces[0].nal, pieces[1..]) && AllClean(pieces[1..]))
  }

  lemma {:induction false} NothingBefore(buf: seq<byte>, j: nat)
    requires j < Find(buf) && j + 3 < |buf|
    ensures StartCodeLen(buf[j..]) == 0
  {
    hide StartCodeLen;
    if j == 0 {
      assert buf[0..] == buf;
    } else {
      NothingBefore(buf[1..], j - 1);
      assert buf[1..][j - 1..] == buf[j..];
    }
  }

  lemma CodeOfJoin(rest: seq<Piece>)
    requires rest != []
    ensures |Join(rest)| >= 3 && StartCodeLen(Join(rest)) == |StartCode(rest[0].long)|
    ensures Join(rest)[|StartCode(rest[0].long)|..] == rest[0].nal + Join(rest[1..])
  {
    var code, tail := StartCode(rest[0].long), rest[0].nal + Join(rest[1..]);
    assert Join(rest) == code + tail;
    CodeThenTail(rest[0].long, tail);
  }

  lemma CodeThenTail(long: bool, tail: seq<byte>)
    ensures StartCodeLen(StartCode(long) + tail) == |StartCode(long)|
    ensures (StartCode(long) + tail)[|StartCode(long)|..] == tail
  {
  }

  /** A start code that begins in the unit and ends behind it ends where the next start code ends. */
  lemma Overlap(s: seq<byte>, rest: seq<Piece>, p: nat)
    requires p < |s|
    requires var b := s + Join(rest); StartCodeLen(b[p..]) > 0 && p + StartCodeLen(b[p..]) > |s|
    ensures rest != [] && var b := s + Join(rest);
      p + StartCodeLen(b[p..]) == |s| + |StartCode(rest[0].long)|
  {
    var b := s + Join(rest);
    var n := StartCodeLen(b[p..]);
    assert rest != [];
    CodeOfJoin(rest);
    var c := b[p..][n - 1];
    assert c == 1;
    var q := p + n - 1 - |s|;
    assert b[p + n - 1] == Join(rest)[q];
  }

  function Total(units: seq<Nal>): nat
  {
    if units == [] then 0 else |units[0]| + Total(units[1..])
  }

  lemma UnfoldAfter(b: seq<byte>)
    requires Find(b) < |b|
    ensures After(b, Find(b)) == Units(b[Find(b) + StartCodeLen(b[Find(b)..])..])
  {
    hide StartCodeLen, Find, UnitsFrom;
  }

  lemma UnfoldUnits(b: seq<byte>)
    ensures var p := Find(b);
      Units(b) == (if p > 0 then [b[..p]] else []) + if p == |b| then [] else After(b, p)
  {
    hide StartCodeLen, Find, After;
    assert b[0..] == b;
  }

  lemma UnfoldTotal(b: seq<byte>)
    ensures var p := Find(b);
      Total(Units(b)) == p + if p == |b| then 0 else Total(Units(b[p + StartCodeLen(b[p..])..]))
  {
    hide StartCodeLen, Find, Units, After;
    UnfoldUnits(b);
    var p := Find(b);
    var rest := if p == |b| then [] else After(b, p);
    TotalOfTwo(b[..p], rest);
    if p < |b| {
      UnfoldAfter(b);
    }
    assert [] + rest == rest;
  }

  lemma TotalOfTwo(first: Nal, units: seq<Nal>)
    ensures Total([first] + units) == |first| + Total(units)
    ensures Total([]) == 0
  {
    assert ([first] + units)[1..] == units;
  }

  /** A start code found too early costs bytes that no later unit brings back. */
  lemma {:induction false} EarlyCodeCostsBytes(s: seq<byte>, rest: seq<Piece>)
    requires forall piece :: piece in rest ==> piece.nal != []
    ensures var b := s + Join(rest);
      && Total(Units(b)) <= |s| + Total(Nals(rest))
      && (Find(b) < |s| ==> Total(Units(b)) < |s| + Total(Nals(rest)))
    decreases |s| + |Join(rest)|
  {
    hide StartCodeLen;
    var b := s + Join(rest);
    hide Units, Find, Join, After, Total, StartCode;
    var p := Find(b);
    UnfoldTotal(b);
    JoinNothing();
    TotalOfTwo([], []);
    if p < |b| {
      var n := StartCodeLen(b[p..]);
      if p + n <= |s| {
        assert b[p + n..] == s[p + n..] + Join(rest);
        EarlyCodeCostsBytes(s[p + n..], rest);
      } else {
        if p < |s| {
          Overlap(s, rest, p);
        } else {
          FoundAtJoin(s, rest);
        }
        CodeOfJoin(rest);
        TotalOfTwo(rest[0].nal, Nals(rest[1..]));
        assert b[p + n..] == rest[0].nal + Join(rest[1..]);
        EarlyCodeCostsBytes(rest[0].nal, rest[1..]);
      }
    } else if rest != [] {
      FoundAtJoin(s, rest);
    }
  }

  /** With a unit behind it the next start code is seen. */
  lemma FoundAtJoin(s: seq<byte>, rest: seq<Piece>)
    requires Find(s + Join(rest)) >= |s| && (rest != [] ==> rest[0].nal != [])
    ensures Find(s + Join(rest)) == |s|
    ensures rest != [] ==> |Join(rest)| > 3 && (s + Join(rest))[|s|..] == Join(rest)
  {
    var b := s + Join(rest);
    assert b[|s|..] == Join(rest);
    if rest != [] {
      CodeOfJoin(rest);
      if Find(b) > |s| {
        NothingBefore(b, |s|);
      }
    }
  }

  /** Cleanness is exactly what keeps start codes out of a unit. */
  lemma CleanMeansFoundBehind(nal: Nal, rest: seq<Piece>)
    requires nal != [] && (rest != [] ==> rest[0].nal != [])
    ensures Clean(nal, rest) <==> Find(nal + Join(rest)) >= |nal|
  {
    hide Clean;
    var p := Find(nal + Join(rest));
    if p < |nal| {
      CodeMeansNotClean(nal, rest, p);
    } else if !Clean(nal, rest) {
      NotCleanHasCode(nal, rest);
    }
  }

  lemma CodeMeansNotClean(nal: Nal, rest: seq<Piece>, j: nat)
    requires j < |nal| && j + 3 < |nal + Join(rest)| && StartCodeLen((nal + Join(rest))[j..]) > 0
    ensures !Clean(nal, rest)
  {
    var b := nal + Join(rest);
    var n := StartCodeLen(b[j..]);
    if j + n > |nal| {
      Overlap(nal, rest, j);
      assert b[j..][0] == nal[j];
    } else {
      var k := j + n - 3;
      assert b[j..][n - 3] == nal[k] && b[j..][n - 2] == nal[k + 1] && b[j..][n - 1] == nal[k + 2];
      if rest == [] && j + n == |nal| {
        assert b == nal && nal[|nal| - 4..] == b[j..] == [0, 0, 0, 1];
      }
    }
  }

  lemma NotCleanHasCode(nal: Nal, rest: seq<Piece>)
    requires nal != [] && !Clean(nal, rest) && (rest != [] ==> rest[0].nal != [])
    ensures Find(nal + Join(rest)) < |nal|
  {
    hide Join, CodeFree, Find, StartCodeLen;
    var end := if rest == [] then |nal| - 1 else |nal|;
    if !CodeFree(nal, end) {
      CodeInsideIsFound(nal, rest, end);
    } else if rest == [] {
      CodeAtEndIsFound(nal);
    } else {
      CodeAcrossIsFound(nal, rest);
    }
  }

  lemma FoundBy(b: seq<byte>, j: nat, n: nat)
    requires j < n && j + 3 < |b| && StartCodeLen(b[j..]) > 0
    ensures Find(b) < n
  {
    hide StartCodeLen;
    if Find(b) >= n {
      NothingBefore(b, j);
    }
  }

  lemma CodeInsideIsFound(nal: Nal, rest: seq<Piece>, end: int)
    requires end <= |nal| && !CodeFree(nal, end) && (rest == [] ==> end < |nal|)
    ensures Find(nal + Join(rest)) < |nal|
  {
    hide Join, Find;
    var b, j := nal + Join(rest), CodeInside(nal, end);
    if rest != [] {
      CodeOfJoin(rest);
    }
    assert b[j..][0] == 0 && b[j..][1] == 0 && b[j..][2] == 1;
    FoundBy(b, j, |nal|);
  }

  lemma CodeAtEndIsFound(nal: Nal)
    requires |nal| >= 4 && nal[|nal| - 4..] == [0, 0, 0, 1]
    ensures Find(nal + Join([])) < |nal|
  {
    hide Find, Join;
    JoinNothing();
    assert nal + Join([]) == nal;
    LongCode(nal[|nal| - 4..]);
    FoundBy(nal, |nal| - 4, |nal|);
  }

  lemma LongCode(b: seq<byte>)
    requires b == [0, 0, 0, 1]
    ensures StartCodeLen(b) > 0
  {
  }

  lemma CodeAcrossIsFound(nal: Nal, rest: seq<Piece>)
    requires nal != [] && rest != [] && !rest[0].long && nal[|nal| - 1] == 0
    ensures Find(nal + Join(rest)) < |nal|
  {
    hide Join, Find;
    var b, j := nal + Join(rest), |nal| - 1;
    JoinStartsShort(rest);
    assert b[j..][0] == 0 && b[j..][1] == 0 && b[j..][2] == 0 && b[j..][3] == 1;
    FoundBy(b, j, |nal|);
  }

  ghost function CodeInside(nal: Nal, end: int): (j: nat)
    requires end <= |nal| && !CodeFree(nal, end)
    ensures j + 3 <= end && nal[j] == 0 && nal[j + 1] == 0 && nal[j + 2] == 1
  {
    var j :| 0 <= j && j + 3 <= end && nal[j] == 0 && nal[j + 1] == 0 && nal[j + 2] == 1;
    j
  }

  lemma JoinNothing()
    ensures Join([]) == []
  {
  }

  lemma JoinStartsShort(rest: seq<Piece>)
    requires rest != [] && !rest[0].long
    ensures |Join(rest)| >= 3 && Join(rest)[0] == 0 && Join(rest)[1] == 0 && Join(rest)[2] == 1
  {
  }

  lemma FirstUnit(nal: Nal, rest: seq<Piece>)
    requires nal != [] && (rest != [] ==> rest[0].nal != []) && Find(nal + Join(rest)) >= |nal|
    ensures Units(nal + Join(rest)) == [nal] + if rest == [] then [] else Units(rest[0].nal + Join(rest[1..]))
  {
    hide StartCodeLen, Find, Units, Join, After, StartCode;
    var b := nal + Join(rest);
    FoundAtJoin(nal, rest);
    UnfoldUnits(b);
    assert b[..|nal|] == nal;
    if rest == [] {
      JoinNothing();
    } else {
      CodeOfJoin(rest);
      UnfoldAfter(b);
      assert b[|nal| + StartCodeLen(b[|nal|..])..] == rest[0].nal + Join(rest[1..]);
    }
  }

  lemma {:induction false} UnitsOfJoin(nal: Nal, rest: seq<Piece>)
    ensures Units(nal + Join(rest)) == [nal] + Nals(rest) <==> Clean(nal, rest) && AllClean(rest)
    decreases |rest|
  {
    hide StartCodeLen, Clean, Find, Units, Join, Total;
    var b := nal + Join(rest);
    if nal == [] || exists piece :: piece in rest && piece.nal == [] {
      EmptyIsLost(nal, rest);
    } else {
      CleanMeansFoundBehind(nal, rest);
      if Find(b) < |nal| {
        EarlyCodeCostsBytes(nal, rest);
        TotalOfTwo(nal, Nals(rest));
      } else {
        FirstUnit(nal, rest);
        if rest != [] {
          UnitsOfJoin(rest[0].nal, rest[1..]);
          assert ([nal] + Units(rest[0].nal + Join(rest[1..])))[1..] == Units(rest[0].nal + Join(rest[1..]));
          assert ([nal] + Nals(rest))[1..] == Nals(rest);
        }
      }
    }
  }

  lemma {:induction false} EmptyInNals(pieces: seq<Piece>, piece: Piece)
    requires piece in pieces && piece.nal == []
    ensures [] in Nals(pieces) && !AllClean(pieces)
  {
    if pieces[0] != piece {
      EmptyInNals(pieces[1..], piece);
    }
  }

  lemma EmptyIsLost(nal: Nal, rest: seq<Piece>)
    requires nal == [] || exists piece :: piece in rest && piece.nal == []
    ensures Units(nal + Join(rest)) != [nal] + Nals(rest)
    ensures !(Clean(nal, rest) && AllClean(rest))
  {
    NoEmptyUnit(nal + Join(rest), 0);
    if nal == [] {
      assert nal in [nal] + Nals(rest);
    } else {
      var piece :| piece in rest && piece.nal == [];
      EmptyInNals(rest, piece);
    }
  }

  /**
   Splitting undoes joining, whatever the mix of start codes, exactly when every unit is clean.
   */
  lemma SplitUndoesJoin(pieces: seq<Piece>)
    requires pieces != []
    ensures Split(Join(pieces)) == Nals(pieces) <==> AllClean(pieces)
  {
    hide StartCodeLen, Clean;
    var buf := Join(pieces);
    var nal, rest := pieces[0].nal, pieces[1..];
    assert buf[0..] == buf;
    CodeOfJoin(pieces);
    UnitsOfJoin(nal, rest);
    if |buf| <= 3 {
      assert nal == [];
      EmptyIsLost(nal, rest);
    } else {
      assert After(buf, 0) == Units(nal + Join(rest));
    }
  }

  /** A unit as an encoder makes it: not empty, without 00 00 01, not ending in zero (Annex B, section B.1.1). */
  predicate Emulated(nal: Nal) { nal != [] && CodeFree(nal, |nal|) && nal[|nal| - 1] != 0 }

  lemma {:induction false} EncoderUnitsSurvive(pieces: seq<Piece>)
    requires pieces != [] && forall piece :: piece in pieces ==> Emulated(piece.nal)
    ensures Split(Join(pieces)) == Nals(pieces)
  {
    hide Split, Join;
    EmulatedIsClean(pieces);
    SplitUndoesJoin(pieces);
  }

  lemma {:induction false} EmulatedIsClean(pieces: seq<Piece>)
    requires forall piece :: piece in pieces ==> Emulated(piece.nal)
    ensures AllClean(pieces)
  {
    if pieces != [] {
      var nal := pieces[0].nal;
      assert Emulated(nal);
      EmulatedIsClean(pieces[1..]);
      if |nal| >= 4 {
        var k, tail := |nal| - 4, nal[|nal| - 4..];
        assert tail[1] == nal[k + 1] && tail[2] == nal[k + 1 + 1] && tail[3] == nal[k + 1 + 2];
      }
    }
  }

  /** What comes before the first start code is dropped. */
  lemma LeadingBytesAreDropped(lead: seq<byte>, pieces: seq<Piece>)
    requires pieces != [] && AllClean(pieces) && (lead != [] ==> Clean(lead, pieces))
    ensures Split(lead + Join(pieces)) == Nals(pieces)
  {
    hide StartCodeLen, Clean, Find, After, Units, Join, Nals, Split, AllClean;
    AllNals(pieces);
    FirstIsNotEmpty(pieces);
    if lead != [] {
      CleanMeansFoundBehind(lead, pieces);
    }
    FoundAtJoin(lead, pieces);
    UnitsBehind(lead, pieces);
    UnitsOfJoin(pieces[0].nal, pieces[1..]);
    SplitsAt(lead + Join(pieces), |lead|);
  }

  lemma SplitsAt(buf: seq<byte>, p: nat)
    requires p < |buf| && Find(buf) == p && StartCodeLen(buf[p..]) > 0 && After(buf, p) != []
    ensures Split(buf) == After(buf, p)
  {
    hide StartCodeLen, Find, After;
  }

  lemma UnitsBehind(lead: seq<byte>, pieces: seq<Piece>)
    requires pieces != [] && pieces[0].nal != []
    ensures var buf := lead + Join(pieces);
      |lead| < |buf| && StartCodeLen(buf[|lead|..]) > 0
      && After(buf, |lead|) == Units(pieces[0].nal + Join(pieces[1..]))
  {
    hide StartCodeLen, Join, UnitsFrom;
    var buf := lead + Join(pieces);
    CodeOfJoin(pieces);
    assert buf[|lead|..] == Join(pieces);
    assert buf[|lead| + StartCodeLen(buf[|lead|..])..] == pieces[0].nal + Join(pieces[1..]);
  }

  lemma AllNals(pieces: seq<Piece>)
    requires pieces != [] && AllClean(pieces)
    ensures Nals(pieces) == [pieces[0].nal] + Nals(pieces[1..])
    ensures Clean(pieces[0].nal, pieces[1..]) && AllClean(pieces[1..])
  {
  }

  lemma FirstIsNotEmpty(pieces: seq<Piece>)
    requires pieces != [] && AllClean(pieces)
    ensures pieces[0].nal != []
  {
    hide CodeFree;
  }

  /** Without a start code the whole buffer is one unit. */
  lemma NoCodeIsOneUnit(buf: seq<byte>)
    requires buf != [] && Clean(buf, [])
    ensures Split(buf) == [buf]
  {
    hide Clean;
    CleanMeansFoundBehind(buf, []);
    assert buf + Join([]) == buf;
  }

  // ---- selecting and ordering units

  function Filter<T>(s: seq<T>, keep: T -> bool): seq<T>
  {
    if s == [] then []
    else
      var front, last := s[..|s| - 1], s[|s| - 1];
      Filter(front, keep) + if keep(last) then [last] else []
  }

  lemma FilterOneMore<T>(s: seq<T>, keep: T -> bool, i: nat)
    requires i < |s|
    ensures Filter(s[..i + 1], keep) == Filter(s[..i], keep) + if keep(s[i]) then [s[i]] else []
  {
    assert s[..i + 1][..i] == s[..i];
  }

  lemma {:induction false} FilterAppend<T>(a: seq<T>, b: seq<T>, keep: T -> bool)
    ensures Filter(a + b, keep) == Filter(a, keep) + Filter(b, keep)
    decreases |b|
  {
    if b == [] {
      assert a + b == a;
    } else {
      assert (a + b)[..|a + b| - 1] == a + b[..|b| - 1];
      FilterAppend(a, b[..|b| - 1], keep);
    }
  }

  /** Filtering what a first filter kept, when the second keeps nothing the first does not. */
  lemma {:induction false} FilterFilter<T>(s: seq<T>, outer: T -> bool, keep: T -> bool)
    requires forall x :: x in s && keep(x) ==> outer(x)
    ensures Filter(Filter(s, outer), keep) == Filter(s, keep)
  {
    if s != [] {
      var front, last := s[..|s| - 1], s[|s| - 1];
      FilterFilter(front, outer, keep);
      assert last in s;
      if outer(last) {
        FilterAppend(Filter(front, outer), [last], keep);
        assert [last][..0] == [];
      } else {
        assert Filter(front, outer) + [] == Filter(front, outer);
      }
    }
  }

  lemma {:induction false} FilterNone<T>(s: seq<T>, outer: T -> bool, keep: T -> bool)
    requires forall x :: x in s && keep(x) ==> !outer(x)
    ensures Filter(Filter(s, outer), keep) == []
  {
    if s != [] {
      var front, last := s[..|s| - 1], s[|s| - 1];
      FilterNone(front, outer, keep);
      assert last in s;
      if outer(last) {
        FilterAppend(Filter(front, outer), [last], keep);
        assert [last][..0] == [];
      } else {
        assert Filter(front, outer) + [] == Filter(front, outer);
      }
    }
  }

  lemma {:induction false} FilterIn<T>(s: seq<T>, keep: T -> bool, x: T)
    ensures x in Filter(s, keep) <==> x in s && keep(x)
  {
    if s != [] {
      FilterIn(s[..|s| - 1], keep, x);
      assert s == s[..|s| - 1] + [s[|s| - 1]];
    }
  }

  /** The two codecs: which units are kept, which of them are slices, and which parameter set they are. */
  datatype Codec = H264 | H265

  function UnitType(c: Codec, n: Nal): nat
    requires n != []
  {
    match c
    case H264 => n[0] % 32
    case H265 => n[0] / 2 % 64
  }

  predicate Kept(c: Codec, n: Nal) { |n| >= if c == H264 then 1 else 2 }

  predicate Slice(c: Codec, n: Nal)
  {
    Kept(c, n) &&
    var t := UnitType(c, n);
    match c
    case H264 => 1 <= t <= 5
    case H265 => t <= 9 || 16 <= t <= 21
  }

  predicate NonSlice(c: Codec, n: Nal) { Kept(c, n) && !Slice(c, n) }

  /** All other units first, then the slices, each in the order they came in. */
  function Reordered(c: Codec, nalus: seq<Nal>): seq<Nal>
  {
    Filter(nalus, n => NonSlice(c, n)) + Filter(nalus, n => Slice(c, n))
  }

  /** ReorderH264NALsForAccessUnit and ReorderH265NALsForAccessUnit. */
  method Reorder(c: Codec, nalus: seq<Nal>) returns (out: seq<Nal>)
    ensures out == Reordered(c, nalus)
  {
    hide Slice, NonSlice;
    var nonSlice: seq<Nal>, slice: seq<Nal> := [], [];
    for i := 0 to |nalus|
      invariant nonSlice == Filter(nalus[..i], n => NonSlice(c, n))
      invariant slice == Filter(nalus[..i], n => Slice(c, n))
    {
      FilterOneMore(nalus, n => NonSlice(c, n), i);
      FilterOneMore(nalus, n => Slice(c, n), i);
      SliceOrNot(c, nalus[i]);
      if Kept(c, nalus[i]) {
        if Slice(c, nalus[i]) {
          slice := slice + [nalus[i]];
        } else {
          nonSlice := nonSlice + [nalus[i]];
        }
      }
    }
    assert nalus[..|nalus|] == nalus;
    return nonSlice + slice;
  }

  lemma SliceOrNot(c: Codec, n: Nal)
    ensures Slice(c, n) ==> Kept(c, n)
    ensures NonSlice(c, n) <==> Kept(c, n) && !Slice(c, n)
  {
  }

  /** Any choice among the non-slices, or among the slices, gives the same units in the same order. */
  lemma ReorderIsStable(c: Codec, nalus: seq<Nal>, choose: Nal -> bool)
    ensures (forall n :: n in nalus && choose(n) ==> NonSlice(c, n)) ==>
      Filter(Reordered(c, nalus), choose) == Filter(nalus, choose)
    ensures (forall n :: n in nalus && choose(n) ==> Slice(c, n)) ==>
      Filter(Reordered(c, nalus), choose) == Filter(nalus, choose)
  {
    hide Slice, Kept;
    var others, slices := Filter(nalus, n => NonSlice(c, n)), Filter(nalus, n => Slice(c, n));
    FilterAppend(others, slices, choose);
    if forall n :: n in nalus && choose(n) ==> NonSlice(c, n) {
      FilterFilter(nalus, n => NonSlice(c, n), choose);
      FilterNone(nalus, n => Slice(c, n), choose);
    } else if forall n :: n in nalus && choose(n) ==> Slice(c, n) {
      FilterFilter(nalus, n => Slice(c, n), choose);
      FilterNone(nalus, n => NonSlice(c, n), choose);
    }
  }

  lemma {:induction false} PartitionKeepsAll(c: Codec, nalus: seq<Nal>)
    ensures multiset(Reordered(c, nalus)) == multiset(Filter(nalus, n => Kept(c, n)))
  {
    hide Slice, Kept;
    if nalus != [] {
      PartitionKeepsAll(c, nalus[..|nalus| - 1]);
      SliceOrNot(c, nalus[|nalus| - 1]);
    }
  }

  /**
   Reordering is a stable partition of the kept units: no unit is lost or added, and no slice comes before
   another unit, so if there is a slice the last unit is one. Doing it again changes nothing.
   */
  lemma ReorderPartitions(c: Codec, nalus: seq<Nal>)
    ensures multiset(Reordered(c, nalus)) == multiset(Filter(nalus, n => Kept(c, n)))
    ensures forall i, j :: 0 <= i < j < |Reordered(c, nalus)| && Slice(c, Reordered(c, nalus)[i]) ==>
      Slice(c, Reordered(c, nalus)[j])
    ensures Reordered(c, Reordered(c, nalus)) == Reordered(c, nalus)
  {
    hide Slice, Kept, Filter;
    PartitionKeepsAll(c, nalus);
    var others, slices := Filter(nalus, n => NonSlice(c, n)), Filter(nalus, n => Slice(c, n));
    forall i, j | 0 <= i < j < |others + slices| && Slice(c, (others + slices)[i])
      ensures Slice(c, (others + slices)[j])
    {
      var a, b := (others + slices)[i], (others + slices)[j];
      FilterIn(nalus, n => NonSlice(c, n), a);
      FilterIn(nalus, n => Slice(c, n), b);
    }
    ReorderIsStable(c, nalus, n => NonSlice(c, n));
    ReorderIsStable(c, nalus, n => Slice(c, n));
  }

  // ---- parameter sets

  predicate IsParameterSet(c: Codec, kind: nat, n: Nal) { Kept(c, n) && UnitType(c, n) == kind }

  /** The last unit of a kind, or nothing. */
  function LastOf(c: Codec, kind: nat, nalus: seq<Nal>): Nal
  {
    var found := Filter(nalus, n => IsParameterSet(c, kind, n));
    if found == [] then [] else found[|found| - 1]
  }

  /** A unit of the kind with no later one of it, or nothing if there is none at all. */
  lemma {:induction false} LastOfMeaning(c: Codec, kind: nat, nalus: seq<Nal>)
    ensures var last := LastOf(c, kind, nalus);
      if last == [] then forall n :: n in nalus ==> !IsParameterSet(c, kind, n)
      else
        exists i :: 0 <= i < |nalus| && nalus[i] == last && IsParameterSet(c, kind, last)
          && forall j :: i < j < |nalus| ==> !IsParameterSet(c, kind, nalus[j])
  {
    hide LastOf, UnitType;
    var m := |nalus|;
    if m == 0 {
      NoParameters(c);
    } else {
      var front, n := nalus[..m - 1], nalus[m - 1];
      LastOneMore(c, kind, nalus, m - 1);
      assert nalus[..m] == nalus && nalus == front + [n];
      LastOfMeaning(c, kind, front);
      if !IsParameterSet(c, kind, n) && LastOf(c, kind, front) != [] {
        var i :| 0 <= i < m - 1 && front[i] == LastOf(c, kind, front)
          && forall j :: i < j < m - 1 ==> !IsParameterSet(c, kind, front[j]);
        assert nalus[i] == front[i] && forall j :: i < j < m - 1 ==> nalus[j] == front[j];
      }
    }
  }

  lemma LastOneMore(c: Codec, kind: nat, nalus: seq<Nal>, i: nat)
    requires i < |nalus|
    ensures LastOf(c, kind, nalus[..i + 1]) ==
      if IsParameterSet(c, kind, nalus[i]) then nalus[i] else LastOf(c, kind, nalus[..i])
  {
    hide IsParameterSet;
    FilterOneMore(nalus, n => IsParameterSet(c, kind, n), i);
  }

  /** ExtractH264Params: the last sequence and picture parameter set. */
  method ExtractH264Params(nalus: seq<Nal>) returns (sps: Nal, pps: Nal)
    ensures sps == LastOf(H264, 7, nalus) && pps == LastOf(H264, 8, nalus)
  {
    hide LastOf;
    sps, pps := [], [];
    NoParameters(H264);
    for i := 0 to |nalus|
      invariant sps == LastOf(H264, 7, nalus[..i]) && pps == LastOf(H264, 8, nalus[..i])
    {
      LastOneMore(H264, 7, nalus, i);
      LastOneMore(H264, 8, nalus, i);
      var n := nalus[i];
      if |n| >= 1 {
        match n[0] % 32 {
          case 7 => sps := n;
          case 8 => pps := n;
          case _ =>
        }
      }
    }
    assert nalus[..|nalus|] == nalus;
  }

  /** ExtractH265Params: the last video, sequence and picture parameter set. */
  method ExtractH265Params(nalus: seq<Nal>) returns (vps: Nal, sps: Nal, pps: Nal)
    ensures vps == LastOf(H265, 32, nalus) && sps == LastOf(H265, 33, nalus) && pps == LastOf(H265, 34, nalus)
  {
    hide LastOf;
    vps, sps, pps := [], [], [];
    NoParameters(H265);
    for i := 0 to |nalus|
      invariant vps == LastOf(H265, 32, nalus[..i])
      invariant sps == LastOf(H265, 33, nalus[..i]) && pps == LastOf(H265, 34, nalus[..i])
    {
      LastOneMore(H265, 32, nalus, i);
      LastOneMore(H265, 33, nalus, i);
      LastOneMore(H265, 34, nalus, i);
      var n := nalus[i];
      if |n| >= 2 {
        match n[0] / 2 % 64 {
          case 32 => vps := n;
          case 33 => sps := n;
          case 34 => pps := n;
          case _ =>
        }
      }
    }
    assert nalus[..|nalus|] == nalus;
  }

  lemma NoParameters(c: Codec)
    ensures forall kind :: LastOf(c, kind, []) == []
  {
  }

  /** Parameter sets are the same whether they are extracted before or after the units are put in order. */
  lemma ExtractCommutesWithReorder(c: Codec, kind: nat, nalus: seq<Nal>)
    requires kind in (if c == H264 then {7, 8} else {32, 33, 34})
    ensures LastOf(c, kind, Reordered(c, nalus)) == LastOf(c, kind, nalus)
  {
    hide Filter, Reordered;
    ReorderIsStable(c, nalus, n => IsParameterSet(c, kind, n));
  }

  // ---- the H.265 filter, which works in place

  predicate Decodable(n: Nal)
  {
    |n| >= 2 && UnitType(H265, n) < 48 && n[0] % 2 * 32 + n[1] / 8 == 0
  }

  /** FilterH265DecodableNALs: the decodable units are moved to the front, in order; the result is that front. */
  method FilterH265DecodableNals(nalus: array<Nal>) returns (kept: nat)
    modifies nalus
    ensures kept <= nalus.Length
    ensures nalus[..kept] == Filter(old(nalus[..]), Decodable)
    ensures nalus[kept..] == old(nalus[kept..])
  {
    kept := 0;
    ghost var was := nalus[..];
    for i := 0 to nalus.Length
      invariant kept <= i
      invariant nalus[..kept] == Filter(was[..i], Decodable)
      invariant nalus[i..] == was[i..]
      invariant forall k :: kept <= k < nalus.Length ==> nalus[k] == was[k]
    {
      FilterOneMore(was, Decodable, i);
      var n := nalus[i];
      assert n == was[i];
      if |n| < 2 {
        continue;
      }
      var t := n[0] / 2 % 64;
      if t >= 48 {
        continue;
      }
      var layerId := n[0] % 2 * 32 + n[1] / 8;
      if layerId != 0 {
        continue;
      }
      nalus[kept] := n;
      assert nalus[..kept + 1] == nalus[..kept] + [n];
      kept := kept + 1;
    }
    assert was[..nalus.Length] == was;
  }

  // ---- the headers, as the standards lay them out

  /** Section 7.3.1 of ITU-T H.264: one bit, two bits of reference importance, five bits of type. */
  function AvcNal(forbidden: nat, importance: nat, kind: nat, body: seq<byte>): Nal
    requires forbidden < 2 && importance < 4 && kind < 32
  {
    [forbidden * 0x80 + importance * 0x20 + kind] + body
  }

  /** Section 7.3.1.2 of ITU-T H.265: one bit, six bits of type, six of layer, three of temporal layer. */
  function HevcNal(forbidden: nat, kind: nat, layer: nat, temporal: nat, body: seq<byte>): Nal
    requires forbidden < 2 && kind < 64 && layer < 64 && temporal < 8
  {
    [forbidden * 0x80 + kind * 2 + layer / 0x20, layer % 0x20 * 8 + temporal] + body
  }

  /** In H.264 the types 1 to 5 are slices and come last, all others before them. */
  lemma AvcKinds(forbidden: nat, importance: nat, kind: nat, body: seq<byte>)
    requires forbidden < 2 && importance < 4 && kind < 32
    ensures var n := AvcNal(forbidden, importance, kind, body);
      && UnitType(H264, n) == kind && Kept(H264, n)
      && (Slice(H264, n) <==> kind in {1, 2, 3, 4, 5}) && (NonSlice(H264, n) <==> kind !in {1, 2, 3, 4, 5})
  {
  }

  /** In H.265 the types 0 to 9 and 16 to 21 are slices; the filter lets types below 48 of the base layer pass. */
  lemma HevcKinds(forbidden: nat, kind: nat, layer: nat, temporal: nat, body: seq<byte>)
    requires forbidden < 2 && kind < 64 && layer < 64 && temporal < 8
    ensures var n := HevcNal(forbidden, kind, layer, temporal, body);
      && UnitType(H265, n) == kind && Kept(H265, n)
      && (Slice(H265, n) <==> kind <= 9 || 16 <= kind <= 21)
      && (NonSlice(H265, n) <==> 10 <= kind <= 15 || kind >= 22)
      && (Decodable(n) <==> kind < 48 && layer == 0)
  {
    HevcFirstByte(forbidden, kind, layer / 0x20);
    HevcSecondByte(layer % 0x20, temporal);
    assert layer / 0x20 * 0x20 + layer % 0x20 == layer;
  }

  lemma HevcFirstByte(forbidden: nat, kind: nat, high: nat)
    requires forbidden < 2 && kind < 64 && high < 2
    ensures var b := forbidden * 0x80 + kind * 2 + high; b < 0x100 && b / 2 % 64 == kind && b % 2 == high
  {
  }

  lemma HevcSecondByte(low: nat, temporal: nat)
    requires low < 32 && temporal < 8
    ensures low * 8 + temporal < 0x100 && (low * 8 + temporal) / 8 == low
  {
  }

  /** Every unit of two bytes or more has such a header; shorter ones are dropped in H.265, empty ones in H.264. */
  lemma EveryUnitHasAHeader(n: Nal)
    ensures n != [] ==>
      exists forbidden: nat, importance: nat, kind: nat :: forbidden < 2 && importance < 4 && kind < 32
        && n == AvcNal(forbidden, importance, kind, n[1..])
    ensures |n| >= 2 ==>
      exists forbidden: nat, kind: nat, layer: nat, temporal: nat :: forbidden < 2 && kind < 64 && layer < 64
        && temporal < 8 && n == HevcNal(forbidden, kind, layer, temporal, n[2..])
    ensures n == [] ==> !Kept(H264, n)
    ensures |n| < 2 ==> !Kept(H265, n) && !Decodable(n)
  {
    if n != [] {
      AvcHeaderOf(n);
    }
    if |n| >= 2 {
      HevcHeaderOf(n);
    }
  }

  lemma AvcHeaderOf(n: Nal)
    requires n != []
    ensures n == AvcNal(n[0] / 0x80, n[0] / 0x20 % 4, n[0] % 32, n[1..])
  {
    BitsOfByte(n[0]);
  }

  lemma HevcHeaderOf(n: Nal)
    requires |n| >= 2
    ensures n == HevcNal(n[0] / 0x80, n[0] / 2 % 64, n[0] % 2 * 0x20 + n[1] / 8, n[1] % 8, n[2..])
  {
    BitsOfByte(n[0]);
    LayerBits(n[0] % 2, n[1] / 8);
  }

  lemma BitsOfByte(b: byte)
    ensures (b / 0x80) * 0x80 + (b / 0x20 % 4) * 0x20 + b % 32 == b
    ensures (b / 0x80) * 0x80 + (b / 2 % 64) * 2 + b % 2 == b
  {
  }

  lemma LayerBits(high: nat, low: nat)
    requires high < 2 && low < 32
    ensures (high * 0x20 + low) / 0x20 == high && (high * 0x20 + low) % 0x20 == low
  {
  }

  /** No slice of the base layer is lost in the filter, nor any other unit below type 48. */
  lemma FilterKeepsBaseLayer(nalus: seq<Nal>, kind: nat, layer: nat, temporal: nat, body: seq<byte>)
    requires kind < 64 && layer < 64 && temporal < 8
    ensures var n := HevcNal(0, kind, layer, temporal, body);
      n in Filter(nalus, Decodable) <==> n in nalus && kind < 48 && layer == 0
  {
    hide Decodable;
    HevcKinds(0, kind, layer, temporal, body);
    FilterIn(nalus, Decodable, HevcNal(0, kind, layer, temporal, body));
  }

  /** Filtering first leaves parameter sets of the base layer alone, so they come out the same. */
  lemma FilterKeepsParameters(kind: nat, nalus: seq<Nal>)
    requires kind in {32, 33, 34}
    requires forall n :: n in nalus && IsParameterSet(H265, kind, n) ==> n[0] % 2 * 32 + n[1] / 8 == 0
    ensures LastOf(H265, kind, Filter(nalus, Decodable)) == LastOf(H265, kind, nalus)
  {
    FilterFilter(nalus, Decodable, n => IsParameterSet(H265, kind, n));
  }
}
