/** What `read_content_chunked` (src/httplib.h:891-924) makes of a stream that is cut off or
    malformed: when it fails, when it throws, and when it reports success although data is
    missing. */
module ChunkedErrors {
  import opened Prelude
  import opened Numerals
  import opened Chunked

  // ---------- a stream that is cut off ----------

  /** The cut is behind the CR that follows a chunk's data, in front of its LF. */
  predicate Torn(chunks: seq<seq<byte>>, t: nat) {
    chunks != [] &&
    var n := |EncodeChunk(chunks[0])|;
    t == n - 1 || (t >= n && Torn(chunks[1..], t - n))
  }

  /** How many chunks arrive with everything around them. */
  function Whole(chunks: seq<seq<byte>>, t: nat): (k: nat)
    ensures k <= |chunks|
  {
    if chunks == [] || t < |EncodeChunk(chunks[0])| then 0
    else 1 + Whole(chunks[1..], t - |EncodeChunk(chunks[0])|)
  }

  lemma CutJoin(a: seq<byte>, b: seq<byte>, t: nat)
    requires t <= |a| + |b|
    ensures (a + b)[..t] == if t <= |a| then a[..t] else a + b[..t - |a|]
  {
  }

  lemma {:induction false} LineWhole(s: seq<byte>)
    requires LF !in s
    ensures Line(s) == s
  {
    if s != [] {
      LineWhole(s[1..]);
    }
  }

  lemma {:induction false} DigitsOnly(s: seq<byte>)
    requires AllDigits(s, 16)
    ensures DigitCount(s, 16) == |s|
  {
    DigitCountIs(s, [], 16);
    assert s + [] == s;
  }

  lemma {:induction false} NumberPositive(s: seq<byte>)
    requires AllDigits(s, 16) && s != [] && DigitValue(s[0], 16).value > 0
    ensures Number(s, 16) > 0
  {
    if |s| > 1 {
      assert s[..|s| - 1][0] == s[0];
      NumberPositive(s[..|s| - 1]);
    }
  }

  lemma NumberGrows(s: seq<byte>, k: nat)
    requires AllDigits(s, 16) && k <= |s|
    ensures AllDigits(s[..k], 16) && Number(s[..k], 16) <= Number(s, 16)
    decreases |s| - k
  {
    if k < |s| {
      assert s[..k + 1][..k] == s[..k];
      NumberGrows(s, k + 1);
    } else {
      assert s[..k] == s;
    }
  }

  // --- inside a size line ---

  lemma NoPrefix(n: nat, s: seq<byte>)
    requires s <= HexOf(n)
    ensures !Prefixed(s)
  {
    NumeralShape(n, 16);
    assert 'x' !in DIGITS && 'X' !in DIGITS;
    if |s| > 1 {
      assert s[1] == HexOf(n)[1] && HexOf(n)[1] in DIGITS;
    }
  }

  lemma ConvertedDigits(s: seq<byte>)
    requires AllDigits(s, 16) && s != [] && Number(s, 16) <= INT_MAX
    ensures Converted(s, false) == Value(Number(s, 16))
  {
    DigitsOnly(s);
    assert s[..|s|] == s;
  }

  lemma FrontPositive(d: seq<byte>, k: nat)
    requires AllDigits(d, 16) && 0 < k <= |d| && DigitValue(d[0], 16).value > 0
    ensures AllDigits(d[..k], 16) && Number(d[..k], 16) > 0
  {
    NumberGrows(d, k);
    assert d[..k][0] == d[0];
    NumberPositive(d[..k]);
  }

  lemma LeadingDigit(n: nat)
    ensures AllDigits(HexOf(n), 16) && Number(HexOf(n), 16) == n && (DigitValue(HexOf(n)[0], 16).value > 0 <==> n > 0)
  {
    NumeralReads(n, 16);
    NumeralShape(n, 16);
  }

  lemma SameSign(n: nat, s: seq<byte>)
    requires s <= HexOf(n) && s != []
    ensures AllDigits(s, 16) && Number(s, 16) <= n && (Number(s, 16) > 0 <==> n > 0)
  {
    var d := HexOf(n);
    LeadingDigit(n);
    assert s == d[..|s|];
    NumberGrows(d, |s|);
    if n > 0 {
      FrontPositive(d, |s|);
    }
  }

  lemma PlainPrefix(n: nat, s: seq<byte>)
    requires s <= HexOf(n)
    ensures LF !in s && NUL !in s
  {
    HexIsPlain(n);
    assert forall c | c in s :: c in HexOf(n);
  }

  lemma DigitsCut(n: nat, s: seq<byte>)
    requires n <= INT_MAX && s <= HexOf(n) && s != []
    ensures Stoi16(s).Value? && Stoi16(s).n >= 0
  {
    SameSign(n, s);
    NoPrefix(n, s);
    StoiOfDigits(s);
    ConvertedDigits(s);
  }

  /** A size line of which only the beginning s arrives. */
  lemma SizeLineEnds(s: seq<byte>, out: seq<byte>)
    requires s != [] && Line(s) == s && CStr(s) == s && Stoi16(s).Value? && Stoi16(s).n >= 0
    ensures Decode(s, out) == Done(false, out, [])
  {
    assert s[|s|..] == [];
  }

  lemma SizeCut(n: nat, j: nat, out: seq<byte>)
    requires n <= INT_MAX && 0 < j <= |HexOf(n)| + 2
    ensures Decode((HexOf(n) + CRLF)[..j], out) == Done(false, out, [])
  {
    var s := (HexOf(n) + CRLF)[..j];
    var digits := HexOf(n);
    if j <= |digits| {
      assert s == digits[..j];
      DigitsCut(n, s);
      PlainPrefix(n, s);
      LineWhole(s);
      CStrWhole(s);
    } else if j == |digits| + 1 {
      assert s == digits + [CR];
      HexIsPlain(n);
      LineWhole(s);
      CStrWhole(s);
      StoiOfHex(n, [CR]);
    } else {
      assert s == digits + CRLF && s == digits + CRLF + [];
      LineOfSize(n, []);
      HexIsPlain(n);
      LineOf(digits, []);
    }
    SizeLineEnds(s, out);
  }

  // --- inside a chunk ---

  lemma BodyCut(chunk: seq<byte>, j: nat, out: seq<byte>)
    requires 0 < |chunk| <= INT_MAX && j < |chunk| + 2
    ensures Decode(HexOf(|chunk|) + CRLF + (chunk + CRLF)[..j], out) == Done(j == |chunk| + 1, out, [])
  {
    var n, body := |chunk|, (chunk + CRLF)[..j];
    var s := HexOf(n) + CRLF + body;
    LineOfSize(n, body);
    HexIsPlain(n);
    LineOf(HexOf(n), body);
    assert s[|HexOf(n) + CRLF|..] == body;
    BodyEnds(chunk, body, out);
  }

  lemma BodyEnds(chunk: seq<byte>, body: seq<byte>, out: seq<byte>)
    requires chunk != [] && |body| < |chunk| + 2 && body <= chunk + CRLF
    ensures DecodeChunk(body, |chunk|, out) == Done(|body| == |chunk| + 1, out, [])
  {
    var n := |chunk|;
    if |body| == n + 1 {
      assert body[n..] == [CR];
      LineWhole([CR]);
      CStrWhole([CR]);
      assert body[n + 1..] == [];
    } else if |body| == n {
      assert body[n..] == [];
    }
  }

  lemma ChunkCut(chunk: seq<byte>, t: nat, out: seq<byte>)
    requires 0 < |chunk| <= INT_MAX && t < |EncodeChunk(chunk)|
    ensures Decode(EncodeChunk(chunk)[..t], out) == Done(t == |EncodeChunk(chunk)| - 1, out, [])
  {
    var head := HexOf(|chunk|) + CRLF;
    Assoc(head, chunk, CRLF);
    CutJoin(head, chunk + CRLF, t);
    if 0 < t <= |head| {
      SizeCut(|chunk|, t, out);
    } else if t > |head| {
      BodyCut(chunk, t - |head|, out);
    }
  }

  lemma LastChunkCut(t: nat, out: seq<byte>)
    requires t < |EncodeChunk([])|
    ensures Decode(EncodeChunk([])[..t], out) == Done(false, out, [])
  {
    var head := HexOf(0) + CRLF;
    assert EncodeChunk([]) == head + CRLF;
    if 0 < t <= |head| {
      assert EncodeChunk([])[..t] == head[..t];
      SizeCut(0, t, out);
    } else if t > |head| {
      assert EncodeChunk([])[..t] == head + [CR];
      LineOfSize(0, [CR]);
      HexIsPlain(0);
      LineOf(HexOf(0), [CR]);
      assert (head + [CR])[|head|..] == [CR];
      LineWhole([CR]);
      CStrWhole([CR]);
    }
  }

  /** What a stream cut off behind t bytes is read as. */
  ghost predicate ReadsAs(chunks: seq<seq<byte>>, t: nat, out: seq<byte>)
    requires t <= |Emit(chunks)|
  {
    Decode(Emit(chunks)[..t], out) == Done(Torn(chunks, t), out + Concat(chunks[..Whole(chunks, t)]), [])
  }

  lemma CutHere(chunks: seq<seq<byte>>, t: nat, out: seq<byte>)
    requires chunks != [] && 0 < |chunks[0]| <= INT_MAX && t < |EncodeChunk(chunks[0])| && t <= |Emit(chunks)|
    ensures ReadsAs(chunks, t, out)
  {
    var first, tail := EncodeChunk(chunks[0]), Emit(chunks[1..]);
    Assoc(first, Frames(chunks[1..]), EncodeChunk([]));
    CutJoin(first, tail, t);
    ChunkCut(chunks[0], t, out);
    assert out + [] == out;
  }

  lemma CutLater(chunks: seq<seq<byte>>, t: nat, out: seq<byte>)
    requires chunks != [] && 0 < |chunks[0]| <= INT_MAX
    requires |EncodeChunk(chunks[0])| <= t <= |Emit(chunks)|
    requires t - |EncodeChunk(chunks[0])| <= |Emit(chunks[1..])|
    requires ReadsAs(chunks[1..], t - |EncodeChunk(chunks[0])|, out + chunks[0])
    ensures ReadsAs(chunks, t, out)
  {
    var first, tail := EncodeChunk(chunks[0]), Emit(chunks[1..]);
    Assoc(first, Frames(chunks[1..]), EncodeChunk([]));
    CutJoin(first, tail, t);
    assert t == |first| ==> first + tail[..0] == first;
    OneChunk(chunks[0], tail[..t - |first|], out);
    WholeMore(chunks, t, out);
  }

  lemma FrameFirst(chunks: seq<seq<byte>>)
    requires chunks != []
    ensures Emit(chunks) == EncodeChunk(chunks[0]) + Emit(chunks[1..])
  {
    Assoc(EncodeChunk(chunks[0]), Frames(chunks[1..]), EncodeChunk([]));
  }

  lemma CutLast(t: nat, out: seq<byte>)
    requires t < |Emit([])|
    ensures ReadsAs([], t, out)
  {
    assert Emit([]) == EncodeChunk([]);
    LastChunkCut(t, out);
    assert out + [] == out;
  }

  /** A stream that is cut off anywhere: the chunks that arrived whole are delivered, and the
      reader reports failure, except for one place. Cut between the CR and the LF behind a chunk,
      it reports success although that chunk and all that follow are missing. */
  lemma {:induction false} TruncatedExactly(chunks: seq<seq<byte>>, t: nat, out: seq<byte>)
    requires NonEmpty(chunks) && Countable(chunks) && t < |Emit(chunks)|
    ensures ReadsAs(chunks, t, out)
    decreases |chunks|, 1
  {
    if chunks == [] {
      CutLast(t, out);
    } else {
      FrameFirst(chunks);
      if t < |EncodeChunk(chunks[0])| {
        CutHere(chunks, t, out);
      } else {
        RestTruncated(chunks, t, out);
        CutLater(chunks, t, out);
      }
    }
  }

  lemma RestTruncated(chunks: seq<seq<byte>>, t: nat, out: seq<byte>)
    requires chunks != [] && NonEmpty(chunks[1..]) && Countable(chunks[1..])
    requires |EncodeChunk(chunks[0])| <= t < |EncodeChunk(chunks[0])| + |Emit(chunks[1..])|
    ensures ReadsAs(chunks[1..], t - |EncodeChunk(chunks[0])|, out + chunks[0])
    decreases |chunks|, 0
  {
    TruncatedExactly(chunks[1..], t - |EncodeChunk(chunks[0])|, out + chunks[0]);
  }

  lemma WholeMore(chunks: seq<seq<byte>>, t: nat, out: seq<byte>)
    requires chunks != [] && t >= |EncodeChunk(chunks[0])|
    ensures var k := Whole(chunks[1..], t - |EncodeChunk(chunks[0])|);
            && Whole(chunks, t) == k + 1
            && (out + chunks[0]) + Concat(chunks[1..][..k]) == out + Concat(chunks[..k + 1])
  {
    var k := Whole(chunks[1..], t - |EncodeChunk(chunks[0])|);
    assert chunks[..k + 1][1..] == chunks[1..][..k];
    Assoc(out, chunks[0], Concat(chunks[1..][..k]));
  }

  // ---------- lines that should not be there ----------

  lemma OtherLine(t: seq<byte>, rest: seq<byte>)
    requires LF !in t && NUL !in t && t != [CR]
    ensures Line(t + ([LF] + rest)) == t + [LF] && CStr(t + [LF]) == t + [LF] != CRLF
  {
    LineAppend(t, [LF] + rest);
    CStrWhole(t + [LF]);
    assert t != [] ==> (t + [LF])[0] == t[0];
    assert |t| == 1 ==> t == [t[0]];
  }

  lemma BehindLine(t: seq<byte>, rest: seq<byte>)
    ensures t + ([LF] + rest) != [] && (t + ([LF] + rest))[|t + [LF]|..] == rest
  {
  }

  /** What stands behind the data decides. */
  lemma ChunkThenLine(chunk: seq<byte>, tail: seq<byte>, line: seq<byte>, out: seq<byte>)
    requires chunk != [] && tail != [] && Line(tail) == line && CStr(line) != CRLF
    ensures DecodeChunk(chunk + tail, |chunk|, out) == Done(true, out, tail[|line|..])
  {
    assert (chunk + tail)[|chunk|..] == tail;
    assert (chunk + tail)[|chunk| + |line|..] == tail[|line|..];
  }

  lemma LastThenLine(tail: seq<byte>, line: seq<byte>, out: seq<byte>)
    requires tail != [] && Line(tail) == line && CStr(line) != CRLF
    ensures DecodeChunk(tail, 0, out) == Done(false, out, tail[|line|..])
  {
  }

  /** Anything but an empty line behind a chunk: the reader drops that chunk, leaves the rest, and
      reports success. */
  lemma JunkBehindChunk(chunk: seq<byte>, t: seq<byte>, rest: seq<byte>, out: seq<byte>)
    requires 0 < |chunk| <= INT_MAX && LF !in t && NUL !in t && t != [CR]
    ensures Decode(HexOf(|chunk|) + CRLF + (chunk + (t + ([LF] + rest))), out) == Done(true, out, rest)
  {
    SizeRead(|chunk|, chunk + (t + ([LF] + rest)), out);
    JunkEnds(chunk, t, rest, out);
  }

  lemma SizeRead(n: nat, body: seq<byte>, out: seq<byte>)
    requires n <= INT_MAX
    ensures Decode(HexOf(n) + CRLF + body, out) == DecodeChunk(body, n, out)
  {
    LineOfSize(n, body);
    assert (HexOf(n) + CRLF + body)[|HexOf(n) + CRLF|..] == body;
  }

  lemma JunkEnds(chunk: seq<byte>, t: seq<byte>, rest: seq<byte>, out: seq<byte>)
    requires chunk != [] && LF !in t && NUL !in t && t != [CR]
    ensures DecodeChunk(chunk + (t + ([LF] + rest)), |chunk|, out) == Done(true, out, rest)
  {
    OtherLine(t, rest);
    BehindLine(t, rest);
    ChunkThenLine(chunk, t + ([LF] + rest), t + [LF], out);
  }

  /** Anything but an empty line behind the last chunk: the reader reports failure. */
  lemma JunkBehindLast(t: seq<byte>, rest: seq<byte>, out: seq<byte>)
    requires LF !in t && NUL !in t && t != [CR]
    ensures Decode(HexOf(0) + CRLF + (t + ([LF] + rest)), out) == Done(false, out, rest)
  {
    SizeRead(0, t + ([LF] + rest), out);
    OtherLine(t, rest);
    BehindLine(t, rest);
    LastThenLine(t + ([LF] + rest), t + [LF], out);
  }

  /** A negative size ends the body, too, and counts as success. */
  lemma NegativeSize(n: int, rest: seq<byte>, out: seq<byte>)
    requires 0 < n <= INT_MAX
    ensures Decode(['-'] + HexOf(n) + CRLF + rest, out) == Done(true, out, rest)
  {
    var text := ['-'] + HexOf(n);
    HexIsPlain(n);
    LineOf(text, rest);
    assert (text + CRLF + rest)[|text + CRLF|..] == rest;
    NegativeReads(n);
  }

  /** A negative number reads back down to -2147483648. */
  lemma NegativeReads(n: int)
    requires n > 0
    ensures Stoi16(['-'] + HexOf(n) + CRLF) == if n <= 2147483648 then Value(-n) else OutOfRange
  {
    var s := ['-'] + HexOf(n) + CRLF;
    assert SkipSpace(s) == s;
    assert s[1..] == HexOf(n) + CRLF;
    HexDigits(n, CRLF);
    DigitCountIs(HexOf(n), CRLF, 16);
    assert (HexOf(n) + CRLF)[..|HexOf(n)|] == HexOf(n);
  }

  /** stoi skips white space, a plus sign, and 0x in front of a digit. */
  lemma SpaceIsSkipped(c: byte, s: seq<byte>)
    requires c in " \t\n\r" || c as int == 11 || c as int == 12
    ensures Stoi16([c] + s) == Stoi16(s)
  {
    assert ([c] + s)[1..] == s;
    assert SkipSpace([c] + s) == SkipSpace(s);
  }

  lemma SignIsSkipped(s: seq<byte>)
    requires s != [] && DigitValue(s[0], 16).Some? && !Prefixed(s)
    ensures Stoi16(['+'] + s) == Stoi16(s)
  {
    StoiOfDigits(s);
    assert (['+'] + s)[1..] == s && SkipSpace(['+'] + s) == ['+'] + s;
  }

  lemma PrefixIsSkipped(c: byte, s: seq<byte>)
    requires (c == 'x' || c == 'X') && s != [] && DigitValue(s[0], 16).Some? && !Prefixed(s)
    ensures Stoi16(['0', c] + s) == Stoi16(s)
  {
    var t := ['0', c] + s;
    StoiOfDigits(s);
    assert t[2..] == s && SkipSpace(t) == t && Prefixed(t);
  }

  /** Without a digit behind it, 0x is a zero and something else. */
  lemma BareZero(c: byte, s: seq<byte>)
    requires (c == 'x' || c == 'X') && (s == [] || DigitValue(s[0], 16).None?)
    ensures Stoi16(['0', c] + s) == Value(0)
  {
    var t := ['0', c] + s;
    assert SkipSpace(t) == t && !Prefixed(t);
    DigitCountIs(['0'], [c] + s, 16);
    assert t == ['0'] + ([c] + s) && t[..1] == ['0'];
    NumeralReads(0, 16);
    assert HexOf(0) == ['0'];
  }

  /** A size line that does not begin with a number makes stoi throw. */
  lemma NoSize(t: seq<byte>, rest: seq<byte>, out: seq<byte>)
    requires LF !in t && NUL !in t && t != [] && DigitValue(t[0], 16).None? && t[0] !in " \t\r+-"
    requires t[0] as int != 11 && t[0] as int != 12
    ensures Decode(t + ([LF] + rest), out) == Threw
  {
    LineAppend(t, [LF] + rest);
    CStrWhole(t + [LF]);
    var s := t + [LF];
    assert s[0] == t[0] && SkipSpace(s) == s && DigitCount(s, 16) == 0;
  }

  /** Sizes on the wire are in lower case, and chunks look like this. */
  lemma OneChunkOnWire()
    ensures Emit([['a', 'b', 'c', 'd', 'e', 'f', 'g', 'h', 'i', 'j']]) == "a\r\nabcdefghij\r\n0\r\n\r\n"
  {
    var c: seq<byte> := ['a', 'b', 'c', 'd', 'e', 'f', 'g', 'h', 'i', 'j'];
    assert HexOf(10) == ['a'] && HexOf(0) == ['0'];
    FrameFirst([c]);
    assert [c][1..] == [];
    assert EncodeChunk(c) == "a\r\nabcdefghij\r\n" && Emit([]) == "0\r\n\r\n";
  }

  /** The largest size that stoi takes, and the next one. */
  lemma SizeLimits(rest: seq<byte>)
    requires rest != [] && DigitValue(rest[0], 16).None? && rest[0] != 'x' && rest[0] != 'X'
    ensures Stoi16(HexOf(2147483647) + rest) == Value(2147483647) && Stoi16(HexOf(2147483648) + rest) == OutOfRange
  {
    StoiOfHex(2147483647, rest);
    StoiOfHex(2147483648, rest);
  }
}
