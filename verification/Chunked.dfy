/** Chunked transfer coding (section 4.1 of RFC 7230) as src/httplib.h writes it in
    `write_response` and reads it in `read_content_chunked`. */
module Chunked {
  import opened Numerals
  import opened Prelude

  const INT_MAX := 0x7FFF_FFFF

  // ---------- hexadecimal ----------

  function HexOf(n: nat): seq<byte> {
    Numeral(n, 16)
  }

  lemma NextHexDigit(n: nat, ret: seq<byte>)
    requires n > 0
    ensures var more := [DIGITS[n % 16]] + ret;
            HexOf(n) + ret == if n / 16 > 0 then HexOf(n / 16) + more else more
  {
    if n >= 16 {
      Assoc(HexOf(n / 16), [DIGITS[n % 16]], ret);
    }
  }

  method from_i_to_hex(n: nat) returns (ret: seq<byte>)
    ensures ret == HexOf(n)
  {
    ret := [DIGITS[n % 16]];
    var rest := n / 16;
    while rest > 0
      invariant HexOf(n) == if rest > 0 then HexOf(rest) + ret else ret
    {
      NextHexDigit(rest, ret);
      ret := [DIGITS[rest % 16]] + ret;
      rest := rest / 16;
    }
  }

  function SkipSpace(s: seq<byte>): seq<byte> {
    if s != [] && s[0] in {' ', '\t', '\n', 11 as char, 12 as char, '\r'} then SkipSpace(s[1..]) else s
  }

  datatype Stoi = Value(n: int) | InvalidArgument | OutOfRange

  /** The digits at the front of v as an int. */
  function Converted(v: seq<byte>, negative: bool): Stoi {
    var n := DigitCount(v, 16);
    if n == 0 then InvalidArgument
    else
      var magnitude: int := Number(v[..n], 16);
      var value := if negative then -magnitude else magnitude;
      if -INT_MAX - 1 <= value <= INT_MAX then Value(value) else OutOfRange
  }

  predicate Prefixed(u: seq<byte>) {
    |u| >= 3 && u[0] == '0' && (u[1] == 'x' || u[1] == 'X') && DigitValue(u[2], 16).Some?
  }

  /** `std::stoi(s, 0, 16)`: leading space, a sign, an optional 0x, then digits; the rest
      of the string is ignored. */
  function Stoi16(s: seq<byte>): Stoi {
    var t := SkipSpace(s);
    var negative := t != [] && t[0] == '-';
    var u := if t != [] && (t[0] == '-' || t[0] == '+') then t[1..] else t;
    Converted(if Prefixed(u) then u[2..] else u, negative)
  }

  lemma StoiOfDigits(s: seq<byte>)
    requires s != [] && DigitValue(s[0], 16).Some? && !Prefixed(s)
    ensures Stoi16(s) == Converted(s, false)
  {
    assert SkipSpace(s) == s;
  }

  /** Reading back a printed chunk size, whatever non-digit follows it. */
  lemma StoiOfHex(n: nat, rest: seq<byte>)
    requires rest != [] && DigitValue(rest[0], 16).None? && rest[0] != 'x' && rest[0] != 'X'
    ensures Stoi16(HexOf(n) + rest) == if n <= INT_MAX then Value(n) else OutOfRange
  {
    var digits := HexOf(n);
    HexDigits(n, rest);
    StoiOfDigits(digits + rest);
    DigitCountIs(digits, rest, 16);
    assert (digits + rest)[..|digits|] == digits;
  }

  lemma HexDigits(n: nat, rest: seq<byte>)
    requires rest != [] && rest[0] != 'x' && rest[0] != 'X'
    ensures var s := HexOf(n) + rest; DigitValue(s[0], 16).Some? && !Prefixed(s)
    ensures AllDigits(HexOf(n), 16) && Number(HexOf(n), 16) == n
  {
    NumeralReads(n, 16);
    NumeralShape(n, 16);
    var s := HexOf(n) + rest;
    assert s[0] == HexOf(n)[0];
    assert n == 0 ==> |HexOf(n)| == 1 && s[1] == rest[0];
  }

  // ---------- lines and C strings ----------

  /** The bytes up to and including the first line feed, or all of them. */
  function Line(s: seq<byte>): (line: seq<byte>)
    ensures |line| <= |s| && line == s[..|line|]
    ensures line == [] <==> s == []
  {
    if s == [] then [] else if s[0] == LF then [LF] else [s[0]] + Line(s[1..])
  }

  /** What C sees of a byte string: everything before the first NUL. */
  function CStr(s: seq<byte>): (t: seq<byte>)
    ensures |t| <= |s| && t == s[..|t|] && NUL !in t
    ensures |t| < |s| ==> s[|t|] == NUL
  {
    if s == [] || s[0] == NUL then [] else [s[0]] + CStr(s[1..])
  }

  lemma {:induction false} LineAppend(a: seq<byte>, s: seq<byte>)
    requires LF !in a
    ensures Line(a + s) == a + Line(s)
  {
    if a == [] {
      assert a + s == s;
    } else {
      assert (a + s)[1..] == a[1..] + s;
      LineAppend(a[1..], s);
    }
  }

  lemma {:induction false} CStrWhole(s: seq<byte>)
    requires NUL !in s
    ensures CStr(s) == s
  {
    if s != [] {
      CStrWhole(s[1..]);
    }
  }

  lemma {:induction false} CStrIs(s: seq<byte>, n: nat)
    requires n <= |s| && NUL !in s[..n] && (n < |s| ==> s[n] == NUL)
    ensures CStr(s) == s[..n]
  {
    if n > 0 {
      assert s[0] == s[..n][0];
      assert s[1..][..n - 1] == s[..n][1..];
      CStrIs(s[1..], n - 1);
    }
  }

  // ---------- the reader on values ----------

  datatype Decoded = Done(ok: bool, out: seq<byte>, rest: seq<byte>) | Threw

  /** The reader standing before a size line. */
  function Decode(s: seq<byte>, out: seq<byte>): Decoded
    decreases |s|, 1
  {
    if s == [] then Done(false, out, [])
    else match Stoi16(CStr(Line(s)))
      case Value(n) => DecodeChunk(s[|Line(s)|..], n, out)
      case _ => Threw
  }

  /** The reader behind a size line that announced n bytes. */
  function DecodeChunk(s: seq<byte>, n: int, out: seq<byte>): Decoded
    decreases |s|, 0
  {
    if n > 0 then
      if |s| < n then Done(false, out, [])
      else if s[n..] == [] then Done(false, out, [])
      else
        var line := Line(s[n..]);
        if CStr(line) != CRLF then Done(true, out, s[n + |line|..])
        else Decode(s[n + |line|..], out + s[..n])
    else if n == 0 then
      if s == [] then Done(false, out, [])
      else Done(CStr(Line(s)) == CRLF, out, s[|Line(s)|..])
    else Done(true, out, s)
  }

  // ---------- the reader ----------

  /** A connection: data arrives in pieces of any size, at least one byte at a time until
      the peer has closed. */
  class Stream {
    const data: seq<byte>
    const grant: nat -> nat
    var pos: nat
    var calls: nat

    ghost predicate Valid()
      reads this
    {
      pos <= |data|
    }

    ghost function Rest(): seq<byte>
      reads this
      requires Valid()
    {
      data[pos..]
    }

    constructor (data: seq<byte>, grant: nat -> nat)
      ensures Valid() && Rest() == data
    {
      this.data, this.grant, pos, calls := data, grant, 0, 0;
    }

    method Read(want: nat) returns (got: seq<byte>)
      requires Valid()
      modifies this
      ensures Valid() && |got| <= want && |got| <= old(|Rest()|)
      ensures got + Rest() == old(Rest())
      ensures got == [] ==> want == 0 || old(Rest()) == []
    {
      var limit := Min(want, |data| - pos);
      var n := if limit == 0 then 0 else 1 + grant(calls) % limit;
      got := data[pos..pos + n];
      pos, calls := pos + n, calls + 1;
    }
  }

  /** Moving one byte from the stream to the line. */
  lemma NextByte(line: seq<byte>, got: seq<byte>, rest: seq<byte>)
    requires |got| == 1
    ensures line + (got + rest) == (line + [got[0]]) + rest
    ensures line + Line(got + rest) == if got[0] == LF then line + [got[0]] else (line + [got[0]]) + Line(rest)
  {
    assert (got + rest)[1..] == rest;
    Assoc(line, got, rest);
    Assoc(line, got, Line(rest));
    assert got == [got[0]];
  }

  /** A line collected in a small fixed buffer that spills into a growable one. */
  class StreamLineReader {
    const strm: Stream
    const fixed_buffer: array<byte>
    var fixed_buffer_used_size: nat
    var glowable_buffer: seq<byte>

    ghost predicate Valid()
      reads this, fixed_buffer
    {
      && fixed_buffer_used_size < fixed_buffer.Length
      && (fixed_buffer_used_size > 0 ==> fixed_buffer[fixed_buffer_used_size] == NUL)
      && (glowable_buffer != [] ==> fixed_buffer_used_size == fixed_buffer.Length - 1)
    }

    ghost function Contents(): seq<byte>
      reads this, fixed_buffer
      requires Valid()
    {
      if glowable_buffer == [] then fixed_buffer[..fixed_buffer_used_size] else glowable_buffer
    }

    constructor (strm: Stream, fixed_buffer: array<byte>)
      requires fixed_buffer.Length >= 2
      ensures Valid() && Contents() == [] && this.strm == strm && this.fixed_buffer == fixed_buffer
    {
      this.strm, this.fixed_buffer, fixed_buffer_used_size, glowable_buffer := strm, fixed_buffer, 0, [];
    }

    /** Both buffers together are a plain append. */
    method append(c: byte)
      requires Valid() && fixed_buffer.Length >= 2
      modifies this, fixed_buffer
      ensures Valid() && Contents() == old(Contents()) + [c]
    {
      if fixed_buffer_used_size < fixed_buffer.Length - 1 {
        fixed_buffer[fixed_buffer_used_size] := c;
        fixed_buffer_used_size := fixed_buffer_used_size + 1;
        fixed_buffer[fixed_buffer_used_size] := NUL;
      } else {
        if glowable_buffer == [] {
          assert fixed_buffer[fixed_buffer_used_size] == NUL;
          glowable_buffer := fixed_buffer[..fixed_buffer_used_size];
        }
        glowable_buffer := glowable_buffer + [c];
      }
    }

    method getline() returns (ok: bool)
      requires strm.Valid() && fixed_buffer.Length >= 2
      modifies this, fixed_buffer, strm
      ensures Valid() && strm.Valid()
      ensures ok <==> old(strm.Rest()) != []
      ensures Contents() == Line(old(strm.Rest()))
      ensures strm.Rest() == old(strm.Rest())[|Contents()|..]
    {
      fixed_buffer_used_size := 0;
      glowable_buffer := [];
      ghost var all, line: seq<byte> := strm.Rest(), [];
      var i := 0;
      while true
        invariant Valid() && strm.Valid() && i == |line| && Contents() == line
        invariant all == line + strm.Rest()
        invariant Line(all) == line + Line(strm.Rest())
        decreases |strm.Rest()|
      {
        var got := strm.Read(1);
        if got == [] {
          assert all == line;
          return i != 0;
        }
        NextByte(line, got, strm.Rest());
        append(got[0]);
        line := line + [got[0]];
        if got[0] == LF {
          return true;
        }
        i := i + 1;
      }
    }

    /** What a C function sees through ptr(): it never runs past the NUL that append keeps. */
    method CString() returns (s: seq<byte>)
      requires Valid() && Contents() != []
      ensures s == CStr(Contents())
    {
      var n := 0;
      if glowable_buffer == [] {
        while fixed_buffer[n] != NUL
          invariant n <= fixed_buffer_used_size
          invariant NUL !in fixed_buffer[..n]
          decreases fixed_buffer_used_size - n
        {
          n := n + 1;
        }
        s := fixed_buffer[..n];
        assert Contents()[..n] == s;
      } else {
        while n < |glowable_buffer| && glowable_buffer[n] != NUL
          invariant n <= |glowable_buffer| && NUL !in glowable_buffer[..n]
        {
          n := n + 1;
        }
        s := glowable_buffer[..n];
      }
      CStrIs(Contents(), n);
    }
  }

  method read_content_with_length(strm: Stream, len: nat) returns (ok: bool, out: seq<byte>)
    requires strm.Valid()
    modifies strm
    ensures strm.Valid()
    ensures ok <==> len <= old(|strm.Rest()|)
    ensures ok ==> out == old(strm.Rest())[..len] && strm.Rest() == old(strm.Rest())[len..]
    ensures !ok ==> strm.Rest() == []
  {
    ghost var all := strm.Rest();
    out := [];
    while |out| < len
      invariant strm.Valid() && |out| <= len
      invariant all == out + strm.Rest()
    {
      var got := strm.Read(len - |out|);
      if got == [] {
        return false, out;
      }
      Assoc(out, got, strm.Rest());
      out := out + got;
    }
    ok := true;
  }

  /** getline, then ptr(): None at the end of the connection. */
  method NextLine(reader: StreamLineReader) returns (text: Option<seq<byte>>)
    requires reader.strm.Valid() && reader.fixed_buffer.Length >= 2
    modifies reader, reader.fixed_buffer, reader.strm
    ensures reader.strm.Valid()
    ensures var rest := old(reader.strm.Rest());
            if rest == [] then text == None && reader.strm.Rest() == []
            else text == Some(CStr(Line(rest))) && reader.strm.Rest() == rest[|Line(rest)|..]
  {
    var ok := reader.getline();
    if !ok {
      return None;
    }
    var s := reader.CString();
    return Some(s);
  }

  lemma NextChunkLine(s: seq<byte>, n: nat, out: seq<byte>)
    requires 0 < n <= |s| && s[n..] != []
    ensures DecodeChunk(s, n, out)
         == if CStr(Line(s[n..])) != CRLF then Done(true, out, s[n..][|Line(s[n..])|..])
            else Decode(s[n..][|Line(s[n..])|..], out + s[..n])
  {
    assert s[n..][|Line(s[n..])|..] == s[n + |Line(s[n..])|..];
  }

  /** The result is that of the reader on values, however the bytes were cut up. */
  method read_content_chunked(strm: Stream) returns (r: Decoded)
    requires strm.Valid()
    modifies strm
    ensures r == Decode(old(strm.Rest()), [])
    ensures strm.Valid() && (r.Done? ==> strm.Rest() == r.rest)
  {
    ghost var all := strm.Rest();
    var out: seq<byte> := [];
    var buf := new byte[16];
    var reader := new StreamLineReader(strm, buf);
    var text := NextLine(reader);
    if text.None? {
      return Done(false, out, []);
    }
    var chunk_len := Stoi16(text.value);
    while chunk_len.Value? && chunk_len.n > 0
      modifies strm, reader, buf
      invariant strm.Valid() && reader.strm == strm && reader.fixed_buffer == buf
      invariant Decode(all, []) == if chunk_len.Value? then DecodeChunk(strm.Rest(), chunk_len.n, out) else Threw
      decreases |strm.Rest()|
    {
      ghost var s, n := strm.Rest(), chunk_len.n;
      var ok, chunk := read_content_with_length(strm, chunk_len.n);
      if !ok {
        return Done(false, out, []);
      }
      text := NextLine(reader);
      if text.None? {
        return Done(false, out, []);
      }
      NextChunkLine(s, n, out);
      if text.value != CRLF {
        break;
      }
      out := out + chunk;
      text := NextLine(reader);
      if text.None? {
        return Done(false, out, []);
      }
      chunk_len := Stoi16(text.value);
    }
    if !chunk_len.Value? {
      return Threw;
    }
    if chunk_len.n == 0 {
      text := NextLine(reader);
      if text.None? {
        return Done(false, out, []);
      }
      return Done(text.value == CRLF, out, strm.data[strm.pos..]);
    }
    return Done(true, out, strm.data[strm.pos..]);
  }

  // ---------- the writer ----------

  function EncodeChunk(chunk: seq<byte>): seq<byte> {
    HexOf(|chunk|) + CRLF + chunk + CRLF
  }

  function Frames(chunks: seq<seq<byte>>): seq<byte> {
    if chunks == [] then [] else EncodeChunk(chunks[0]) + Frames(chunks[1..])
  }

  /** What `write_response` emits for a callback that returned these chunks, then nothing. */
  function Emit(chunks: seq<seq<byte>>): seq<byte> {
    Frames(chunks) + EncodeChunk([])
  }

  lemma {:induction false} FramesSnoc(chunks: seq<seq<byte>>, last: seq<byte>)
    ensures Frames(chunks + [last]) == Frames(chunks) + EncodeChunk(last)
    ensures NonEmpty(chunks) && last != [] ==> NonEmpty(chunks + [last])
  {
    if chunks == [] {
      assert chunks + [last] == [last];
    } else {
      assert (chunks + [last])[1..] == chunks[1..] + [last];
      FramesSnoc(chunks[1..], last);
      Assoc(EncodeChunk(chunks[0]), Frames(chunks[1..]), EncodeChunk(last));
    }
  }

  ghost predicate NonEmpty(chunks: seq<seq<byte>>) {
    chunks == [] || (chunks[0] != [] && NonEmpty(chunks[1..]))
  }

  ghost predicate Countable(chunks: seq<seq<byte>>) {
    chunks == [] || (|chunks[0]| <= INT_MAX && Countable(chunks[1..]))
  }

  lemma LineOf(text: seq<byte>, rest: seq<byte>)
    requires LF !in text && NUL !in text
    ensures Line(text + CRLF + rest) == text + CRLF && CStr(text + CRLF) == text + CRLF
  {
    assert text + CRLF + rest == (text + [CR]) + ([LF] + rest);
    LineAppend(text + [CR], [LF] + rest);
    assert text + [CR] + [LF] == text + CRLF;
    CStrWhole(text + CRLF);
  }

  lemma HexIsPlain(n: nat)
    ensures LF !in HexOf(n) && NUL !in HexOf(n)
  {
    NumeralShape(n, 16);
    assert LF !in DIGITS && NUL !in DIGITS;
  }

  lemma LineOfSize(n: nat, rest: seq<byte>)
    ensures Line(HexOf(n) + CRLF + rest) == HexOf(n) + CRLF
    ensures Stoi16(CStr(HexOf(n) + CRLF)) == if n <= INT_MAX then Value(n) else OutOfRange
  {
    HexIsPlain(n);
    LineOf(HexOf(n), rest);
    StoiOfHex(n, CRLF);
  }

  lemma LineOfCrlf(rest: seq<byte>)
    ensures Line(CRLF + rest) == CRLF && CStr(CRLF) == CRLF
  {
    assert CRLF + rest == [CR] + ([LF] + rest);
    LineAppend([CR], [LF] + rest);
    CStrWhole(CRLF);
  }

  /** One chunk, read from before its size line. */
  lemma OneChunk(chunk: seq<byte>, tail: seq<byte>, out: seq<byte>)
    requires chunk != []
    ensures Decode(EncodeChunk(chunk) + tail, out) == if |chunk| <= INT_MAX then Decode(tail, out + chunk) else Threw
  {
    var s := EncodeChunk(chunk) + tail;
    var body := chunk + (CRLF + tail);
    assert s == HexOf(|chunk|) + CRLF + body;
    LineOfSize(|chunk|, body);
    assert s[|HexOf(|chunk|) + CRLF|..] == body;
    assert body[|chunk|..] == CRLF + tail && body[..|chunk|] == chunk;
    LineOfCrlf(tail);
    assert body[|chunk| + 2..] == tail;
  }

  lemma LastChunk(rest: seq<byte>, out: seq<byte>)
    ensures Decode(EncodeChunk([]) + rest, out) == Done(true, out, rest)
  {
    var s := EncodeChunk([]) + rest;
    assert s == HexOf(0) + CRLF + (CRLF + rest);
    LineOfSize(0, CRLF + rest);
    assert s[|HexOf(0) + CRLF|..] == CRLF + rest;
    LineOfCrlf(rest);
    assert (CRLF + rest)[2..] == rest;
  }

  /** Reading what was written returns the chunks joined and leaves what follows
      untouched, unless a chunk is too long for std::stoi, which then throws. */
  lemma {:induction false} RoundTrip(chunks: seq<seq<byte>>, rest: seq<byte>, out: seq<byte>)
    requires NonEmpty(chunks)
    ensures Decode(Emit(chunks) + rest, out)
         == if Countable(chunks) then Done(true, out + Concat(chunks), rest) else Threw
  {
    if chunks == [] {
      LastChunk(rest, out);
      assert Emit(chunks) == EncodeChunk([]) && out + [] == out;
    } else {
      Assoc(EncodeChunk(chunks[0]), Frames(chunks[1..]), EncodeChunk([]));
      Assoc(EncodeChunk(chunks[0]), Emit(chunks[1..]), rest);
      OneChunk(chunks[0], Emit(chunks[1..]) + rest, out);
      RoundTrip(chunks[1..], rest, out + chunks[0]);
      Assoc(out, chunks[0], Concat(chunks[1..]));
    }
  }
}
