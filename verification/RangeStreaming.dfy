/** Range headers and bodies: `getRange` (src/http_server.cpp), `HttpStreamCB`
    (src/http_stream_cb.cpp) and the body loop of `write_response` (src/httplib.h). Byte
    ranges are those of section 2.1 of RFC 7233. */
module RangeStreaming {
  import opened Prelude
  import opened Numerals
  import opened MediaModel
  import opened Chunked

  // ---------- the Range header ----------

  /** TooLarge stands for the std::out_of_range that getRange does not catch. */
  datatype Range = Range(from: int, to: int) | TooLarge

  const BYTES: seq<byte> := "bytes="

  /** bytes=(\d+)-(\d+)? at the front: the two runs of digits. */
  function RangeAt(h: seq<byte>): (r: Option<(seq<byte>, seq<byte>)>)
    ensures r.Some? ==> AllDigits(r.value.0, 10) && AllDigits(r.value.1, 10)
  {
    if |h| < 6 || h[..6] != BYTES then None
    else
      var n := DigitCount(h[6..], 10);
      var tail := h[6..][n..];
      if n == 0 || tail == [] || tail[0] != '-' then None
      else Some((h[6..][..n], tail[1..][..DigitCount(tail[1..], 10)]))
  }

  function RangeOf(digits: (seq<byte>, seq<byte>)): Range
    requires AllDigits(digits.0, 10) && AllDigits(digits.1, 10)
  {
    var from: int := Number(digits.0, 10);
    var to: int := if digits.1 == [] then -1 else Number(digits.1, 10);
    if from > INT_MAX || to > INT_MAX then TooLarge else Range(from, to)
  }

  /** The leftmost match decides; without one the whole media is asked for. */
  function GetRange(h: seq<byte>): Range {
    if RangeAt(h).Some? then RangeOf(RangeAt(h).value)
    else if h == [] then Range(0, -1)
    else GetRange(h[1..])
  }

  /** The text begins with `bytes=`, the digits `first`, and a dash. */
  ghost predicate IsRange(t: seq<byte>, first: seq<byte>) {
    first != [] && AllDigits(first, 10) && "bytes=" + (first + ['-']) <= t
  }

  ghost predicate HasRange(h: seq<byte>, i: nat)
    requires i <= |h|
  {
    exists first: seq<byte> :: IsRange(h[i..], first)
  }

  lemma Front(a: seq<byte>, t: seq<byte>)
    requires a <= t
    ensures t[..|a|] == a && t == a + t[|a|..]
  {
  }

  lemma Regroup(a: seq<byte>, b: seq<byte>, c: seq<byte>, d: seq<byte>)
    ensures a + (b + (c + d)) == (a + (b + c)) + d
  {
    Assoc(b, c, d);
    Assoc(a, b + c, d);
  }

  lemma Cons(c: byte, s: seq<byte>)
    requires s != [] && s[0] == c
    ensures s == [c] + s[1..]
  {
  }

  lemma CutAt(s: seq<byte>, n: nat)
    requires n <= |s|
    ensures s == s[..n] + s[n..]
  {
  }

  lemma MatchIsRange(t: seq<byte>)
    requires RangeAt(t).Some?
    ensures IsRange(t, RangeAt(t).value.0)
  {
    var n := DigitCount(t[6..], 10);
    var first, tail := t[6..][..n], t[6..][n..];
    CutAt(t, 6);
    CutAt(t[6..], n);
    Cons('-', tail);
    Regroup("bytes=", first, ['-'], tail[1..]);
  }

  lemma RangeIsMatched(t: seq<byte>, first: seq<byte>)
    requires IsRange(t, first)
    ensures RangeAt(t).Some? && RangeAt(t).value.0 == first
  {
    var rest := t[6 + |first| + 1..];
    Front("bytes=" + (first + ['-']), t);
    assert t == "bytes=" + (first + (['-'] + rest));
    assert t[..6] == BYTES && t[6..] == first + (['-'] + rest);
    DigitCountIs(first, ['-'] + rest, 10);
    assert (first + (['-'] + rest))[|first|..] == ['-'] + rest;
    assert (first + (['-'] + rest))[..|first|] == first;
  }

  lemma RestOfHeader(h: seq<byte>, i: nat)
    requires i < |h|
    ensures h[1..][i..] == h[i + 1..]
    ensures HasRange(h[1..], i) <==> HasRange(h, i + 1)
  {
  }

  /** At the front of the header. */
  lemma FrontExactly(h: seq<byte>)
    ensures RangeAt(h).Some? <==> HasRange(h, 0)
  {
    assert h[0..] == h;
    if RangeAt(h).Some? {
      MatchIsRange(h);
    }
    if first: seq<byte> :| IsRange(h, first) {
      RangeIsMatched(h, first);
    }
  }

  /** Without a range anywhere, as in a request without the header, the whole media is meant. */
  lemma {:induction false} NoRange(h: seq<byte>)
    requires forall i: nat | i <= |h| :: !HasRange(h, i)
    ensures GetRange(h) == Range(0, -1)
    decreases |h|
  {
    FrontExactly(h);
    if h != [] {
      forall i: nat | i <= |h| - 1
        ensures !HasRange(h[1..], i)
      {
        RestOfHeader(h, i);
      }
      NoRange(h[1..]);
    }
  }

  /** The first range in the header counts. */
  lemma {:induction false} FirstRange(h: seq<byte>, i: nat)
    requires i <= |h| && HasRange(h, i) && forall j: nat | j < i :: !HasRange(h, j)
    ensures RangeAt(h[i..]).Some? && GetRange(h) == RangeOf(RangeAt(h[i..]).value)
    decreases i
  {
    FrontExactly(h);
    assert h[0..] == h;
    if i > 0 {
      RestOfHeader(h, i - 1);
      forall j: nat | j < i - 1
        ensures !HasRange(h[1..], j)
      {
        RestOfHeader(h, j);
      }
      FirstRange(h[1..], i - 1);
    }
  }

  /** first-byte-pos and an optional last-byte-pos, as a client prints them. */
  function RangeHeader(from: nat, to: Option<nat>): seq<byte> {
    BYTES + (Numeral(from, 10) + (['-'] + (if to.Some? then Numeral(to.value, 10) else [])))
  }

  /** The pattern finds both runs of digits of a printed header. */
  lemma RangeAtHeader(first: seq<byte>, last: seq<byte>)
    requires AllDigits(first, 10) && first != [] && AllDigits(last, 10)
    ensures RangeAt(BYTES + (first + (['-'] + last))) == Some((first, last))
  {
    var tail := ['-'] + last;
    var h := BYTES + (first + tail);
    DigitCountIs(first, tail, 10);
    DigitCountIs(last, [], 10);
    assert last + [] == last;
    assert h[..6] == BYTES && h[6..] == first + tail;
    assert (first + tail)[..|first|] == first && (first + tail)[|first|..] == tail;
    assert tail[1..] == last && last[..|last|] == last;
  }

  lemma RangeHeaderReads(from: nat, to: Option<nat>)
    ensures GetRange(RangeHeader(from, to))
         == if from > INT_MAX || (to.Some? && to.value > INT_MAX) then TooLarge
            else Range(from, if to.Some? then to.value else -1)
  {
    NumeralReads(from, 10);
    if to.Some? {
      NumeralReads(to.value, 10);
    }
    RangeAtHeader(Numeral(from, 10), if to.Some? then Numeral(to.value, 10) else []);
  }

  /** The largest number that getRange takes, and the next one. */
  lemma RangeLimits()
    ensures GetRange(RangeHeader(2147483647, None)) == Range(2147483647, -1)
    ensures GetRange(RangeHeader(2147483648, None)) == TooLarge
  {
    RangeHeaderReads(2147483647, None);
    RangeHeaderReads(2147483648, None);
  }

  // ---------- HttpStreamCB ----------

  const TWO_64 := 0x1_0000_0000_0000_0000
  const INT64_MAX := 0x7FFF_FFFF_FFFF_FFFF

  /** The conversion of an int64 to uint64_t. */
  function Unsigned(x: int): int {
    x % TWO_64
  }

  /** mSize: the length of the range, or "no limit" when to is not positive. */
  function SizeOf(rd: Reader): int {
    Unsigned(if rd.to > 0 then rd.to - rd.from + 1 else -1)
  }

  /** At most what is left of the range. */
  function Truncated<T>(buf: seq<T>, size: int, offset: nat): seq<T>
    requires size > 0 ==> offset < size
  {
    if size > 0 && size - offset < |buf| then buf[..size - offset] else buf
  }

  class HttpStreamCB {
    const media: ReadMedia
    var mReader: Option<nat>
    const mSize: int

    constructor (media: ReadMedia, reader: nat)
      requires reader < |media.mReaders|
      ensures this.media == media && mReader == Some(reader) && mSize == SizeOf(media.mReaders[reader])
    {
      this.media := media;
      mReader := Some(reader);
      var rd := media.mReaders[reader];
      mSize := Unsigned(if rd.to > 0 then rd.to - rd.from + 1 else -1);
    }

    /** Dereferences mReader, so it must not be called once the reader was reset. */
    method read(offset: nat, want: nat, now: int) returns (buf: seq<byte>)
      requires mReader.Some? && mReader.value < |media.mReaders|
      modifies this, media
      ensures mSize > 0 && offset >= mSize ==>
                buf == [] && mReader.None? && media.View() == Dropped(old(media.View()), old(mReader).value, now)
      ensures !(mSize > 0 && offset >= mSize) ==>
                var (m, chunk) := ReadChunk(old(media.View()), old(mReader).value, want);
                mReader == old(mReader) && media.View() == m && buf == Truncated(chunk, mSize, offset)
    {
      if mSize > 0 && offset >= mSize {
        media.expire(mReader.value);
        media.endReader(mReader.value, now);
        mReader := None;
        return [];
      }
      buf := media.read(mReader.value, want);
      if mSize > 0 {
        var left := mSize - offset;
        if left < |buf| {
          return buf[..left];
        }
      }
    }
  }

  // ---------- the body loop ----------

  /** Where a body that starts at from has to end. */
  function BodyEnd(length: nat, from: nat, size: int): nat {
    if size > 0 && from + size < length then from + size else length
  }

  /** Our reader after offset bytes went out for it. */
  ghost predicate Sent(m: Media, r: nat, from: nat, size: int, offset: nat) {
    && Good(m) && r < |m.readers| && m.readers[r].from == from
    && from + offset <= BodyEnd(|m.content|, from, size)
    && (m.readers[r].alive ==> offset == |m.readers[r].out| || (size > 0 && offset == size <= |m.readers[r].out|))
  }

  /** A chunk of the content at pos, cut to what is left of the range. */
  lemma Cut(content: seq<byte>, from: nat, size: int, offset: nat, want: nat)
    requires from + offset <= BodyEnd(|content|, from, size) && (size > 0 ==> offset < size)
    ensures var chunk := NextChunk<byte>(content, from + offset, want);
            var buf := Truncated(chunk, size, offset);
            && from + offset + |buf| <= BodyEnd(|content|, from, size)
            && buf == content[from + offset..from + offset + |buf|]
            && (buf == [] ==> from + offset == BodyEnd(|content|, from, size))
            && (|buf| == |chunk| || (size > 0 && offset + |buf| == size && |buf| <= |chunk|))
  {
  }

  /** What the callback returns before the size limit is reached. */
  function Piece(m: Media, r: nat, size: int, offset: nat, want: nat): seq<byte>
    requires r < |m.readers| && (size > 0 ==> offset < size)
  {
    Truncated(ReadChunk(m, r, want).1, size, offset)
  }

  /** What a read of the callback sends, and what it leaves. */
  ghost predicate Sends(m: Media, r: nat, from: nat, size: int, offset: nat, want: nat)
    requires Sent(m, r, from, size, offset) && (size > 0 ==> offset < size)
  {
    var t, n := ReadChunk(m, r, want).0, |Piece(m, r, size, offset, want)|;
    && Sent(t, r, from, size, offset + n)
    && Piece(m, r, size, offset, want) == m.content[from + offset..from + offset + n]
    && t.readers[r].alive == m.readers[r].alive
    && (n == 0 && m.readers[r].alive ==> from + offset == BodyEnd(|m.content|, from, size))
  }

  /** One read of the callback, before the size limit is reached. */
  lemma SendChunk(m: Media, r: nat, from: nat, size: int, offset: nat, want: nat)
    requires Sent(m, r, from, size, offset) && (size > 0 ==> offset < size)
    ensures Sends(m, r, from, size, offset, want)
  {
    if m.readers[r].alive {
      SendAlive(m, r, from, size, offset, want);
    } else {
      assert m.content[from + offset..from + offset] == [];
    }
  }

  lemma PieceIs(m: Media, r: nat, from: nat, size: int, offset: nat, want: nat)
    requires Sent(m, r, from, size, offset) && (size > 0 ==> offset < size) && m.readers[r].alive
    ensures Piece(m, r, size, offset, want) == Truncated(NextChunk<byte>(m.content, from + offset, want), size, offset)
    ensures ReadChunk(m, r, want).0.readers[r].alive
  {
    ChunkOf(m, r, want, from + offset);
  }

  lemma PieceOfContent(m: Media, r: nat, from: nat, size: int, offset: nat, want: nat)
    requires Sent(m, r, from, size, offset) && (size > 0 ==> offset < size) && m.readers[r].alive
    ensures var n := |Piece(m, r, size, offset, want)|;
            && from + offset + n <= |m.content|
            && Piece(m, r, size, offset, want) == m.content[from + offset..from + offset + n]
            && (n == 0 ==> from + offset == BodyEnd(|m.content|, from, size))
  {
    PieceIs(m, r, from, size, offset, want);
    Cut(m.content, from, size, offset, want);
  }

  lemma SendAlive(m: Media, r: nat, from: nat, size: int, offset: nat, want: nat)
    requires Sent(m, r, from, size, offset) && (size > 0 ==> offset < size) && m.readers[r].alive
    ensures Sends(m, r, from, size, offset, want)
  {
    PieceOfContent(m, r, from, size, offset, want);
    SentMore(m, r, from, size, offset, want);
    ChunkOf(m, r, want, from + offset);
  }

  lemma SentMore(m: Media, r: nat, from: nat, size: int, offset: nat, want: nat)
    requires Sent(m, r, from, size, offset) && (size > 0 ==> offset < size) && m.readers[r].alive
    ensures Sent(ReadChunk(m, r, want).0, r, from, size, offset + |Piece(m, r, size, offset, want)|)
  {
    ReadChunkIsGood(m, r, want);
    ChunkOf(m, r, want, from + offset);
    Cut(m.content, from, size, offset, want);
  }

  lemma ChunkOf(m: Media, r: nat, want: nat, pos: nat)
    requires Isolated(m) && r < |m.readers| && m.readers[r].alive && pos == m.readers[r].from + |m.readers[r].out|
    ensures var (t, chunk) := ReadChunk(m, r, want);
            && chunk == NextChunk<byte>(m.content, pos, want) && t.content == m.content
            && |t.readers| == |m.readers| && t.readers[r] == m.readers[r].(out := m.readers[r].out + chunk)
  {
  }

  lemma DropKeepsSent(m: Media, r: nat, from: nat, size: int, offset: nat, now: int)
    requires Sent(m, r, from, size, offset)
    ensures Sent(Dropped(m, r, now), r, from, size, offset) && m.content[from + offset..from + offset] == []
  {
    DroppedIsGood(m, r, now);
  }

  /** The media after one call of the callback. */
  function AfterCall(m: Media, r: nat, size: int, offset: nat, want: nat, now: int): Media
    requires r < |m.readers|
  {
    if size > 0 && offset >= size then Dropped(m, r, now) else ReadChunk(m, r, want).0
  }

  /** One round's call of the callback; before it another request may create a reader. */
  method CallBack(cb: HttpStreamCB, offset: nat, want: nat, intruder: Option<nat>, now: int,
                  ghost r: nat, ghost from: nat)
    returns (chunk: seq<byte>)
    requires Sent(cb.media.View(), r, from, cb.mSize, offset) && cb.media.mOpened && cb.mReader == Some(r)
    modifies cb, cb.media
    ensures cb.media.mOpened
    ensures Sent(cb.media.View(), r, from, cb.mSize, offset + |chunk|)
    ensures chunk == cb.media.mContent[from + offset..from + offset + |chunk|]
    ensures chunk != [] ==> cb.mReader == Some(r)
    ensures intruder.None? && old(cb.media.mReaders[r].alive) ==>
              if chunk != [] then cb.media.mReaders[r].alive
              else from + offset == BodyEnd(|cb.media.mContent|, from, cb.mSize)
    ensures intruder.None? ==> cb.media.View() == AfterCall(old(cb.media.View()), r, cb.mSize, offset, want, now)
  {
    if intruder.Some? {
      Intrude(cb.media, intruder.value, r);
    }
    chunk := CallAlone(cb, offset, want, now, r, from);
  }

  method CallAlone(cb: HttpStreamCB, offset: nat, want: nat, now: int, ghost r: nat, ghost from: nat)
    returns (chunk: seq<byte>)
    requires Sent(cb.media.View(), r, from, cb.mSize, offset) && cb.media.mOpened && cb.mReader == Some(r)
    modifies cb, cb.media
    ensures cb.media.mOpened
    ensures Sent(cb.media.View(), r, from, cb.mSize, offset + |chunk|)
    ensures chunk == cb.media.mContent[from + offset..from + offset + |chunk|]
    ensures chunk != [] ==> cb.mReader == Some(r)
    ensures old(cb.media.mReaders[r].alive) ==>
              if chunk != [] then cb.media.mReaders[r].alive
              else from + offset == BodyEnd(|cb.media.mContent|, from, cb.mSize)
    ensures cb.media.View() == AfterCall(old(cb.media.View()), r, cb.mSize, offset, want, now)
  {
    if cb.mSize > 0 && offset >= cb.mSize {
      DropKeepsSent(cb.media.View(), r, from, cb.mSize, offset, now);
      chunk := cb.read(offset, want, now);
    } else {
      SendChunk(cb.media.View(), r, from, cb.mSize, offset, want);
      chunk := cb.read(offset, want, now);
    }
  }

  /** The chunks sent so far are the content from `from` on, and this is their wire form. */
  ghost predicate OnWire(content: seq<byte>, from: nat, offset: nat, chunks: seq<seq<byte>>) {
    from + offset <= |content| && Concat(chunks) == content[from..from + offset] && NonEmpty(chunks)
  }

  lemma OneMore(content: seq<byte>, from: nat, offset: nat, chunks: seq<seq<byte>>, chunk: seq<byte>)
    requires OnWire(content, from, offset, chunks) && from + offset + |chunk| <= |content|
    requires chunk == content[from + offset..from + offset + |chunk|] && chunk != []
    ensures OnWire(content, from, offset + |chunk|, chunks + [chunk])
  {
    ConcatSnoc(chunks, chunk);
    FramesSnoc(chunks, chunk);
    Glue(content, from, from + offset, from + offset + |chunk|);
  }

  /** No other request creates a reader on the media meanwhile. */
  ghost predicate Alone(intruder: nat -> Option<nat>) {
    forall i :: intruder(i).None?
  }

  /** What stands on the wire: the chunks, framed if chunked, with the last chunk at the end. */
  function WireForm(chunked: bool, more: bool, chunks: seq<seq<byte>>): seq<byte> {
    if !chunked then Concat(chunks) else if more then Frames(chunks) else Emit(chunks)
  }

  /** The piece that goes out for a chunk; no bytes stand for the end. */
  function Framed(chunked: bool, chunk: seq<byte>): seq<byte> {
    if chunked then EncodeChunk(chunk) else chunk
  }

  /** The chunks sent once this one went out, too. */
  function Extended(chunks: seq<seq<byte>>, chunk: seq<byte>): seq<seq<byte>> {
    if chunk == [] then chunks else chunks + [chunk]
  }

  lemma WireGrows(chunked: bool, chunks: seq<seq<byte>>, chunk: seq<byte>)
    ensures WireForm(chunked, chunk != [], Extended(chunks, chunk))
         == WireForm(chunked, true, chunks) + Framed(chunked, chunk)
  {
    ConcatSnoc(chunks, chunk);
    FramesSnoc(chunks, chunk);
  }

  lemma OneMoreOrNone(content: seq<byte>, from: nat, offset: nat, chunks: seq<seq<byte>>, chunk: seq<byte>)
    requires OnWire(content, from, offset, chunks) && from + offset + |chunk| <= |content|
    requires chunk == content[from + offset..from + offset + |chunk|]
    ensures OnWire(content, from, offset + |chunk|, Extended(chunks, chunk))
  {
    if chunk != [] {
      OneMore(content, from, offset, chunks, chunk);
    }
  }

  lemma RoundOnWire(content: seq<byte>, from: nat, offset: nat, chunked: bool, chunks: seq<seq<byte>>, chunk: seq<byte>)
    requires OnWire(content, from, offset, chunks) && offset == |Concat(chunks)|
    requires from + offset + |chunk| <= |content| && chunk == content[from + offset..from + offset + |chunk|]
    ensures var more := Extended(chunks, chunk);
            && OnWire(content, from, offset + |chunk|, more) && |Concat(more)| == offset + |chunk|
            && WireForm(chunked, chunk != [], more) == WireForm(chunked, true, chunks) + Framed(chunked, chunk)
  {
    OneMoreOrNone(content, from, offset, chunks, chunk);
    WireGrows(chunked, chunks, chunk);
  }

  method Frame(chunked: bool, chunk: seq<byte>) returns (piece: seq<byte>)
    ensures piece == Framed(chunked, chunk)
  {
    piece := chunk;
    if chunked {
      var size := from_i_to_hex(|chunk|);
      piece := size + CRLF + chunk + CRLF;
    }
  }

  /** One round of the loop: the chunk, framed if the response is chunked. */
  method SendRound(cb: HttpStreamCB, chunked: bool, offset: nat, want: nat, intruder: Option<nat>, now: int,
                   ghost r: nat, ghost from: nat)
    returns (n: nat, piece: seq<byte>, ghost chunk: seq<byte>)
    requires Sent(cb.media.View(), r, from, cb.mSize, offset) && cb.media.mOpened && cb.mReader == Some(r)
    modifies cb, cb.media
    ensures n == |chunk| && piece == Framed(chunked, chunk)
    ensures Sent(cb.media.View(), r, from, cb.mSize, offset + n) && cb.media.mOpened
    ensures chunk == cb.media.mContent[from + offset..from + offset + n]
    ensures n != 0 ==> cb.mReader == Some(r)
    ensures intruder.None? && old(cb.media.mReaders[r].alive) ==>
              if n != 0 then cb.media.mReaders[r].alive
              else from + offset == BodyEnd(|cb.media.mContent|, from, cb.mSize)
    ensures intruder.None? ==> cb.media.View() == AfterCall(old(cb.media.View()), r, cb.mSize, offset, want, now)
  {
    var buf := CallBack(cb, offset, want, intruder, now, r, from);
    n, chunk := |buf|, buf;
    piece := Frame(chunked, buf);
  }

  // ---------- what the loop asks of the user's media ----------

  /** k reads by reader r. */
  function Reads(r: nat, k: nat): (calls: seq<UserCall>)
    ensures |calls| == k
  {
    if k == 0 then [] else Reads(r, k - 1) + [Read(r)]
  }

  /** How many bytes k reads that start at from return. */
  function Pulled(length: nat, from: nat, sizes: nat -> nat, k: nat): nat {
    if k == 0 then 0
    else
      var before := Pulled(length, from, sizes, k - 1);
      before + ChunkLength(length, from + before, sizes(k - 1))
  }

  /** The log: these calls, k reads by r, and perhaps the questions of a destructor. */
  ghost predicate Log(calls: seq<UserCall>, before: seq<UserCall>, r: nat, k: nat) {
    && before + Reads(r, k) <= calls
    && forall i | |before| + k <= i < |calls| :: calls[i] == IdleTimeout
  }

  /** Reader r is alive after k reads, and nothing else was asked of the media. */
  ghost predicate Pulling(m: Media, before: seq<UserCall>, r: nat, from: nat, sizes: nat -> nat, k: nat) {
    && r < |m.readers| && m.readers[r].alive && m.readers[r].from == from
    && m.calls == before + Reads(r, k) && |m.readers[r].out| == Pulled(|m.content|, from, sizes, k)
  }

  ghost predicate HasPulled(m: Media, before: seq<UserCall>, r: nat, from: nat, sizes: nat -> nat, k: nat) {
    r < |m.readers| && Log(m.calls, before, r, k) && |m.readers[r].out| == Pulled(|m.content|, from, sizes, k)
  }

  lemma PullMore(m: Media, before: seq<UserCall>, r: nat, from: nat, sizes: nat -> nat, k: nat)
    requires Isolated(m) && Pulling(m, before, r, from, sizes, k)
    ensures Pulling(ReadChunk(m, r, sizes(k)).0, before, r, from, sizes, k + 1)
  {
    Assoc(before, Reads(r, k), [Read(r)]);
  }

  lemma PullEnds(m: Media, before: seq<UserCall>, r: nat, from: nat, sizes: nat -> nat, k: nat, now: int)
    requires Pulling(m, before, r, from, sizes, k)
    ensures HasPulled(m, before, r, from, sizes, k) && HasPulled(Dropped(m, r, now), before, r, from, sizes, k)
  {
  }

  /** An undisturbed response after i rounds: its reader is alive and has pulled i times, or
      the loop is through and the body reaches the end of the range. */
  ghost predicate Undisturbed(m: Media, before: seq<UserCall>, r: nat, from: nat, sizes: nat -> nat, i: nat, k: nat,
                              size: int, offset: nat, more: bool)
  {
    && r < |m.readers| && offset <= |m.readers[r].out|
    && if more then Pulling(m, before, r, from, sizes, i)
       else HasPulled(m, before, r, from, sizes, k) && from + offset == BodyEnd(|m.content|, from, size)
  }

  /** One round of it: the reader is dropped at the limit, and read otherwise. */
  lemma TrackRound(m: Media, before: seq<UserCall>, r: nat, from: nat, sizes: nat -> nat, i: nat,
                   size: int, offset: nat, n: nat, now: int) returns (k: nat)
    requires Isolated(m) && Pulling(m, before, r, from, sizes, i) && offset <= |m.readers[r].out|
    requires var t := AfterCall(m, r, size, offset, sizes(i), now);
             && Sent(t, r, from, size, offset + n)
             && if n != 0 then t.readers[r].alive else from + offset == BodyEnd(|m.content|, from, size)
    ensures var t := AfterCall(m, r, size, offset, sizes(i), now);
            Undisturbed(t, before, r, from, sizes, i + 1, k, size, offset + n, n != 0)
  {
    PullEnds(m, before, r, from, sizes, i, now);
    if size > 0 && offset >= size {
      k := i;
    } else {
      PullMore(m, before, r, from, sizes, i);
      PullEnds(ReadChunk(m, r, sizes(i)).0, before, r, from, sizes, i + 1, now);
      k := i + 1;
    }
  }

  // ---------- the loop ----------

  /** The loop after i rounds that sent the chunks, with another one to come if more. */
  ghost predicate LoopState(m: Media, mReader: Option<nat>, before: seq<UserCall>, r: nat, from: nat, sizes: nat -> nat,
                            i: nat, k: nat, size: int, chunks: seq<seq<byte>>, more: bool, alone: bool)
  {
    var offset := |Concat(chunks)|;
    && Sent(m, r, from, size, offset) && m.isOpen && OnWire(m.content, from, offset, chunks)
    && (more ==> mReader == Some(r))
    && (alone ==> Undisturbed(m, before, r, from, sizes, i, k, size, offset, more))
  }

  /** One round, with what it does to the user's media if nobody disturbs it. */
  method LoopRound(cb: HttpStreamCB, chunked: bool, offset: nat, sizes: nat -> nat, i: nat, intruder: Option<nat>,
                   now: int, ghost alone: bool, ghost before: seq<UserCall>, ghost r: nat, ghost from: nat,
                   ghost k: nat, ghost chunks: seq<seq<byte>>)
    returns (n: nat, piece: seq<byte>, ghost more: seq<seq<byte>>, ghost k': nat)
    requires LoopState(cb.media.View(), cb.mReader, before, r, from, sizes, i, k, cb.mSize, chunks, true, alone)
    requires offset == |Concat(chunks)| && (alone ==> intruder.None?)
    modifies cb, cb.media
    ensures LoopState(cb.media.View(), cb.mReader, before, r, from, sizes, i + 1, k', cb.mSize, more, n != 0, alone)
    ensures offset + n == |Concat(more)|
    ensures WireForm(chunked, n != 0, more) == WireForm(chunked, true, chunks) + piece
  {
    ghost var m := cb.media.View();
    ghost var chunk;
    n, piece, chunk := SendRound(cb, chunked, offset, sizes(i), intruder, now, r, from);
    more := Extended(chunks, chunk);
    RoundOnWire(cb.media.mContent, from, offset, chunked, chunks, chunk);
    k' := k;
    if alone {
      k' := TrackRound(m, before, r, from, sizes, i, cb.mSize, offset, n, now);
    }
  }

  /** The `data_available` loop. sizes is how much each user read returns; at round i
      another request may create a reader that seeks to intruder(i). Every call of the
      callback meets a reader that is still there. */
  method DataLoop(cb: HttpStreamCB, chunked: bool, sizes: nat -> nat, intruder: nat -> Option<nat>, now: int,
                  ghost r: nat, ghost from: nat)
    returns (wire: seq<byte>, ghost chunks: seq<seq<byte>>, ghost k: nat)
    requires Sent(cb.media.View(), r, from, cb.mSize, 0) && cb.media.mOpened && cb.mReader == Some(r)
    requires cb.media.mReaders[r].alive && cb.media.mReaders[r].out == []
    modifies cb, cb.media
    ensures exists i :: LoopState(cb.media.View(), cb.mReader, old(cb.media.mCalls), r, from, sizes, i, k, cb.mSize,
                                  chunks, false, Alone(intruder))
    ensures wire == if chunked then Emit(chunks) else Concat(chunks)
  {
    wire, chunks, k := [], [], 0;
    ghost var before := cb.media.mCalls;
    assert before + Reads(r, 0) == before;
    var offset: nat := 0;
    var i: nat := 0;
    var data_available := true;
    while data_available
      invariant LoopState(cb.media.View(), cb.mReader, before, r, from, sizes, i, k, cb.mSize, chunks, data_available,
                          Alone(intruder))
      invariant offset == |Concat(chunks)| && wire == WireForm(chunked, data_available, chunks)
      decreases data_available, |cb.media.mContent| - offset
    {
      var n, piece;
      n, piece, chunks, k := LoopRound(cb, chunked, offset, sizes, i, intruder(i), now,
                                       Alone(intruder), before, r, from, k, chunks);
      offset := offset + n;
      data_available := n != 0;
      wire := wire + piece;
      i := i + 1;
    }
  }

  /** The body of a response whose callback has a fresh reader: a stretch of the content
      from the reader's from() that never passes the end of the range, and reaches it
      unless another request took over the media. */
  method WriteBody(cb: HttpStreamCB, chunked: bool, sizes: nat -> nat, intruder: nat -> Option<nat>, now: int)
    returns (wire: seq<byte>, ghost chunks: seq<seq<byte>>, ghost k: nat)
    requires cb.mReader.Some? && cb.mReader.value < |cb.media.mReaders|
    requires Good(cb.media.View()) && cb.media.mOpened
    requires var rd := cb.media.mReaders[cb.mReader.value]; rd.alive && rd.out == [] && cb.mSize == SizeOf(rd)
    modifies cb, cb.media
    ensures Good(cb.media.View()) && NonEmpty(chunks)
    ensures wire == if chunked then Emit(chunks) else Concat(chunks)
    ensures var from, sent := old(cb.media.mReaders[cb.mReader.value].from), |Concat(chunks)|;
            && 0 <= from && from + sent <= BodyEnd(|cb.media.mContent|, from, cb.mSize)
            && Concat(chunks) == cb.media.mContent[from..from + sent]
            && (Alone(intruder) ==> from + sent == BodyEnd(|cb.media.mContent|, from, cb.mSize))
    // asked of the user's media: k reads, which together returned the body and maybe more
    ensures Alone(intruder) ==>
              var r, from := old(cb.mReader.value), old(cb.media.mReaders[cb.mReader.value].from);
              && Log(cb.media.mCalls, old(cb.media.mCalls), r, k)
              && from >= 0 && |Concat(chunks)| <= Pulled(|cb.media.mContent|, from, sizes, k)
  {
    ghost var r, from := cb.mReader.value, cb.media.mReaders[cb.mReader.value].from;
    wire, chunks, k := DataLoop(cb, chunked, sizes, intruder, now, r, from);
  }

  lemma IntruderPreempts(m: Media, seek: SeekOutcome, r: nat)
    requires Good(m) && m.isOpen && r < |m.readers| && Truthful(m, seek)
    ensures var t := CreateReader(m, true, 0, -1, seek).0;
            && Good(t) && t.isOpen && r < |t.readers|
            && t.readers[r].from == m.readers[r].from && !t.readers[r].alive
  {
    CreateReaderIsGood(m, true, 0, -1, seek);
    CreateReaderShape(m, true, 0, -1, seek);
    PreemptedIsGood(m);
    var t := CreateReader(m, true, 0, -1, seek).0;
    assert t.readers[r] == t.readers[..|m.readers|][r];
  }

  /** Another request creates a reader on the same media: ours dies, what it got stays. */
  method Intrude(media: ReadMedia, at: nat, ghost r: nat)
    requires Good(media.View()) && media.mOpened && r < |media.mReaders|
    modifies media
    ensures Good(media.View()) && media.mOpened && r < |media.mReaders|
    ensures media.mReaders[r].from == old(media.mReaders[r].from) && !media.mReaders[r].alive
  {
    var at := Min(at, |media.mContent|);
    IntruderPreempts(media.View(), SeekOutcome(at, at), r);
    var other := media.createReader(true, 0, -1, SeekOutcome(at, at));
  }
}
