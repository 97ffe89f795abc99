/** The encrypted media (example/decrypt.cpp) behind the server: it behaves as a media that
    holds the plaintext, so ranges of it are served as ranges of the plaintext. */
module DecryptServing {
  import opened Prelude
  import opened MediaModel
  import opened Chunked
  import opened RangeStreaming
  import opened Responses
  import Decrypt

  function Char(x: Decrypt.raw): byte {
    (x as int) as char
  }

  function Bytes(s: seq<Decrypt.raw>): (r: seq<byte>)
    ensures |r| == |s| && forall i | 0 <= i < |r| :: r[i] == Char(s[i])
  {
    seq(|s|, i requires 0 <= i < |s| => Char(s[i]))
  }

  lemma BytesOfChunk(s: seq<Decrypt.raw>, pos: nat)
    ensures Bytes(Decrypt.Chunk(s, pos)) == NextChunk<byte>(Bytes(s), pos, Decrypt.UNIT_SIZE)
  {
  }

  // ---------- the encrypted file under a run of user calls ----------

  /** Calls other than seek and read do not reach the file. */
  function CallAt(file: seq<Decrypt.raw>, at: Decrypt.Cursor, call: UserCall): Decrypt.Cursor
    requires |file| >= Decrypt.KEY_LEN
  {
    match call
    case Seek(offset) => if offset >= 0 then Decrypt.Cursor(offset, offset % Decrypt.KEY_LEN) else at
    case Read(_) => Decrypt.AfterRead(file, at)
    case _ => at
  }

  function CallOut(file: seq<Decrypt.raw>, at: Decrypt.Cursor, call: UserCall): seq<byte>
    requires |file| >= Decrypt.KEY_LEN
  {
    if call.Read? then Bytes(Decrypt.ReadAt(file, at)) else []
  }

  /** Where the first n calls leave the cursor of a file. */
  function FileAt(file: seq<Decrypt.raw>, c: Decrypt.Cursor, calls: seq<UserCall>, n: nat): Decrypt.Cursor
    requires |file| >= Decrypt.KEY_LEN && n <= |calls|
  {
    if n == 0 then c else CallAt(file, FileAt(file, c, calls, n - 1), calls[n - 1])
  }

  /** All the bytes that the file returns for the first n calls. */
  function FileOut(file: seq<Decrypt.raw>, c: Decrypt.Cursor, calls: seq<UserCall>, n: nat): seq<byte>
    requires |file| >= Decrypt.KEY_LEN && n <= |calls|
  {
    if n == 0 then []
    else FileOut(file, c, calls, n - 1) + CallOut(file, FileAt(file, c, calls, n - 1), calls[n - 1])
  }

  /** No seek in front of the file. */
  ghost predicate Forward(calls: seq<UserCall>) {
    forall i | 0 <= i < |calls| && calls[i].Seek? :: calls[i].offset >= 0
  }

  method Perform(media: Decrypt.EncryptedMedia, call: UserCall) returns (got: seq<byte>)
    requires media.Opened() && (call.Seek? ==> call.offset >= 0)
    modifies media`mFp, media`mKeyOffset
    ensures media.Opened() && media.At() == CallAt(media.file, old(media.At()), call)
    ensures got == CallOut(media.file, old(media.At()), call)
  {
    got := [];
    match call
    case Seek(offset) =>
      var ret := media.seek(offset);
    case Read(_) =>
      var chunk := media.read();
      got := Bytes(chunk);
    case _ =>
  }

  /** Carries the calls out on the encrypted media. */
  method Replay(media: Decrypt.EncryptedMedia, calls: seq<UserCall>) returns (got: seq<byte>)
    requires media.Opened() && Forward(calls)
    modifies media`mFp, media`mKeyOffset
    ensures media.Opened() && media.At() == FileAt(media.file, old(media.At()), calls, |calls|)
    ensures got == FileOut(media.file, old(media.At()), calls, |calls|)
  {
    got := [];
    ghost var start := media.At();
    for i := 0 to |calls|
      invariant media.Opened() && media.At() == FileAt(media.file, start, calls, i)
      invariant got == FileOut(media.file, start, calls, i)
    {
      var more := Perform(media, calls[i]);
      got := got + more;
    }
  }

  // ---------- it answers as its plaintext would ----------

  /** The same calls on a media of this length. */
  function ContentStep(length: nat, pos: nat, call: UserCall): nat {
    match call
    case Seek(offset) => if offset >= 0 then offset else pos
    case Read(_) => pos + ChunkLength(length, pos, Decrypt.UNIT_SIZE)
    case _ => pos
  }

  function ContentPiece(content: seq<byte>, pos: nat, call: UserCall): seq<byte> {
    if call.Read? then NextChunk<byte>(content, pos, Decrypt.UNIT_SIZE) else []
  }

  function ContentAt(length: nat, pos: nat, calls: seq<UserCall>, n: nat): nat
    requires n <= |calls|
  {
    if n == 0 then pos else ContentStep(length, ContentAt(length, pos, calls, n - 1), calls[n - 1])
  }

  /** What they return if it holds this content. */
  function ContentOut(content: seq<byte>, pos: nat, calls: seq<UserCall>, n: nat): seq<byte>
    requires n <= |calls|
  {
    if n == 0 then []
    else
      var at := ContentAt(|content|, pos, calls, n - 1);
      ContentOut(content, pos, calls, n - 1) + ContentPiece(content, at, calls[n - 1])
  }

  predicate InStep(c: Decrypt.Cursor) {
    c.keyOffset == c.pos % Decrypt.KEY_LEN
  }

  /** One call in step: the answer of the plaintext, and in step again. */
  lemma CallCorresponds(file: seq<Decrypt.raw>, at: Decrypt.Cursor, call: UserCall)
    requires |file| >= Decrypt.KEY_LEN && InStep(at)
    ensures InStep(CallAt(file, at, call))
    ensures CallAt(file, at, call).pos == ContentStep(|file| - Decrypt.KEY_LEN, at.pos, call)
    ensures CallOut(file, at, call) == ContentPiece(Bytes(Decrypt.Plain(file)), at.pos, call)
  {
    if call.Read? {
      Decrypt.ReadInStep(file, at.pos);
      BytesOfChunk(Decrypt.Plain(file), at.pos);
      Decrypt.OffsetMoves(at.pos, |Decrypt.ReadAt(file, at)|);
    }
  }

  /** Any run of calls on an encrypted file returns what its plaintext would return. */
  lemma {:induction false} FileCorresponds(file: seq<Decrypt.raw>, c: Decrypt.Cursor, calls: seq<UserCall>, n: nat)
    requires |file| >= Decrypt.KEY_LEN && InStep(c) && n <= |calls|
    ensures InStep(FileAt(file, c, calls, n))
    ensures FileAt(file, c, calls, n).pos == ContentAt(|file| - Decrypt.KEY_LEN, c.pos, calls, n)
    ensures FileOut(file, c, calls, n) == ContentOut(Bytes(Decrypt.Plain(file)), c.pos, calls, n)
  {
    if n > 0 {
      FileCorresponds(file, c, calls, n - 1);
      CallCorresponds(file, FileAt(file, c, calls, n - 1), calls[n - 1]);
    }
  }

  // ---------- the calls of a response ----------

  /** read asks for up to 4096 bytes, whatever round it is. */
  function Unit(round: nat): nat {
    Decrypt.UNIT_SIZE
  }

  /** Calls a to a + k are reads. */
  ghost predicate ReadsAt(calls: seq<UserCall>, a: nat, k: nat) {
    a + k <= |calls| && forall i | a <= i < a + k :: calls[i].Read?
  }

  lemma {:induction false} ReadsMove(length: nat, calls: seq<UserCall>, a: nat, k: nat)
    requires ReadsAt(calls, a, k)
    ensures var start := ContentAt(length, 0, calls, a);
            ContentAt(length, 0, calls, a + k) == start + Pulled(length, start, Unit, k)
  {
    if k > 0 {
      ReadsMove(length, calls, a, k - 1);
    }
  }

  /** Behind a seek, before anything else that moves. */
  lemma {:induction false} SeekMoves(length: nat, calls: seq<UserCall>, s: nat, start: nat, n: nat)
    requires s < n <= |calls| && calls[s] == Seek(start)
    requires forall i | s < i < n :: !calls[i].Seek? && !calls[i].Read?
    ensures ContentAt(length, 0, calls, n) == start
  {
    if n > s + 1 {
      SeekMoves(length, calls, s, start, n - 1);
    }
  }

  lemma {:induction false} NothingRead(content: seq<byte>, calls: seq<UserCall>, n: nat)
    requires n <= |calls| && forall i | 0 <= i < n :: !calls[i].Read?
    ensures ContentOut(content, 0, calls, n) == []
  {
    if n > 0 {
      NothingRead(content, calls, n - 1);
    }
  }

  /** Between a and n nothing is sought. */
  ghost predicate SeekFree(calls: seq<UserCall>, a: nat, n: nat) {
    a <= n <= |calls| && forall i | a <= i < n :: !calls[i].Seek?
  }

  lemma {:induction false} Onward(length: nat, calls: seq<UserCall>, a: nat, n: nat)
    requires SeekFree(calls, a, n) && ContentAt(length, 0, calls, a) <= length
    ensures ContentAt(length, 0, calls, a) <= ContentAt(length, 0, calls, n) <= length
  {
    if a < n {
      Onward(length, calls, a, n - 1);
    }
  }

  /** The content from start to at. */
  ghost predicate Stretch(content: seq<byte>, start: nat, at: nat, out: seq<byte>) {
    && start <= at <= |content| && |out| == at - start
    && forall i | 0 <= i < |out| :: out[i] == content[start + i]
  }

  lemma StretchMore(content: seq<byte>, start: nat, at: nat, out: seq<byte>, call: UserCall)
    requires Stretch(content, start, at, out) && !call.Seek?
    ensures Stretch(content, start, ContentStep(|content|, at, call), out + ContentPiece(content, at, call))
  {
    var piece := ContentPiece(content, at, call);
    forall i | |out| <= i < |out + piece|
      ensures (out + piece)[i] == content[start + i]
    {
      assert (out + piece)[i] == piece[i - |out|];
    }
  }

  /** The first n calls returned the content from start to where they end. */
  ghost predicate Covered(content: seq<byte>, calls: seq<UserCall>, start: nat, n: nat) {
    n <= |calls| && Stretch(content, start, ContentAt(|content|, 0, calls, n), ContentOut(content, 0, calls, n))
  }

  lemma CoverMore(content: seq<byte>, calls: seq<UserCall>, start: nat, n: nat)
    requires Covered(content, calls, start, n) && n < |calls| && !calls[n].Seek?
    ensures Covered(content, calls, start, n + 1)
  {
    StretchMore(content, start, ContentAt(|content|, 0, calls, n), ContentOut(content, 0, calls, n), calls[n]);
  }

  /** Without a seek the calls go straight through the content. */
  lemma {:induction false} Straight(content: seq<byte>, calls: seq<UserCall>, start: nat, a: nat, n: nat)
    requires SeekFree(calls, a, n) && Covered(content, calls, start, a)
    ensures Covered(content, calls, start, n)
    decreases n - a
  {
    if a < n {
      CoverMore(content, calls, start, a);
      Straight(content, calls, start, a + 1, n);
    }
  }

  /** A log with its only seek at s, k reads from a on, and the questions of a destructor. */
  ghost predicate Handled(calls: seq<UserCall>, s: nat, start: nat, a: nat, k: nat) {
    && s < a && ReadsAt(calls, a, k) && calls[s] == Seek(start)
    && (forall i | 0 <= i < a :: !calls[i].Read? && (i != s ==> !calls[i].Seek?))
    && forall i | a + k <= i < |calls| :: calls[i] == IdleTimeout
  }

  lemma HandledMoves(length: nat, calls: seq<UserCall>, s: nat, start: nat, a: nat, k: nat)
    requires Handled(calls, s, start, a, k) && start <= length
    ensures ContentAt(length, 0, calls, a) == start
    ensures start + Pulled(length, start, Unit, k) <= ContentAt(length, 0, calls, |calls|) <= length
  {
    SeekMoves(length, calls, s, start, a);
    ReadsMove(length, calls, a, k);
    Onward(length, calls, a, a + k);
    Onward(length, calls, a + k, |calls|);
  }

  lemma HandledReads(content: seq<byte>, calls: seq<UserCall>, s: nat, start: nat, a: nat, k: nat)
    requires Handled(calls, s, start, a, k) && start <= |content|
    ensures Covered(content, calls, start, |calls|)
  {
    SeekMoves(|content|, calls, s, start, a);
    NothingRead(content, calls, a);
    Straight(content, calls, start, a, |calls|);
  }

  /** What the calls of a response return begins with its body. */
  lemma BodyOfCalls(content: seq<byte>, calls: seq<UserCall>, s: nat, start: nat, a: nat, k: nat, body: seq<byte>)
    requires Handled(calls, s, start, a, k) && start <= |content|
    requires |body| <= Pulled(|content|, start, Unit, k) && Stretch(content, start, start + |body|, body)
    ensures body <= ContentOut(content, 0, calls, |calls|)
  {
    HandledMoves(|content|, calls, s, start, a, k);
    HandledReads(content, calls, s, start, a, k);
    Begins(content, start, body, ContentAt(|content|, 0, calls, |calls|), ContentOut(content, 0, calls, |calls|));
  }

  lemma Begins(content: seq<byte>, start: nat, body: seq<byte>, end: nat, out: seq<byte>)
    requires Stretch(content, start, start + |body|, body) && Stretch(content, start, end, out)
    requires start + |body| <= end
    ensures body <= out
  {
  }

  lemma {:induction false} OnlyReads(r: nat, k: nat)
    ensures forall i | 0 <= i < k :: Reads(r, k)[i] == Read(r)
  {
    if k > 0 {
      OnlyReads(r, k - 1);
    }
  }

  /** The calls of a handler before a body that begins at start, on a media just opened. */
  function HandlerCalls(start: nat): seq<UserCall> {
    [Open(true), Seekable, Size, Seek(start), MimeType, Seekable, Size, Size]
  }

  /** The log of a request for the bytes from start on, with k reads. */
  ghost predicate RangeLog(calls: seq<UserCall>, start: nat, k: nat) {
    Handled(calls, 3, start, 8, k)
  }

  lemma LogIsHandled(calls: seq<UserCall>, start: nat, r: nat, k: nat)
    requires Log(calls, HandlerCalls(start), r, k)
    ensures RangeLog(calls, start, k) && Forward(calls)
  {
    OnlyReads(r, k);
    var before := HandlerCalls(start);
    var all := before + Reads(r, k);
    assert forall i | 0 <= i < |all| :: calls[i] == all[i];
    assert forall i | 0 <= i < 8 :: calls[i] == before[i];
    assert forall i | 8 <= i < 8 + k :: calls[i] == Reads(r, k)[i - 8];
  }
  // ---------- a Range request ----------

  /** The media that the framework makes for an opened file. */
  function Fresh(content: seq<byte>, timeout: int): Media {
    Opened(1, content, |content|, true, timeout, true)
  }

  /** What the handler asks before the body. */
  lemma HandlerAsks(content: seq<byte>, timeout: int, from: nat, to: Option<nat>)
    ensures var m, last := Fresh(content, timeout), if to.Some? then to.value else -1;
            var calls := m.calls + RequestCalls(m, from, last, HonestSeek(m, from, last));
            var range := Clamped(|content|, from, to);
            if range.None? then Forward(calls) else range.value.0 >= 0 && calls == HandlerCalls(range.value.0)
  {
    var m, last := Fresh(content, timeout), if to.Some? then to.value else -1;
    OpenedIsGood(1, content, |content|, true, timeout, true);
    HonestGrant(m, from, to);
  }

  /** What was asked, when the range is known. */
  lemma AskedCalls(content: seq<byte>, timeout: int, from: nat, to: Option<nat>,
                   calls: seq<UserCall>, body: seq<byte>, k: nat)
    requires var m, last := Fresh(content, timeout), if to.Some? then to.value else -1;
             AskedOf(m, from, last, HonestSeek(m, from, last), calls, body, Unit, k)
    ensures var range := Clamped(|content|, from, to);
            && Forward(calls)
            && (range.Some? ==> range.value.0 >= 0 && RangeLog(calls, range.value.0, k)
                                && |body| <= Pulled(|content|, range.value.0, Unit, k))
  {
    OpenedIsGood(1, content, |content|, true, timeout, true);
    HonestGrant(Fresh(content, timeout), from, to);
    HandlerAsks(content, timeout, from, to);
    var range := Clamped(|content|, from, to);
    if range.Some? {
      LogIsHandled(calls, range.value.0, 0, k);
    }
  }

  /** What the calls of a range response return begins with its body. */
  lemma WireOfCalls(content: seq<byte>, range: Option<(int, int)>, res: Response, wire: seq<byte>,
                    calls: seq<UserCall>, k: nat)
    requires RangeServed(content, range, res, wire, true)
    requires range.Some? ==> RangeLog(calls, range.value.0, k)
                             && |wire| <= Pulled(|content|, range.value.0, Unit, k)
    ensures wire <= ContentOut(content, 0, calls, |calls|)
  {
    if range.Some? {
      BodyOfCalls(content, calls, 3, range.value.0, 8, k, wire);
    }
  }

  /** A Range request on a media just opened, with the user calls made for it. */
  method ServeFresh(content: seq<byte>, size: int, timeout: int, from: nat, to: Option<nat>, now: int)
    returns (res: Response?, wire: seq<byte>, calls: seq<UserCall>, ghost k: nat)
    requires size == |content| <= INT64_MAX
    ensures res == null <==> from > INT_MAX || (to.Some? && to.value > INT_MAX)
    ensures res != null ==>
              && RangeServed(content, Clamped(|content|, from, to), res, wire, true)
              && wire <= ContentOut(content, 0, calls, |calls|)
              && var m, last := Fresh(content, timeout), if to.Some? then to.value else -1;
                 AskedOf(m, from, last, HonestSeek(m, from, last), calls, wire, Unit, k)
    ensures Forward(calls)
  {
    var media := new ReadMedia(1, content, size, true, timeout, true);
    OpenedIsGood(1, content, size, true, timeout, true);
    res, wire, k := ServeHeader(media, from, to, Unit, now);
    calls := media.mCalls;
    if res != null {
      AskedCalls(content, timeout, from, to, calls, wire, k);
      WireOfCalls(content, Clamped(|content|, from, to), res, wire, calls, k);
    }
  }

  /** A Range request on an encrypted file. The client gets that range of the plaintext, and
      its bytes are what the encrypted file itself returns for the very calls that the
      framework makes, cut at the end of the range. */
  method ServeEncrypted(plain: seq<Decrypt.raw>, key: Decrypt.Key, timeout: int, from: nat, to: Option<nat>, now: int)
    returns (res: Response?, wire: seq<byte>, calls: seq<UserCall>, encrypted: Decrypt.EncryptedMedia, got: seq<byte>,
             ghost k: nat)
    requires |plain| <= INT64_MAX
    ensures encrypted.file == Decrypt.Encrypted(plain, key) && encrypted.Opened()
    ensures encrypted.At() == FileAt(encrypted.file, Decrypt.Cursor(0, 0), calls, |calls|)
    ensures got == FileOut(encrypted.file, Decrypt.Cursor(0, 0), calls, |calls|)
    ensures res == null <==> from > INT_MAX || (to.Some? && to.value > INT_MAX)
    ensures res != null ==>
              && RangeServed(Bytes(plain), Clamped(|plain|, from, to), res, wire, true)
              && wire <= got
              && var m, last := Fresh(Bytes(plain), timeout), if to.Some? then to.value else -1;
                 AskedOf(m, from, last, HonestSeek(m, from, last), calls, wire, Unit, k)
  {
    var file := Decrypt.Encrypt(plain, key);
    Decrypt.PlainOfEncrypted(plain, key);
    encrypted := new Decrypt.EncryptedMedia(file);
    var ok := encrypted.open();
    res, wire, calls, k := ServeFresh(Bytes(plain), encrypted.mSize, timeout, from, to, now);
    FileCorresponds(file, Decrypt.Cursor(0, 0), calls, |calls|);
    got := Replay(encrypted, calls);
  }
}
