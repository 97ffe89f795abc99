/** Responses: `makeMediaResponse` (src/http_server.cpp) on a request's Range header, the
    body that `write_response` (src/httplib.h) then sends, and what a client reads back. */
module Responses {
  import opened Prelude
  import opened Numerals
  import opened MediaModel
  import opened Chunked
  import opened RangeStreaming

  /** The Content-Range header: none, `bytes 0-`, or `bytes first-last/size`. */
  datatype ContentRange = Unset | Endless | Within(first: int, last: int, size: int)

  class Response {
    var status: int
    var contentLength: Option<int>
    var contentRange: ContentRange
    var streamcb: HttpStreamCB?

    constructor ()
      ensures status == -1 && contentLength.None? && contentRange.Unset? && streamcb == null
    {
      status, contentLength, contentRange, streamcb := -1, None, Unset, null;
    }
  }

  // ---------- the range a request gets ----------

  /** A seekable media whose size() is its length, or a stream. */
  ghost predicate Consistent(m: Media) {
    Good(m) && m.isOpen && (m.canSeek ==> m.size == |m.content|)
  }

  /** First and last position of the reader that createReader makes for from and to when the
      user's seek goes as it does; (0, -1) on a stream. */
  function Granted(m: Media, from: int, to: int, seek: SeekOutcome): Option<(int, int)> {
    if !m.canSeek then if seek.ret == 0 then Some((0, -1)) else None
    else match ClampRange(m.size, from, to)
      case None => None
      case Some((start, end)) => if 0 <= seek.ret <= end then Some((seek.ret, end)) else None
  }

  lemma GrantedReader(m: Media, from: int, to: int, seek: SeekOutcome)
    requires Consistent(m) && Truthful(m, seek)
    ensures var (t, r) := CreateReader(m, true, from, to, seek);
            && Good(t) && t.isOpen && (r.None? <==> Granted(m, from, to, seek).None?)
            && t.calls == m.calls + CallsOfCreate(m, from, to)
            && (r.Some? ==> r.value == |m.readers| < |t.readers|
                            && var rd := t.readers[r.value];
                               rd.alive && rd.out == [] && Granted(m, from, to, seek) == Some((rd.from, rd.to)))
  {
    CreateReaderIsGood(m, true, from, to, seek);
    CreateReaderCalls(m, true, from, to, seek);
    CreateReaderShape(m, true, from, to, seek);
    GrantedRange(m, from, to, seek);
  }

  lemma GrantedRange(m: Media, from: int, to: int, seek: SeekOutcome)
    requires LastReaderExists(m)
    ensures var (t, r) := CreateReader(m, true, from, to, seek);
            && (r.None? <==> Granted(m, from, to, seek).None?)
            && (r.Some? ==> r.value == |m.readers| < |t.readers|
                            && var rd := t.readers[r.value];
                               rd.alive && rd.out == [] && Granted(m, from, to, seek) == Some((rd.from, rd.to)))
  {
  }

  lemma AllCalls(m: Media, from: int, to: int, seek: SeekOutcome)
    ensures m.calls + RequestCalls(m, from, to, seek)
         == if Granted(m, from, to, seek).Some? then m.calls + CallsOfCreate(m, from, to) + CallsAfter(m.canSeek)
            else m.calls + CallsOfCreate(m, from, to)
  {
    Assoc(m.calls, CallsOfCreate(m, from, to), CallsAfter(m.canSeek));
    assert CallsOfCreate(m, from, to) + [] == CallsOfCreate(m, from, to);
  }

  /** The calls a request makes on the media once it has its reader. */
  function CallsAfter(canSeek: bool): seq<UserCall> {
    if canSeek then [MimeType, Seekable, Size, Size] else [MimeType, Seekable]
  }

  /** All calls of a request's handler on the media. */
  function RequestCalls(m: Media, from: int, to: int, seek: SeekOutcome): seq<UserCall> {
    CallsOfCreate(m, from, to) + (if Granted(m, from, to, seek).Some? then CallsAfter(m.canSeek) else [])
  }

  /** The reader of a response's callback stands at the start of the range. */
  ghost predicate Ready(cb: HttpStreamCB?, media: ReadMedia, range: (int, int))
    reads cb, media
  {
    && cb != null && cb.media == media && cb.mReader.Some? && cb.mReader.value < |media.mReaders|
    && var rd := media.mReaders[cb.mReader.value];
       rd.alive && rd.out == [] && cb.mSize == SizeOf(rd) && (rd.from, rd.to) == range
  }

  /** The status and headers of a response that has a reader. */
  method fillIn(res: Response, media: ReadMedia, from: int, to: int)
    requires media.mSeekable ==> 0 <= from <= to < media.mSize
    modifies res`status, res`contentLength, res`contentRange, media`mCalls
    ensures media.mCalls == old(media.mCalls) + CallsAfter(media.mSeekable)
    ensures if media.mSeekable then
              && res.status == 206 && res.contentLength == Some(to - from + 1)
              && res.contentRange == Within(from, to, media.mSize)
            else
              res.status == 200 && res.contentRange.Endless? && res.contentLength == old(res.contentLength)
  {
    media.ask(MimeType);
    media.ask(Seekable);
    if media.mSeekable {
      media.ask(Size);
      if media.mSize < 0 || to < 0 || from < 0 {
        assert false;  // status 500: cannot happen while size() keeps its answer
      }
      res.status := 206;
      res.contentLength := Some(to - from + 1);
      media.ask(Size);
      res.contentRange := Within(from, to, media.mSize);
    } else {
      res.status := 200;
      res.contentRange := Endless;
    }
  }

  /** The part of makeMediaResponse behind createReader. */
  method answer(res: Response, media: ReadMedia, reader: nat)
    requires reader < |media.mReaders| && media.mReaders[reader].alive && media.mReaders[reader].out == []
    requires media.mSeekable ==> 0 <= media.mReaders[reader].from <= media.mReaders[reader].to < media.mSize
    modifies res, media`mCalls
    ensures media.mCalls == old(media.mCalls) + CallsAfter(media.mSeekable)
    ensures fresh(res.streamcb)
    ensures res.streamcb != null && res.streamcb.media == media && res.streamcb.mReader == Some(reader)
    ensures res.streamcb.mSize == SizeOf(media.mReaders[reader])
    ensures var rd := media.mReaders[reader];
            if media.mSeekable then
              && res.status == 206 && res.contentLength == Some(rd.to - rd.from + 1)
              && res.contentRange == Within(rd.from, rd.to, media.mSize)
            else
              res.status == 200 && res.contentRange.Endless? && res.contentLength == old(res.contentLength)
  {
    res.streamcb := new HttpStreamCB(media, reader);
    fillIn(res, media, media.mReaders[reader].from, media.mReaders[reader].to);
  }

  /** createReader, as far as the response depends on it. */
  method openReader(media: ReadMedia, from: int, to: int, seek: SeekOutcome) returns (reader: Option<nat>)
    requires Consistent(media.View()) && Truthful(media.View(), seek)
    modifies media
    ensures Good(media.View()) && media.mOpened
    ensures media.mCalls == old(media.mCalls) + CallsOfCreate(old(media.View()), from, to)
    ensures match Granted(old(media.View()), from, to, seek)
            case None => reader.None?
            case Some((start, end)) =>
              && reader == Some(|old(media.mReaders)|) && reader.value < |media.mReaders|
              && media.mReaders[reader.value].from == start && media.mReaders[reader.value].to == end
              && media.mReaders[reader.value].alive && media.mReaders[reader.value].out == []
              && (media.mSeekable ==> 0 <= start <= end < |media.mContent| == media.mSize)
  {
    GrantedReader(media.View(), from, to, seek);
    reader := media.createReader(true, from, to, seek);
  }

  /** Fills in status, callback and headers; seek is how the user's seek goes. */
  method makeMediaResponse(res: Response, media: ReadMedia, from: int, to: int, seek: SeekOutcome)
    requires Consistent(media.View()) && Truthful(media.View(), seek)
    modifies res, media
    ensures Good(media.View()) && media.mOpened
    ensures match Granted(old(media.View()), from, to, seek)
            case None => res.status == 416 && res.streamcb == old(res.streamcb)
            case Some((start, end)) =>
              && Ready(res.streamcb, media, (start, end)) && fresh(res.streamcb)
              && if media.mSeekable then
                   && res.status == 206 && res.contentLength == Some(end - start + 1)
                   && res.contentRange == Within(start, end, |media.mContent|)
                 else
                   res.status == 200 && res.contentRange.Endless? && res.contentLength == old(res.contentLength)
    ensures media.mCalls == old(media.mCalls) + RequestCalls(old(media.View()), from, to, seek)
    ensures Granted(old(media.View()), from, to, seek).Some? ==> res.streamcb.mReader == Some(|old(media.mReaders)|)
  {
    AllCalls(media.View(), from, to, seek);
    var reader := openReader(media, from, to, seek);
    if reader.None? {
      res.status := 416;
      return;
    }
    ghost var made := media.View();
    answer(res, media, reader.value);
    LoggedIsGood(made, CallsAfter(media.mSeekable));
    assert media.View() == Logged(made, CallsAfter(media.mSeekable));
  }

  // ---------- status, headers and body ----------

  /** The response to a range request whose reader covers start..end of the content. The
      size of a range that ends at byte 0 is lost: its body runs to the end of the media. */
  ghost predicate RangeServed(content: seq<byte>, range: Option<(int, int)>, res: Response, wire: seq<byte>,
                              alone: bool)
    reads res
  {
    var n := |content|;
    match range
    case None => res.status == 416 && wire == []
    case Some((start, end)) =>
      && 0 <= start <= end < n
      && res.status == 206 && res.contentLength == Some(end - start + 1) && res.contentRange == Within(start, end, n)
      && start + |wire| <= (if end > 0 then end + 1 else n) && wire == content[start..start + |wire|]
      && (alone ==> wire == content[start..if end > 0 then end + 1 else n])
      && (alone ==> (wire == content[start..end + 1] <==> end > 0 || n == 1))
  }

  /** A body from the reader's from() on, within its range. */
  lemma RangeCovered(content: seq<byte>, rd: Reader, res: Response, wire: seq<byte>, alone: bool)
    requires 0 <= rd.from <= rd.to < |content| <= INT64_MAX
    requires res.status == 206 && res.contentLength == Some(rd.to - rd.from + 1)
    requires res.contentRange == Within(rd.from, rd.to, |content|)
    requires rd.from + |wire| <= BodyEnd(|content|, rd.from, SizeOf(rd)) && wire == content[rd.from..rd.from + |wire|]
    requires alone ==> rd.from + |wire| == BodyEnd(|content|, rd.from, SizeOf(rd))
    ensures RangeServed(content, Some((rd.from, rd.to)), res, wire, alone)
  {
  }

  /** Chunked framing of a prefix of the content, all of it if nobody intrudes. */
  ghost predicate StreamServed(content: seq<byte>, res: Response, wire: seq<byte>, chunks: seq<seq<byte>>, alone: bool)
    reads res
  {
    && res.status == 200 && res.contentRange.Endless? && res.contentLength.None?
    && wire == Emit(chunks) && NonEmpty(chunks) && Concat(chunks) <= content
    && (alone ==> Concat(chunks) == content)
  }

  lemma StreamCovered(content: seq<byte>, rd: Reader, body: seq<byte>)
    requires rd.from == 0 && rd.to == -1 && |content| <= INT64_MAX
    requires |body| <= BodyEnd(|content|, 0, SizeOf(rd)) && body == content[0..|body|]
    ensures body <= content
    ensures |body| == BodyEnd(|content|, 0, SizeOf(rd)) ==> body == content
  {
    assert content[0..|content|] == content;
  }

  /** What the client gets for from, to and the way the user's seek goes. */
  ghost predicate Answered(m: Media, from: int, to: int, seek: SeekOutcome, res: Response,
                           wire: seq<byte>, chunks: seq<seq<byte>>, alone: bool)
    reads res
  {
    var range := Granted(m, from, to, seek);
    if m.canSeek || range.None? then RangeServed(m.content, range, res, wire, alone)
    else StreamServed(m.content, res, wire, chunks, alone)
  }

  /** What an undisturbed response asks of the user's media: the handler's calls, then k reads
      by the new reader, which together return the body and maybe more. */
  ghost predicate AskedOf(m: Media, from: int, to: int, seek: SeekOutcome, calls: seq<UserCall>, body: seq<byte>,
                        sizes: nat -> nat, k: nat)
  {
    match Granted(m, from, to, seek)
    case None => calls == m.calls + RequestCalls(m, from, to, seek)
    case Some((start, _)) =>
      && Log(calls, m.calls + RequestCalls(m, from, to, seek), |m.readers|, k)
      && start >= 0 && |body| <= Pulled(|m.content|, start, sizes, k)
  }

  /** A whole response. The 416 response has no callback and an empty body. */
  method Serve(media: ReadMedia, from: int, to: int, seek: SeekOutcome, sizes: nat -> nat, intruder: nat -> Option<nat>,
               now: int)
    returns (res: Response, wire: seq<byte>, ghost chunks: seq<seq<byte>>, ghost k: nat)
    requires Consistent(media.View()) && Truthful(media.View(), seek) && |media.mContent| <= INT64_MAX
    modifies media
    ensures fresh(res) && Good(media.View())
    ensures Answered(old(media.View()), from, to, seek, res, wire, chunks, Alone(intruder))
    ensures wire == if res.status == 200 then Emit(chunks) else Concat(chunks)
    ensures Alone(intruder) ==> AskedOf(old(media.View()), from, to, seek, media.mCalls, Concat(chunks), sizes, k)
  {
    res := new Response();
    wire, chunks, k := [], [], 0;
    makeMediaResponse(res, media, from, to, seek);
    if res.streamcb != null {
      ghost var range := Granted(old(media.View()), from, to, seek).value;
      wire, chunks, k := sendBody(res, media, sizes, intruder, now, range);
    }
  }

  /** The part of write_response behind the headers. */
  method sendBody(res: Response, media: ReadMedia, sizes: nat -> nat, intruder: nat -> Option<nat>, now: int,
                  ghost range: (int, int))
    returns (wire: seq<byte>, ghost chunks: seq<seq<byte>>, ghost k: nat)
    requires Good(media.View()) && media.mOpened && |media.mContent| <= INT64_MAX
    requires Ready(res.streamcb, media, range)
    requires if media.mSeekable then
               && 0 <= range.0 <= range.1 < |media.mContent| && res.status == 206
               && res.contentLength == Some(range.1 - range.0 + 1)
               && res.contentRange == Within(range.0, range.1, |media.mContent|)
             else
               range == (0, -1) && res.status == 200 && res.contentRange.Endless? && res.contentLength.None?
    modifies res.streamcb, media
    ensures Good(media.View())
    ensures if media.mSeekable then RangeServed(media.mContent, Some(range), res, wire, Alone(intruder))
            else StreamServed(media.mContent, res, wire, chunks, Alone(intruder))
    ensures wire == if res.status == 200 then Emit(chunks) else Concat(chunks)
    ensures Alone(intruder) ==>
              && Log(media.mCalls, old(media.mCalls), old(res.streamcb.mReader.value), k)
              && range.0 >= 0 && |Concat(chunks)| <= Pulled(|media.mContent|, range.0, sizes, k)
  {
    ghost var rd := media.mReaders[res.streamcb.mReader.value];
    wire, chunks, k := WriteBody(res.streamcb, res.contentLength.None?, sizes, intruder, now);
    if media.mSeekable {
      RangeCovered(media.mContent, rd, res, wire, Alone(intruder));
    } else {
      StreamCovered(media.mContent, rd, Concat(chunks));
    }
  }

  // ---------- from the Range header to the bytes ----------

  /** What the code makes of bytes=from-to on n bytes: both positions are clamped. */
  function Clamped(n: nat, from: nat, to: Option<nat>): Option<(int, int)> {
    var first := if from < n then from else n - 1;
    var last := if to.Some? && to.value < n then to.value else n - 1;
    if n == 0 || first > last then None else Some((first, last))
  }

  datatype Verdict = Ignore | Unsatisfiable | Part(first: int, last: int)

  /** What section 2.1 of RFC 7233 makes of it. */
  function Requested(n: nat, from: nat, to: Option<nat>): Verdict {
    if to.Some? && to.value < from then Ignore
    else if from >= n then Unsatisfiable
    else Part(from, if to.Some? && to.value < n then to.value else n - 1)
  }

  /** The code agrees with the RFC exactly if the positions are in order and the first one is
      inside the media. Otherwise it answers 416 where the header should be ignored, or 206
      with the last byte where the range is unsatisfiable. */
  lemma ClampedExactly(n: nat, from: nat, to: Option<nat>)
    ensures Requested(n, from, to) == (match Clamped(n, from, to)
                                       case Some((first, last)) => Part(first, last)
                                       case None => Unsatisfiable)
       <==> !(to.Some? && to.value < from) && (from < n || n == 0)
  {
  }

  /** A seek that goes where it is sent. */
  function HonestSeek(m: Media, from: int, to: int): SeekOutcome {
    match ClampRange(m.size, from, to)
    case Some((start, _)) => if m.canSeek && start >= 0 then SeekOutcome(start, start) else SeekOutcome(0, 0)
    case None => SeekOutcome(0, 0)
  }

  lemma HonestGrant(m: Media, from: nat, to: Option<nat>)
    requires Consistent(m) && m.canSeek
    ensures var last := if to.Some? then to.value else -1;
            && Truthful(m, HonestSeek(m, from, last))
            && Granted(m, from, last, HonestSeek(m, from, last)) == Clamped(|m.content|, from, to)
  {
  }

  lemma {:induction false} RangeIsForward(h: seq<byte>)
    ensures GetRange(h).Range? ==> GetRange(h).from >= 0 && GetRange(h).to >= -1
  {
    if RangeAt(h).None? && h != [] {
      RangeIsForward(h[1..]);
    }
  }

  /** A position that getRange returns; -1 means that there is none. */
  function Given(to: int): Option<nat> {
    if to >= 0 then Some(to) else None
  }

  /** A request with whatever it has in its Range header on an undisturbed seekable media. null
      stands for the std::out_of_range that getRange lets through. */
  method ServeText(media: ReadMedia, header: seq<byte>, sizes: nat -> nat, now: int)
    returns (res: Response?, wire: seq<byte>, ghost k: nat)
    requires Consistent(media.View()) && media.mSeekable && |media.mContent| <= INT64_MAX
    modifies media
    ensures res == null <==> GetRange(header).TooLarge?
    ensures res == null ==> media.View() == old(media.View())
    ensures res != null ==>
              var m, n, first, last := old(media.View()), |media.mContent|, GetRange(header).from, GetRange(header).to;
              && fresh(res) && first >= 0
              && RangeServed(media.mContent, Clamped(n, first, Given(last)), res, wire, true)
              && AskedOf(m, first, last, HonestSeek(m, first, last), media.mCalls, wire, sizes, k)
  {
    RangeIsForward(header);
    match GetRange(header)
    case TooLarge =>
      return null, [], 0;
    case Range(first, last) =>
      HonestGrant(media.View(), first, Given(last));
      var seek := HonestSeek(media.View(), first, last);
      ghost var chunks;
      res, wire, chunks, k := Serve(media, first, last, seek, sizes, _ => None, now);
  }

  /** A Range header printed for these positions. */
  method ServeHeader(media: ReadMedia, from: nat, to: Option<nat>, sizes: nat -> nat, now: int)
    returns (res: Response?, wire: seq<byte>, ghost k: nat)
    requires Consistent(media.View()) && media.mSeekable && |media.mContent| <= INT64_MAX
    modifies media
    ensures res == null <==> from > INT_MAX || (to.Some? && to.value > INT_MAX)
    ensures res == null ==> media.View() == old(media.View())
    ensures res != null ==>
              && fresh(res) && RangeServed(media.mContent, Clamped(|media.mContent|, from, to), res, wire, true)
              && var m, last := old(media.View()), if to.Some? then to.value else -1;
                 AskedOf(m, from, last, HonestSeek(m, from, last), media.mCalls, wire, sizes, k)
  {
    RangeHeaderReads(from, to);
    res, wire, k := ServeText(media, RangeHeader(from, to), sizes, now);
  }

  /** A request without a range, the one without a Range header among them: the whole media, or
      416 if it is empty. */
  method ServeWhole(media: ReadMedia, header: seq<byte>, sizes: nat -> nat, now: int)
    returns (res: Response, wire: seq<byte>)
    requires Consistent(media.View()) && media.mSeekable && |media.mContent| <= INT64_MAX
    requires forall i: nat | i <= |header| :: !HasRange(header, i)
    modifies media
    ensures var n := |media.mContent|;
            if n == 0 then
              res.status == 416 && wire == []
            else
              && res.status == 206 && res.contentLength == Some(n) && res.contentRange == Within(0, n - 1, n)
              && wire == media.mContent
  {
    NoRange(header);
    var answer;
    ghost var k;
    answer, wire, k := ServeText(media, header, sizes, now);
    res := answer;
    assert media.mContent[0..|media.mContent|] == media.mContent;
  }

  /** bytes=0-0 on a media of two bytes: one byte is announced, and both are sent. */
  method FirstByteExample() returns (res: Response, wire: seq<byte>)
    ensures RangeHeader(0, Some(0)) == "bytes=0-0"
    ensures res.status == 206 && res.contentLength == Some(1) && wire == ['a', 'b']
  {
    var media := new ReadMedia(1, ['a', 'b'], 2, true, 3000, true);
    OpenedIsGood(1, ['a', 'b'], 2, true, 3000, true);
    assert Numeral(0, 10) == ['0'];
    var answer;
    ghost var k;
    answer, wire, k := ServeHeader(media, 0, Some(0), _ => 1, 0);
    res := answer;
    assert ['a', 'b'][0..2] == ['a', 'b'];
  }

  // ---------- what a client reads from a stream ----------

  /** An undisturbed stream response, read back by a client: the client gets the content
      exactly if every chunk is shorter than 2^31 bytes. */
  method StreamAndRead(media: ReadMedia, sizes: nat -> nat, grant: nat -> nat, now: int)
    returns (r: Decoded, ghost chunks: seq<seq<byte>>)
    requires Consistent(media.View()) && !media.mSeekable && |media.mContent| <= INT64_MAX
    modifies media
    ensures Concat(chunks) == media.mContent && NonEmpty(chunks)
    ensures r == if Countable(chunks) then Done(true, media.mContent, []) else Threw
  {
    var res, wire;
    ghost var k;
    res, wire, chunks, k := Serve(media, 0, -1, SeekOutcome(0, 0), sizes, _ => None, now);
    var strm := new Stream(wire, grant);
    RoundTrip(chunks, [], []);
    assert wire + [] == wire && [] + media.mContent == media.mContent;
    r := read_content_chunked(strm);
  }
}
