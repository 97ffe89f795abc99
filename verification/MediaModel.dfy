/** One `ReadMedia` (src/read_media.cpp): a user media with a single cursor, shared by
    readers of which only the newest is alive. */
module MediaModel {
  import opened Prelude

  /** The calls the framework makes on the user's `IMedia`, in order. */
  datatype UserCall =
    | Open(ok: bool) | Close | Read(reader: nat) | Seek(offset: int)
    | Seekable | Size | IdleTimeout | MimeType

  /** A reader's life: Held until its last shared_ptr goes; from then on weak pointers to it
      have expired, but `~Reader` has still to ask for idleTimeout (Expired), to ask again for
      the delay (Asked), to post the watchdog (Posting), and to let go of the media (Released). */
  datatype Phase = Held | Expired | Asked | Posting | Released | Gone

  /** bornAt is the number of user calls made before the reader existed; out is all it
      has returned so far; postedAt is when its watchdog was posted. */
  datatype Reader = Reader(
    from: int, to: int, alive: bool, phase: Phase, notify: bool,
    bornAt: nat, out: seq<byte>, postedAt: int)

  /** The reader's destructor has user calls to make. */
  predicate WillAsk(rd: Reader) {
    rd.phase.Held? || rd.phase.Expired? || rd.phase.Asked?
  }

  datatype Media = Media(
    key: int,
    content: seq<byte>, size: int, canSeek: bool, timeout: int,
    cursor: nat,
    isOpen: bool, closed: bool, destroyed: bool,
    lastReader: Option<nat>,
    readers: seq<Reader>,
    calls: seq<UserCall>)

  /** How the user's seek went: a position >= 0 is where the cursor now is; a failing
      seek may leave the cursor anywhere. */
  datatype SeekOutcome = SeekOutcome(ret: int, cursor: nat)

  predicate Truthful(m: Media, seek: SeekOutcome) {
    seek.cursor <= |m.content| && (seek.ret >= 0 ==> seek.cursor == seek.ret)
  }

  function Logged(m: Media, more: seq<UserCall>): Media {
    m.(calls := m.calls + more)
  }

  // ---------- operations ----------

  /** `ReadMedia::create`, `setId` and the one `open`. */
  function Opened(key: int, content: seq<byte>, size: int, canSeek: bool, timeout: int, ok: bool): Media {
    Media(key, content, size, canSeek, timeout, 0, ok, false, false, None, [], [Open(ok)])
  }

  /** mLastReader has expired. */
  predicate IsIdle(m: Media)
    requires LastReaderExists(m)
  {
    m.lastReader.None? || !m.readers[m.lastReader.value].phase.Held?
  }

  predicate LastReaderExists(m: Media) {
    m.lastReader.Some? ==> m.lastReader.value < |m.readers|
  }

  /** Where to seek and where to stop; None for an empty media. */
  function ClampRange(size: int, from: int, to: int): Option<(int, int)> {
    if size <= 0 then None
    else Some((if from < 0 then 0 else if from >= size then size - 1 else from,
               if to < 0 || to >= size then size - 1 else to))
  }

  /** Any start is moved to the nearest position of the media; an end that is none of them, to the
      last one. */
  lemma ClampExactly(size: int, from: int, to: int)
    ensures ClampRange(size, from, to).None? <==> size <= 0
    ensures size > 0 ==>
              var (start, end) := ClampRange(size, from, to).value;
              && 0 <= start < size && 0 <= end < size
              && (0 <= from < size ==> start == from)
              && (from < 0 ==> start == 0) && (from >= size ==> start == size - 1)
              && (0 <= to < size ==> end == to) && (to < 0 || to >= size ==> end == size - 1)
  {
  }

  function Preempted(m: Media): Media
    requires LastReaderExists(m)
  {
    if IsIdle(m) then m
    else m.(readers := m.readers[m.lastReader.value := m.readers[m.lastReader.value].(alive := false)])
  }

  function AddReader(m: Media, notify: bool, from: int, to: int): Media {
    m.(readers := m.readers + [Reader(from, to, true, Held, notify, |m.calls|, [], 0)],
       lastReader := Some(|m.readers|))
  }

  /** The clamping and the seek: the media after it, and the range of a reader unless the
      media is empty or the seek failed. */
  function Position(m: Media, from: int, to: int, seek: SeekOutcome): (Media, Option<(int, int)>) {
    if m.canSeek then
      match ClampRange(m.size, from, to)
      case None => (Logged(m, [Seekable, Size]), None)
      case Some((start, end)) =>
        (Logged(m, [Seekable, Size, Seek(start)]).(cursor := seek.cursor),
         if seek.ret < 0 then None else Some((seek.ret, end)))
    else
      (Logged(m, [Seekable, Seek(0)]).(cursor := seek.cursor), if seek.ret != 0 then None else Some((0, -1)))
  }

  /** The user calls of createReader. */
  function CallsOfCreate(m: Media, from: int, to: int): (calls: seq<UserCall>)
    ensures calls != [] && calls[0] == Seekable
  {
    if !m.canSeek then [Seekable, Seek(0)]
    else match ClampRange(m.size, from, to)
      case None => [Seekable, Size]
      case Some((start, _)) => [Seekable, Size, Seek(start)]
  }

  /** The media after `createReader`, and the reader unless it was nullptr. */
  function CreateReader(m: Media, notify: bool, from: int, to: int, seek: SeekOutcome): (Media, Option<nat>)
    requires LastReaderExists(m)
  {
    var (q, range) := Position(Preempted(m), from, to, seek);
    match range
    case None => (q, None)
    case Some((first, last)) =>
      if last >= 0 && first > last then (q, None) else (AddReader(q, notify, first, last), Some(|m.readers|))
  }

  /** How much the user's read returns: some non-empty chunk of its choice, or nothing at the end. */
  function ChunkLength(length: nat, cursor: nat, want: nat): (n: nat)
    ensures n == 0 <==> cursor >= length
    ensures n > 0 ==> cursor + n <= length
  {
    if cursor >= length then 0 else if want == 0 then 1 else Min(want, length - cursor)
  }

  function NextChunk<T>(content: seq<T>, cursor: nat, want: nat): (chunk: seq<T>)
    ensures |chunk| == ChunkLength(|content|, cursor, want)
    ensures chunk != [] ==> chunk == content[cursor..cursor + |chunk|]
  {
    if cursor >= |content| then [] else content[cursor..cursor + ChunkLength(|content|, cursor, want)]
  }

  function ReadChunk(m: Media, r: nat, want: nat): (Media, seq<byte>)
    requires r < |m.readers|
  {
    if !m.readers[r].alive then (m, [])
    else
      var chunk := NextChunk<byte>(m.content, m.cursor, want);
      (Logged(m, [Read(r)]).(
         cursor := m.cursor + |chunk|,
         readers := m.readers[r := m.readers[r].(out := m.readers[r].out + chunk)]), chunk)
  }

  predicate PostsWatchDog(m: Media, r: nat)
    requires r < |m.readers|
  {
    m.timeout >= 0 && m.readers[r].notify
  }

  function InPhase(m: Media, r: nat, phase: Phase): Media
    requires r < |m.readers|
  {
    m.(readers := m.readers[r := m.readers[r].(phase := phase, alive := false)])
  }

  function NextPhase(m: Media, r: nat): Phase
    requires r < |m.readers|
  {
    match m.readers[r].phase
    case Expired => if PostsWatchDog(m, r) then Asked else Released
    case Asked => Posting
    case Posting => Released
    case Released => Gone
    case phase => phase
  }

  /** The next step of `~Reader`; the watchdog itself is posted by the caller. */
  function Destruct(m: Media, r: nat, now: int): Media
    requires r < |m.readers| && !m.readers[r].phase.Held?
  {
    var rd := m.readers[r];
    m.(calls := if WillAsk(rd) then m.calls + [IdleTimeout] else m.calls,
       readers := m.readers[r := rd.(phase := NextPhase(m, r), alive := false,
                                     postedAt := if rd.phase.Posting? then now else rd.postedAt)])
  }

  /** All of `~Reader`, when nothing comes in between. */
  function Destructed(m: Media, r: nat, now: int): Media
    requires r < |m.readers|
  {
    var posts := PostsWatchDog(m, r);
    var rd := m.readers[r];
    Logged(m, if posts then [IdleTimeout, IdleTimeout] else [IdleTimeout]).(
      readers := m.readers[r := rd.(phase := Gone, alive := false, postedAt := if posts then now else rd.postedAt)])
  }

  /** The last shared_ptr goes and `~Reader` is carried out at once. */
  function Dropped(m: Media, r: nat, now: int): Media
    requires r < |m.readers|
  {
    Destructed(InPhase(m, r, Expired), r, now)
  }

  lemma DestructedBySteps(m: Media, r: nat, now: int)
    requires r < |m.readers| && m.readers[r].phase.Expired?
    ensures var second := Destruct(Destruct(m, r, now), r, now);
            Destructed(m, r, now)
            == if PostsWatchDog(m, r) then Destruct(Destruct(second, r, now), r, now) else second
  {
    assert m.calls + [IdleTimeout] + [IdleTimeout] == m.calls + [IdleTimeout, IdleTimeout];
  }

  function CloseMedia(m: Media): Media {
    if m.closed then m else Logged(m, [Close]).(closed := true)
  }

  /** `~ReadMedia`. */
  function Destroy(m: Media): Media {
    (if m.isOpen then CloseMedia(m) else m).(destroyed := true)
  }

  // ---------- what every operation keeps ----------

  /** open comes first and once, nothing follows a failed open, close comes at most once. */
  ghost predicate Lifecycle(m: Media) {
    && m.calls != [] && m.calls[0] == Open(m.isOpen)
    && (forall i | 0 < i < |m.calls| :: !m.calls[i].Open?)
    && (!m.isOpen ==> |m.calls| == 1 && !m.closed && m.readers == [])
    && (forall i, j | 0 <= i < j < |m.calls| :: !(m.calls[i].Close? && m.calls[j].Close?))
    && (m.closed <==> Close in m.calls)
    && (m.isOpen && m.destroyed ==> m.closed)
  }

  /** Only the last reader created can be alive, and then somebody holds it. */
  ghost predicate OneAlive(m: Media) {
    && (m.lastReader == if m.readers == [] then None else Some(|m.readers| - 1))
    && forall r | 0 <= r < |m.readers| && m.readers[r].alive ::
         r == |m.readers| - 1 && m.readers[r].phase.Held?
  }

  /** Each reader got a contiguous stretch of the content that starts at its own from();
      the cursor is where the alive reader has to go on. */
  ghost predicate Isolated(m: Media) {
    && m.cursor <= |m.content|
    && forall r | 0 <= r < |m.readers| ::
         var rd := m.readers[r];
         && 0 <= rd.from && rd.from + |rd.out| <= |m.content|
         && rd.out == m.content[rd.from..rd.from + |rd.out|]
         && (rd.alive ==> m.cursor == rd.from + |rd.out|)
  }

  /** A user read after close can only come from a reader created after the close. */
  ghost predicate LateReadsAreLateBorn(m: Media) {
    && (forall r, i | 0 <= r < |m.readers| && m.readers[r].alive && 0 <= i < |m.calls| && m.calls[i].Close? ::
          i < m.readers[r].bornAt)
    && (forall i, j | 0 <= i < j < |m.calls| && m.calls[i].Close? && m.calls[j].Read? ::
          m.calls[j].reader < |m.readers| && i < m.readers[m.calls[j].reader].bornAt)
  }

  ghost predicate Good(m: Media) {
    Lifecycle(m) && OneAlive(m) && Isolated(m) && LateReadsAreLateBorn(m)
  }

  /** close, if it was called, is the last user call. */
  ghost predicate QuietAfterClose(m: Media) {
    forall i | 0 <= i < |m.calls| - 1 :: !m.calls[i].Close?
  }

  lemma OpenedIsGood(key: int, content: seq<byte>, size: int, canSeek: bool, timeout: int, ok: bool)
    ensures Good(Opened(key, content, size, canSeek, timeout, ok))
    ensures QuietAfterClose(Opened(key, content, size, canSeek, timeout, ok))
  {
  }

  lemma LoggedIsGood(m: Media, more: seq<UserCall>)
    requires Good(m) && m.isOpen
    requires forall c | c in more :: !c.Open? && !c.Close? && !c.Read?
    ensures Good(Logged(m, more))
  {
    var t := Logged(m, more);
    assert forall i | |m.calls| <= i < |t.calls| :: t.calls[i] == more[i - |m.calls|] && t.calls[i] in more;
    assert forall i | 0 <= i < |m.calls| :: t.calls[i] == m.calls[i];
  }

  /** Readers may die or be dropped, nothing else about them changes. */
  ghost predicate Fades(rd: Reader, rd': Reader) {
    && rd'.from == rd.from && rd'.out == rd.out && rd'.bornAt == rd.bornAt
    && (rd'.alive ==> rd.alive && rd'.phase.Held?)
  }

  lemma FadingIsGood(m: Media, readers: seq<Reader>)
    requires Good(m)
    requires |readers| == |m.readers| && forall r | 0 <= r < |readers| :: Fades(m.readers[r], readers[r])
    ensures Good(m.(readers := readers))
  {
    var t := m.(readers := readers);
    assert OneAlive(t) by {
      assert forall r | 0 <= r < |readers| && readers[r].alive :: m.readers[r].alive;
    }
    assert Isolated(t) by {
      forall r | 0 <= r < |readers|
        ensures var rd := t.readers[r];
                && 0 <= rd.from && rd.from + |rd.out| <= |m.content|
                && rd.out == m.content[rd.from..rd.from + |rd.out|]
                && (rd.alive ==> m.cursor == rd.from + |rd.out|)
      {
        assert Fades(m.readers[r], readers[r]);
      }
    }
    assert LateReadsAreLateBorn(t) by {
      assert forall r | 0 <= r < |readers| :: readers[r].bornAt == m.readers[r].bornAt;
      assert forall r | 0 <= r < |readers| && readers[r].alive :: m.readers[r].alive;
    }
  }

  lemma PreemptedIsGood(m: Media)
    requires Good(m)
    ensures Good(Preempted(m))
    ensures forall r | 0 <= r < |Preempted(m).readers| :: !Preempted(m).readers[r].alive
  {
    FadingIsGood(m, Preempted(m).readers);
    if IsIdle(m) {
      assert m == m.(readers := m.readers);
      assert forall r | 0 <= r < |m.readers| && m.readers[r].alive :: r == m.lastReader.value;
    }
  }

  lemma AddReaderIsGood(m: Media, notify: bool, from: int, to: int)
    requires Good(m) && m.isOpen
    requires from == m.cursor
    requires forall r | 0 <= r < |m.readers| :: !m.readers[r].alive
    ensures Good(AddReader(m, notify, from, to))
  {
    var t := AddReader(m, notify, from, to);
    assert forall r | 0 <= r < |m.readers| :: t.readers[r] == m.readers[r];
  }

  /** A seek may move the cursor, as no reader is alive. */
  lemma PositionIsGood(m: Media, from: int, to: int, seek: SeekOutcome)
    requires Good(m) && m.isOpen && Truthful(m, seek)
    requires forall r | 0 <= r < |m.readers| :: !m.readers[r].alive
    ensures Good(Position(m, from, to, seek).0) && Position(m, from, to, seek).0.isOpen
    ensures var (q, range) := Position(m, from, to, seek);
            q.readers == m.readers && q.lastReader == m.lastReader && (range.Some? ==> range.value.0 == q.cursor)
  {
    var q := Position(m, from, to, seek).0;
    var more := CallsOfCreate(m, from, to);
    LoggedIsGood(m, more);
    MovedIsGood(Logged(m, more), q.cursor);
    assert q == Logged(m, more).(cursor := q.cursor);
  }

  lemma MovedIsGood(m: Media, cursor: nat)
    requires Good(m) && cursor <= |m.content| && forall r | 0 <= r < |m.readers| :: !m.readers[r].alive
    ensures Good(m.(cursor := cursor))
  {
    assert Isolated(m.(cursor := cursor));
  }

  /** Before the new reader is made: the old ones are dead, and the cursor is where it begins. */
  lemma ClearedIsGood(m: Media, from: int, to: int, seek: SeekOutcome)
    requires Good(m) && m.isOpen && Truthful(m, seek)
    ensures var (q, range) := Position(Preempted(m), from, to, seek);
            && Good(q) && q.isOpen && |q.readers| == |m.readers|
            && (forall r | 0 <= r < |q.readers| :: !q.readers[r].alive)
            && (range.Some? ==> range.value.0 == q.cursor)
  {
    PreemptedIsGood(m);
    PositionIsGood(Preempted(m), from, to, seek);
  }

  lemma CreateReaderIsGood(m: Media, notify: bool, from: int, to: int, seek: SeekOutcome)
    requires Good(m) && m.isOpen && Truthful(m, seek)
    ensures var (t, r) := CreateReader(m, notify, from, to, seek);
            Good(t) && (r.Some? ==> r == t.lastReader && t.readers[r.value].alive)
  {
    ClearedIsGood(m, from, to, seek);
    var (q, range) := Position(Preempted(m), from, to, seek);
    if range.Some? {
      AddReaderIsGood(q, notify, range.value.0, range.value.1);
    }
  }

  lemma CreateReaderCalls(m: Media, notify: bool, from: int, to: int, seek: SeekOutcome)
    requires LastReaderExists(m)
    ensures CreateReader(m, notify, from, to, seek).0.calls == m.calls + CallsOfCreate(m, from, to)
  {
    PositionCalls(Preempted(m), from, to, seek);
  }

  lemma PositionCalls(m: Media, from: int, to: int, seek: SeekOutcome)
    ensures Position(m, from, to, seek).0.calls == m.calls + CallsOfCreate(m, from, to)
  {
  }

  lemma PositionShape(m: Media, from: int, to: int, seek: SeekOutcome)
    ensures var q := Position(m, from, to, seek).0; q == m.(cursor := q.cursor, calls := q.calls)
  {
  }

  /** A failed createReader only preempts; a successful one leaves a held last reader. */
  lemma CreateReaderShape(m: Media, notify: bool, from: int, to: int, seek: SeekOutcome)
    requires LastReaderExists(m)
    ensures var (t, r) := CreateReader(m, notify, from, to, seek);
            && t == m.(cursor := t.cursor, lastReader := t.lastReader, readers := t.readers, calls := t.calls)
            && (r.None? ==> t.readers == Preempted(m).readers && t.lastReader == m.lastReader)
            && (r.Some? ==> r.value == |m.readers| && t.lastReader == r && |t.readers| == |m.readers| + 1
                            && t.readers[|m.readers|].phase.Held? && t.readers[|m.readers|].notify == notify
                            && t.readers[..|m.readers|] == Preempted(m).readers)
  {
    var p := Preempted(m);
    PositionShape(p, from, to, seek);
    var (q, range) := Position(p, from, to, seek);
    assert p == m.(readers := p.readers) && |p.readers| == |m.readers| && q.readers == p.readers;
    if CreateReader(m, notify, from, to, seek).1.Some? {
      AddReaderShape(q, notify, range.value.0, range.value.1);
    }
  }

  lemma AddReaderShape(m: Media, notify: bool, from: int, to: int)
    ensures var t := AddReader(m, notify, from, to);
            && t == m.(lastReader := Some(|m.readers|), readers := t.readers) && |t.readers| == |m.readers| + 1
            && t.readers[|m.readers|].phase.Held? && t.readers[|m.readers|].notify == notify
            && t.readers[..|m.readers|] == m.readers
  {
  }

  lemma ChunkFollows(content: seq<byte>, from: nat, out: seq<byte>, want: nat)
    requires from + |out| <= |content| && out == content[from..from + |out|]
    ensures var more := out + NextChunk<byte>(content, from + |out|, want);
            from + |more| <= |content| && more == content[from..from + |more|]
  {
    var end := from + |out|;
    var chunk := NextChunk<byte>(content, end, want);
    Glue(content, from, end, end + |chunk|);
    assert chunk == content[end..end + |chunk|];
  }

  lemma ReadStaysAlone(m: Media, r: nat, want: nat)
    requires OneAlive(m) && r < |m.readers|
    ensures OneAlive(ReadChunk(m, r, want).0)
  {
  }

  lemma ReadShape(m: Media, r: nat, want: nat)
    requires r < |m.readers| && m.readers[r].alive
    ensures var (t, chunk) := ReadChunk(m, r, want);
            && chunk == NextChunk<byte>(m.content, m.cursor, want) && t.content == m.content
            && t.cursor == m.cursor + |chunk| && |t.readers| == |m.readers|
            && (forall k | 0 <= k < |m.readers| && k != r :: t.readers[k] == m.readers[k])
            && t.readers[r] == m.readers[r].(out := m.readers[r].out + chunk)
  {
  }

  lemma ReadIsIsolated(m: Media, r: nat, want: nat)
    requires OneAlive(m) && Isolated(m) && r < |m.readers|
    ensures OneAlive(ReadChunk(m, r, want).0) && Isolated(ReadChunk(m, r, want).0)
  {
    ReadStaysAlone(m, r, want);
    if m.readers[r].alive {
      ReadShape(m, r, want);
      ChunkFollows(m.content, m.readers[r].from, m.readers[r].out, want);
    }
  }

  lemma ReadChunkIsGood(m: Media, r: nat, want: nat)
    requires Good(m) && r < |m.readers|
    ensures Good(ReadChunk(m, r, want).0)
  {
    ReadIsIsolated(m, r, want);
    if m.readers[r].alive {
      var t := ReadChunk(m, r, want).0;
      assert t.calls[|m.calls|] == Read(r);
      assert forall i | 0 <= i < |m.calls| :: t.calls[i] == m.calls[i];
    }
  }

  lemma InPhaseIsGood(m: Media, r: nat, phase: Phase)
    requires Good(m) && r < |m.readers|
    ensures Good(InPhase(m, r, phase))
  {
    FadingIsGood(m, InPhase(m, r, phase).readers);
  }

  lemma DestructIsGood(m: Media, r: nat, now: int)
    requires Good(m) && r < |m.readers| && !m.readers[r].phase.Held?
    ensures Good(Destruct(m, r, now))
  {
    var t := m.(readers := Destruct(m, r, now).readers);
    FadingIsGood(m, t.readers);
    if WillAsk(m.readers[r]) {
      LoggedIsGood(t, [IdleTimeout]);
    }
  }

  lemma DroppedIsGood(m: Media, r: nat, now: int)
    requires Good(m) && r < |m.readers|
    ensures Good(Dropped(m, r, now))
  {
    var m0 := InPhase(m, r, Expired);
    var m1 := Destruct(m0, r, now);
    var m2 := Destruct(m1, r, now);
    var m3 := Destruct(m2, r, now);
    InPhaseIsGood(m, r, Expired);
    DestructIsGood(m0, r, now);
    DestructIsGood(m1, r, now);
    DestructIsGood(m2, r, now);
    DestructIsGood(m3, r, now);
    DestructedBySteps(m0, r, now);
  }

  lemma CloseMediaIsGood(m: Media)
    requires Good(m) && m.isOpen
    requires forall r | 0 <= r < |m.readers| :: !m.readers[r].alive
    ensures Good(CloseMedia(m)) && CloseMedia(m).closed
  {
    var t := CloseMedia(m);
    if !m.closed {
      assert t.calls[|m.calls|] == Close;
      assert forall i | 0 <= i < |m.calls| :: t.calls[i] == m.calls[i] && !m.calls[i].Close?;
    }
  }

  lemma DestroyIsGood(m: Media)
    requires Good(m)
    requires forall r | 0 <= r < |m.readers| :: m.readers[r].phase.Gone?
    ensures Good(Destroy(m))
  {
    if m.isOpen {
      CloseMediaIsGood(m);
    }
  }

  // ---------- the object ----------

  /** The C++ object; the user's answers (seek outcome, chunk size) are parameters. */
  class ReadMedia {
    const mContent: seq<byte>
    const mSize: int
    const mSeekable: bool
    const mTimeout: int
    const mId: int
    var mCursor: nat
    var mOpened: bool
    var mClosed: bool
    var mLastReader: Option<nat>
    var mReaders: seq<Reader>
    var mCalls: seq<UserCall>
    var mGone: bool                                  // ~ReadMedia has run: weak pointers are null

    function View(): Media
      reads this
    {
      Media(mId, mContent, mSize, mSeekable, mTimeout, mCursor, mOpened, mClosed, mGone, mLastReader, mReaders, mCalls)
    }

    /** create, setId, open. */
    constructor (id: int, content: seq<byte>, size: int, canSeek: bool, timeout: int, ok: bool)
      ensures View() == Opened(id, content, size, canSeek, timeout, ok)
    {
      mId, mContent, mSize, mSeekable, mTimeout := id, content, size, canSeek, timeout;
      mCursor, mOpened, mClosed, mLastReader, mReaders := 0, ok, false, None, [];
      mCalls, mGone := [Open(ok)], false;
    }

    method createReader(notify: bool, from: int, to: int, seek: SeekOutcome) returns (r: Option<nat>)
      requires LastReaderExists(View())
      modifies this
      ensures View() == CreateReader(old(View()), notify, from, to, seek).0
      ensures r == CreateReader(old(View()), notify, from, to, seek).1
    {
      markLastReaderDead();
      var range := position(from, to, seek);
      if range.None? {
        return None;
      }
      var (first, last) := range.value;
      if last >= 0 && first > last {
        return None;
      }
      r := Some(|mReaders|);
      mReaders := mReaders + [Reader(first, last, true, Held, notify, |mCalls|, [], 0)];
      mLastReader := r;
    }

    /** The middle part of createReader: clamps the range and seeks. */
    method position(from: int, to: int, seek: SeekOutcome) returns (range: Option<(int, int)>)
      modifies this`mCalls, this`mCursor
      ensures mCalls == Position(old(View()), from, to, seek).0.calls
      ensures mCursor == Position(old(View()), from, to, seek).0.cursor
      ensures range == Position(old(View()), from, to, seek).1
    {
      var from, to := from, to;
      if from < 0 {
        from := 0;
      }
      mCalls := mCalls + [Seekable];
      if mSeekable {
        mCalls := mCalls + [Size];
        assert mCalls == old(mCalls) + [Seekable, Size];
        if to < 0 || to >= mSize {
          to := mSize - 1;
        }
        if mSize <= 0 {
          return None;
        }
        if from >= mSize {
          from := mSize - 1;
        }
        mCalls, mCursor := mCalls + [Seek(from)], seek.cursor;
        assert mCalls == old(mCalls) + [Seekable, Size, Seek(from)];
        if seek.ret < 0 {
          return None;
        }
        from := seek.ret;
      } else {
        from, to := 0, -1;
        mCalls, mCursor := mCalls + [Seek(from)], seek.cursor;
        assert mCalls == old(mCalls) + [Seekable, Seek(from)];
        if seek.ret != 0 {
          return None;
        }
      }
      return Some((from, to));
    }

    /** The last reader, if it is still held, is marked dead. */
    method markLastReaderDead()
      requires LastReaderExists(View())
      modifies this`mReaders
      ensures View() == Preempted(old(View()))
    {
      if mLastReader.Some? && mReaders[mLastReader.value].phase.Held? {
        mReaders := mReaders[mLastReader.value := mReaders[mLastReader.value].(alive := false)];
      }
    }

    method read(r: nat, want: nat) returns (chunk: seq<byte>)
      requires r < |mReaders|
      modifies this
      ensures (View(), chunk) == ReadChunk(old(View()), r, want)
    {
      if !mReaders[r].alive {
        return [];
      }
      chunk := NextChunk<byte>(mContent, mCursor, want);
      mCalls := mCalls + [Read(r)];
      mCursor := mCursor + |chunk|;
      mReaders := mReaders[r := mReaders[r].(out := mReaders[r].out + chunk)];
    }

    /** The last shared_ptr to reader r goes. */
    method expire(r: nat)
      requires r < |mReaders|
      modifies this`mReaders
      ensures View() == InPhase(old(View()), r, Expired)
    {
      mReaders := mReaders[r := mReaders[r].(phase := Expired, alive := false)];
    }

    /** `~Reader`: asks for idleTimeout once, and again for the delay if it posts. */
    method endReader(r: nat, now: int)
      requires r < |mReaders|
      modifies this`mReaders, this`mCalls
      ensures View() == Destructed(old(View()), r, now)
    {
      mCalls := mCalls + [IdleTimeout];
      if mTimeout >= 0 && mReaders[r].notify {
        mCalls := mCalls + [IdleTimeout];
        assert mCalls == old(mCalls) + [IdleTimeout, IdleTimeout];
        mReaders := mReaders[r := mReaders[r].(postedAt := now)];
      }
      mReaders := mReaders[r := mReaders[r].(phase := Gone, alive := false)];
    }

    /** seekable(), size() or mimeType(), asked by a request. */
    method ask(what: UserCall)
      modifies this`mCalls
      ensures mCalls == old(mCalls) + [what]
    {
      mCalls := mCalls + [what];
    }

    method isIdle() returns (idle: bool)
      requires LastReaderExists(View())
      ensures idle == IsIdle(View())
    {
      idle := mLastReader.None? || !mReaders[mLastReader.value].phase.Held?;
    }

    method close()
      modifies this
      ensures View() == CloseMedia(old(View()))
    {
      if !mClosed {
        mClosed := true;
        mCalls := mCalls + [Close];
      }
    }

    /** `~ReadMedia`. */
    method destroy()
      modifies this
      ensures View() == Destroy(old(View()))
    {
      if mOpened {
        close();
      }
      mGone := true;
    }
  }
}
