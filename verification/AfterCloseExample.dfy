/** A concrete run in which no request has the media in hand when it is closed, and a
    user call still follows the close. */
module AfterCloseExample {
  import opened Prelude
  import opened EventQueue
  import opened MediaModel
  import opened Sessions
  import opened SessionTheorems
  import opened AfterClose

  lemma {:induction false} ExecSnoc(s: State, steps: seq<Step>, step: Step)
    requires Legal(s, steps) && Enabled(Exec(s, steps), step)
    ensures Legal(s, steps + [step]) && Exec(s, steps + [step]) == Apply(Exec(s, steps), step)
    decreases |steps|
  {
    if steps == [] {
      assert steps + [step] == [step];
      OneStep(s, step);
    } else {
      assert (steps + [step])[1..] == steps[1..] + [step];
      ExecSnoc(Apply(s, steps[0]), steps[1..], step);
    }
  }

  lemma ReachableStep(s: State, step: Step)
    requires Reachable(s) && Enabled(s, step)
    ensures Reachable(Apply(s, step))
  {
    var now, steps :| Legal(Init(now), steps) && s == Exec(Init(now), steps);
    ExecSnoc(Init(now), steps, step);
  }

  lemma NothingToCollect(s: State)
    requires forall m: nat | m < |s.medias| :: Owned(s, m)
    ensures Collect(s) == s
  {
  }

  /** Take the step; the only media, if any, keeps an owner. */
  lemma Go(s: State, step: Step, t: State)
    requires Reachable(s) && Enabled(s, step) && Move(s, step) == t
    requires |t.medias| == 0 || (|t.medias| == 1 && Owned(t, 0))
    ensures Reachable(t)
  {
    NothingToCollect(t);
    assert Apply(s, step) == t;
    ReachableStep(s, step);
  }

  const SOUGHT := SeekOutcome(0, 0)

  /** An endless stream media. */
  function First(timeout: int): Media {
    Opened(1, [], -1, false, timeout, true)
  }

  /** One media, registered under id 1. */
  function With(clients: seq<Client>, queue: seq<Event<Msg>>, handling: Option<Msg>, md: Media): State {
    Init(0).(clients := clients, queue := queue, handling := handling,
             registry := map[1 := Some(0)], nextId := 1, medias := [md])
  }

  // ---------- the pieces of the runs ----------

  /** The state with a first call whose create is being handled. */
  function Asking(): State {
    Init(0).(clients := [Awaiting(WantsNew, 0, None)], handling := Some(Create(0)))
  }

  lemma FirstAsks()
    ensures Reachable(Asking())
  {
    var s0 := Init(0);
    assert Legal(s0, []) && s0 == Exec(s0, []);
    var c0 := Awaiting(WantsNew, 0, None);
    var s1 := s0.(clients := [c0], queue := [Event(0, Create(0))]);
    assert s0.clients + [c0] == [c0];
    Go(s0, Call(WantsNew), s1);
    Go(s1, Pop, Asking());
  }

  /** A call that creates the stream media. */
  lemma FirstCall(timeout: int)
    ensures Reachable(With([Holding(WantsNew, 0, 0, Greeting)], [], None, First(timeout)))
  {
    FirstAsks();
    var s3 := With([Awaiting(WantsNew, 0, Some(Some(0)))], [], None, First(timeout));
    assert Holds(s3.clients[0], 0);
    assert Asking().medias + [First(timeout)] == [First(timeout)];
    Go(Asking(), Handle(NewMedia([], -1, false, timeout, true)), s3);
    var s4 := With([Holding(WantsNew, 0, 0, Greeting)], [], None, First(timeout));
    assert Holds(s4.clients[0], 0);
    Go(s3, Receive(0), s4);
  }

  /** A call that asks for id 1 while a reader keeps the media. */
  lemma NextCall(clients: seq<Client>, md: Media)
    requires Reachable(With(clients, [], None, md)) && HeldByReader(md) && !md.destroyed
    ensures Reachable(With(clients + [Holding(WantsId(1), 1, 0, Greeting)], [], None, md))
  {
    var c, cl := |clients|, Awaiting(WantsId(1), 1, None);
    var s1 := With(clients + [cl], [Event(0, Get(c, 1))], None, md);
    Go(With(clients, [], None, md), Call(WantsId(1)), s1);
    Go(s1, Pop, With(clients + [cl], [], Some(Get(c, 1)), md));
    NextAnswer(clients, cl, md);
  }

  lemma NextAnswer(clients: seq<Client>, cl: Client, md: Media)
    requires cl == Awaiting(WantsId(1), 1, None) && HeldByReader(md) && !md.destroyed
    requires Reachable(With(clients + [cl], [], Some(Get(|clients|, 1)), md))
    ensures Reachable(With(clients + [Holding(WantsId(1), 1, 0, Greeting)], [], None, md))
  {
    var c := |clients|;
    var s2 := With(clients + [cl], [], Some(Get(c, 1)), md);
    var answered := clients + [cl.(reply := Some(Some(0)))];
    assert (clients + [cl])[c := cl.(reply := Some(Some(0)))] == answered;
    assert s2.registry[1 := Some(0)] == s2.registry;
    Go(s2, Handle(NoCreator), With(answered, [], None, md));
    assert answered[c := Holding(WantsId(1), 1, 0, Greeting)] == clients + [Holding(WantsId(1), 1, 0, Greeting)];
    Go(With(answered, [], None, md), Receive(c), With(clients + [Holding(WantsId(1), 1, 0, Greeting)], [], None, md));
  }

  /** The media after all calls of a request that gets a reader. */
  function Served(md: Media): Media
    requires LastReaderExists(md)
  {
    Logged(Logged(CreateReader(Logged(md, [Seekable]), true, 0, -1, SOUGHT).0, [MimeType]), [Seekable])
  }

  lemma StageStep(clients: seq<Client>, c: nat, step: Step, stage: Stage, md: Media, md': Media)
    requires c < |clients| && clients[c].Holding? && clients[c].m == 0 && Reachable(With(clients, [], None, md))
    requires Enabled(With(clients, [], None, md), step)
    requires Move(With(clients, [], None, md), step)
          == With(clients[c := clients[c].(stage := stage)], [], None, md')
    ensures Reachable(With(clients[c := clients[c].(stage := stage)], [], None, md'))
  {
    var t := With(clients[c := clients[c].(stage := stage)], [], None, md');
    assert Holds(t.clients[c], 0);
    Go(With(clients, [], None, md), step, t);
  }

  /** The handler's part of a request up to its first reader. */
  lemma RequestCreates(clients: seq<Client>, c: nat, md: Media)
    requires c < |clients| && clients[c].Holding? && clients[c].m == 0 && clients[c].stage.Greeting?
    requires !md.canSeek && LastReaderExists(md) && Reachable(With(clients, [], None, md))
    ensures var served := CreateReader(Logged(md, [Seekable]), true, 0, -1, SOUGHT).0;
            Reachable(With(clients[c := clients[c].(stage := Typing(|md.readers|))], [], None, served))
  {
    var cl, r, md1 := clients[c], |md.readers|, Logged(md, [Seekable]);
    var creating := clients[c := cl.(stage := Creating)];
    StageStep(clients, c, Query(c), Creating, md, md1);
    var step := NewReader(c, true, 0, -1, SOUGHT);
    var served := CreateReader(md1, true, 0, -1, SOUGHT).0;
    assert creating[c := cl.(stage := Typing(r))] == clients[c := cl.(stage := Typing(r))];
    StageStep(creating, c, step, Typing(r), md1, served);
  }

  /** The rest of it, up to the response body. */
  lemma RequestAnswers(clients: seq<Client>, c: nat, md: Media, r: nat)
    requires c < |clients| && clients[c].Holding? && clients[c].m == 0 && clients[c].stage == Typing(r)
    requires !md.canSeek && Reachable(With(clients, [], None, md))
    requires r < |md.readers| && md.readers[r].phase.Held?
    ensures Reachable(With(clients[c := Streaming(0, r)], [], None, Logged(Logged(md, [MimeType]), [Seekable])))
  {
    var cl, md1 := clients[c], Logged(md, [MimeType]);
    var md2 := Logged(md1, [Seekable]);
    var probing, answered := clients[c := cl.(stage := Probing(r))], clients[c := cl.(stage := Answered(Some(r)))];
    StageStep(clients, c, Query(c), Probing(r), md, md1);
    assert probing[c := cl.(stage := Answered(Some(r)))] == answered;
    StageStep(probing, c, Query(c), Answered(Some(r)), md1, md2);
    assert answered[c := Streaming(0, r)] == clients[c := Streaming(0, r)];
    RequestReturns(answered, c, md2, r);
  }

  lemma RequestReturns(clients: seq<Client>, c: nat, md: Media, r: nat)
    requires c < |clients| && clients[c].Holding? && clients[c].m == 0 && clients[c].stage == Answered(Some(r))
    requires Reachable(With(clients, [], None, md)) && r < |md.readers| && md.readers[r].phase.Held?
    ensures Reachable(With(clients[c := Streaming(0, r)], [], None, md))
  {
    assert HeldByReader(md) by {
      assert !md.readers[r].phase.Gone?;
    }
    Go(With(clients, [], None, md), EndHandle(c), With(clients[c := Streaming(0, r)], [], None, md));
  }

  lemma RequestRuns(clients: seq<Client>, c: nat, md: Media)
    requires c < |clients| && clients[c].Holding? && clients[c].m == 0 && clients[c].stage.Greeting?
    requires !md.canSeek && LastReaderExists(md) && Reachable(With(clients, [], None, md))
    ensures Reachable(With(clients[c := Streaming(0, |md.readers|)], [], None, Served(md)))
  {
    var r := |md.readers|;
    RequestCreates(clients, c, md);
    var typing := clients[c := clients[c].(stage := Typing(r))];
    RequestAnswers(typing, c, CreateReader(Logged(md, [Seekable]), true, 0, -1, SOUGHT).0, r);
    assert typing[c := Streaming(0, r)] == clients[c := Streaming(0, r)];
  }

  lemma ReaderDrops(clients: seq<Client>, c: nat, md: Media, r: nat)
    requires c < |clients| && clients[c] == Streaming(0, r) && Reachable(With(clients, [], None, md))
    requires r < |md.readers| && md.readers[r].phase.Held?
    ensures Reachable(With(clients[c := Finished], [], None, InPhase(md, r, Expired)))
  {
    var t := With(clients[c := Finished], [], None, InPhase(md, r, Expired));
    assert HeldByReader(t.medias[0]) by {
      assert !t.medias[0].readers[r].phase.Gone?;
    }
    Go(With(clients, [], None, md), DropReader(c), t);
  }

  /** The media after a whole `~Reader` at time 0. */
  function Ended(md: Media, r: nat): Media
    requires r < |md.readers| && !md.readers[r].phase.Held?
  {
    Destruct(Destruct(Destruct(md, r, 0), r, 0), r, 0)
  }

  lemma ReaderAsks(clients: seq<Client>, md: Media, r: nat, other: nat)
    requires Reachable(With(clients, [], None, md)) && r < |md.readers| && PostsWatchDog(md, r)
    requires md.readers[r].phase.Expired? || md.readers[r].phase.Asked?
    requires other < |md.readers| && other != r && !md.readers[other].phase.Gone?
    ensures Reachable(With(clients, [], None, Destruct(md, r, 0)))
  {
    assert !Destruct(md, r, 0).readers[other].phase.Gone?;
    Go(With(clients, [], None, md), EndReader(0, r), With(clients, [], None, Destruct(md, r, 0)));
  }

  lemma ReaderPosts(clients: seq<Client>, md: Media, r: nat, other: nat)
    requires Reachable(With(clients, [], None, md)) && r < |md.readers| && md.timeout >= 0
    requires md.readers[r].phase.Posting?
    requires other < |md.readers| && other != r && !md.readers[other].phase.Gone?
    ensures Reachable(With(clients, [Event(md.timeout * 1000, WatchDog(0))], None, Destruct(md, r, 0)))
  {
    assert !Destruct(md, r, 0).readers[other].phase.Gone?;
    Go(With(clients, [], None, md), EndReader(0, r),
       With(clients, [Event(md.timeout * 1000, WatchDog(0))], None, Destruct(md, r, 0)));
  }

  /** `~Reader` up to its post, while another reader keeps the media. */
  lemma ReaderEnds(clients: seq<Client>, md: Media, r: nat, other: nat)
    requires Reachable(With(clients, [], None, md))
    requires r < |md.readers| && md.readers[r].phase.Expired? && PostsWatchDog(md, r)
    requires other < |md.readers| && other != r && !md.readers[other].phase.Gone?
    ensures Reachable(With(clients, [Event(md.timeout * 1000, WatchDog(0))], None, Ended(md, r)))
  {
    var m1 := Destruct(md, r, 0);
    ReaderAsks(clients, md, r, other);
    ReaderAsks(clients, m1, r, other);
    ReaderPosts(clients, Destruct(m1, r, 0), r, other);
  }

  // ---------- two requests that stream ----------

  /** A media with two readers; the first one is preempted. */
  predicate TwoReaders(md: Media) {
    && |md.readers| == 2 && md.lastReader == Some(1) && md.timeout >= 0
    && md.readers[0].phase.Held? && md.readers[0].notify
    && md.readers[1].phase.Held? && md.readers[1].notify
    && !md.closed && !md.destroyed && md.key == 1 && !md.canSeek
  }

  lemma TwoAreServed(timeout: nat)
    ensures |Served(First(timeout)).readers| == 1
    ensures TwoReaders(Served(Served(First(timeout)))) && Served(Served(First(timeout))).timeout == timeout
  {
  }

  lemma TwoStream(timeout: nat) returns (md: Media)
    ensures TwoReaders(md) && md.timeout == timeout && Reachable(With([Streaming(0, 0), Streaming(0, 1)], [], None, md))
  {
    FirstCall(timeout);
    RequestRuns([Holding(WantsNew, 0, 0, Greeting)], 0, First(timeout));
    var one := Served(First(timeout));
    assert [Holding(WantsNew, 0, 0, Greeting)][0 := Streaming(0, 0)] == [Streaming(0, 0)];
    TwoAreServed(timeout);
    assert !one.readers[0].phase.Gone?;
    NextCall([Streaming(0, 0)], one);
    var second := Holding(WantsId(1), 1, 0, Greeting);
    assert ([Streaming(0, 0)] + [second])[1 := Streaming(0, 1)] == [Streaming(0, 0), Streaming(0, 1)];
    RequestRuns([Streaming(0, 0)] + [second], 1, one);
    md := Served(one);
  }

  lemma DroppedShape(two: Media, r: nat, other: nat)
    requires TwoReaders(two) && r < 2 && other == 1 - r
    ensures var md := InPhase(two, r, Expired);
            && |md.readers| == 2 && md.lastReader == Some(1) && md.timeout == two.timeout && md.key == 1 && !md.closed
            && md.readers[r].phase.Expired? && md.readers[r].notify && md.readers[other].phase.Held?
  {
  }

  lemma EndedShape(md: Media, r: nat, other: nat)
    requires |md.readers| == 2 && r < 2 && other == 1 - r
    requires md.readers[r].phase.Expired? && PostsWatchDog(md, r)
    ensures var md' := Ended(md, r);
            && |md'.readers| == 2 && md'.lastReader == md.lastReader && md'.key == md.key && md'.closed == md.closed
            && md'.timeout == md.timeout && md'.readers[r].notify && md'.readers[r].postedAt == 0
            && Posted(md'.readers[r]) && md'.readers[other] == md.readers[other]
  {
  }

  /** One of the two requests ends, and its reader's watchdog is queued. */
  lemma OneEnds(two: Media, r: nat, other: nat, deadline: int) returns (md: Media)
    requires TwoReaders(two) && r < 2 && other == 1 - r && deadline == two.timeout * 1000
    requires Reachable(With([Streaming(0, 0), Streaming(0, 1)], [], None, two))
    ensures var clients := [Streaming(0, 0), Streaming(0, 1)][r := Finished];
            Reachable(With(clients, [Event(deadline, WatchDog(0))], None, md))
    ensures |md.readers| == 2 && md.lastReader == Some(1) && md.key == 1 && !md.closed && md.timeout == two.timeout
    ensures Posted(md.readers[r]) && md.readers[other] == two.readers[other]
  {
    ReaderDrops([Streaming(0, 0), Streaming(0, 1)], r, two, r);
    var dropped := InPhase(two, r, Expired);
    DroppedShape(two, r, other);
    ReaderEnds([Streaming(0, 0), Streaming(0, 1)][r := Finished], dropped, r, other);
    EndedShape(dropped, r, other);
    md := Ended(dropped, r);
  }

  // ---------- the two ways to close late ----------

  /** No request has the media in hand, and the watchdog is about to close it. */
  predicate AboutToClose(s: State) {
    && s.handling == Some(WatchDog(0)) && |s.medias| == 1 && LastReaderExists(s.medias[0])
    && !s.medias[0].closed && IsIdle(s.medias[0]) && s.medias[0].key in s.registry
    && forall c | 0 <= c < |s.clients| :: !Holds(s.clients[c], 0)
  }

  /** The watchdog takes its message with some reader r not gone, closes, and a later call
      follows. */
  lemma WatchDogCloses(clients: seq<Client>, md: Media, r: nat) returns (s: State, more: seq<Step>)
    requires Reachable(With(clients, [Event(0, WatchDog(0))], None, md)) && md.key == 1 && !md.closed
    requires LastReaderExists(md) && IsIdle(md) && r < |md.readers| && WillAsk(md.readers[r])
    requires forall c | 0 <= c < |clients| :: !Holds(clients[c], 0)
    ensures s == With(clients, [], Some(WatchDog(0)), md) && Reachable(s) && AboutToClose(s)
    ensures Enabled(s, Handle(NoCreator)) && ClosesLate(s, Handle(NoCreator))
    ensures Legal(Apply(s, Handle(NoCreator)), more) && !AllQuiet(Exec(Apply(s, Handle(NoCreator)), more))
  {
    s := With(clients, [], Some(WatchDog(0)), md);
    Go(With(clients, [Event(0, WatchDog(0))], None, md), Pop, s);
    assert AskedLater(md);
    ReachableInv(s);
    StepKeeps(s, Handle(NoCreator));
    var u := Move(s, Handle(NoCreator));
    assert WillAsk(u.medias[0].readers[r]);
    SettlingKeepsUse(u, 0);
    more := UntidyGetsLoud(Apply(s, Handle(NoCreator)), 0);
  }

  /** The second request preempts the first reader and ends before it does. The watchdog
      then closes a media that no request holds, and ~Reader of the preempted reader
      calls idleTimeout() afterwards. */
  lemma PreemptedReaderOutlivesClose() returns (s: State, more: seq<Step>)
    ensures Reachable(s) && AboutToClose(s) && |s.medias[0].readers| == 2
    ensures s.medias[0].readers[0].phase.Held? && Posted(s.medias[0].readers[1])
    ensures Enabled(s, Handle(NoCreator)) && ClosesLate(s, Handle(NoCreator))
    ensures Legal(Apply(s, Handle(NoCreator)), more) && !AllQuiet(Exec(Apply(s, Handle(NoCreator)), more))
  {
    var md := SecondEnds();
    s, more := WatchDogCloses([Streaming(0, 0), Finished], md, 0);
  }

  /** The second of the two requests ends, and its reader's watchdog is queued. */
  lemma SecondEnds() returns (md: Media)
    ensures Reachable(With([Streaming(0, 0), Finished], [Event(0, WatchDog(0))], None, md))
    ensures |md.readers| == 2 && md.lastReader == Some(1) && md.key == 1 && !md.closed
    ensures md.readers[0].phase.Held? && Posted(md.readers[1])
  {
    var two := TwoStream(0);
    md := OneEnds(two, 1, 0, 0);
    assert [Streaming(0, 0), Streaming(0, 1)][1 := Finished] == [Streaming(0, 0), Finished];
  }

  /** The first request ends and leaves a watchdog. The second one ends, and while its
      ~Reader is at work the watchdog finds the media idle and closes it. No request holds
      the media, and no reader of it is held. */
  lemma DyingReaderOutlivesClose() returns (s: State, more: seq<Step>)
    ensures Reachable(s) && AboutToClose(s) && |s.medias[0].readers| == 2
    ensures forall r | 0 <= r < |s.medias[0].readers| :: !s.medias[0].readers[r].phase.Held?
    ensures s.medias[0].readers[1].phase.Expired?
    ensures Enabled(s, Handle(NoCreator)) && ClosesLate(s, Handle(NoCreator))
    ensures Legal(Apply(s, Handle(NoCreator)), more) && !AllQuiet(Exec(Apply(s, Handle(NoCreator)), more))
  {
    var md := FirstEnds();
    EndingDrops([Finished, Streaming(0, 1)], md, 1);
    assert [Finished, Streaming(0, 1)][1 := Finished] == [Finished, Finished];
    s, more := WatchDogCloses([Finished, Finished], InPhase(md, 1, Expired), 1);
  }

  /** The first of the two requests ends, and its reader's watchdog is queued. */
  lemma FirstEnds() returns (md: Media)
    ensures Reachable(With([Finished, Streaming(0, 1)], [Event(0, WatchDog(0))], None, md))
    ensures |md.readers| == 2 && md.lastReader == Some(1) && md.key == 1 && !md.closed
    ensures !md.readers[0].phase.Held? && md.readers[1].phase.Held?
  {
    var two := TwoStream(0);
    md := OneEnds(two, 0, 1, 0);
    assert [Streaming(0, 0), Streaming(0, 1)][0 := Finished] == [Finished, Streaming(0, 1)];
  }

  /** A reader's last reference goes while a watchdog is queued. */
  lemma EndingDrops(clients: seq<Client>, md: Media, c: nat)
    requires c < |clients| && clients[c] == Streaming(0, c)
    requires Reachable(With(clients, [Event(0, WatchDog(0))], None, md))
    requires c < |md.readers| && md.readers[c].phase.Held?
    ensures Reachable(With(clients[c := Finished], [Event(0, WatchDog(0))], None, InPhase(md, c, Expired)))
  {
    var t := With(clients[c := Finished], [Event(0, WatchDog(0))], None, InPhase(md, c, Expired));
    assert t.queue[0].msg == WatchDog(0);
    Go(With(clients, [Event(0, WatchDog(0))], None, md), DropReader(c), t);
  }
}
