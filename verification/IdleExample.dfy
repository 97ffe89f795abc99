/** A concrete run in which a media with an idleTimeout of 1 ms is closed 1 us after its last
    reader has gone: an earlier reader's watchdog finds it idle. */
module IdleExample {
  import opened Prelude
  import opened EventQueue
  import opened MediaModel
  import opened Sessions
  import opened SessionTheorems
  import opened AfterCloseExample

  const DOGS: seq<Event<Msg>> := [Event(1000, WatchDog(0))]

  /** Two requests are through; the media is md, and it is this late. */
  function Late(now: int, queue: seq<Event<Msg>>, handling: Option<Msg>, md: Media): State {
    With([Finished, Finished], queue, handling, md).(now := now)
  }

  /** The second request ends its body after 999 us. */
  lemma SecondDrops() returns (md: Media)
    ensures Reachable(Late(999, DOGS, None, md)) && |md.readers| == 2 && md.lastReader == Some(1) && md.key == 1
    ensures md.timeout == 1 && !md.closed && md.readers[1].phase.Expired? && md.readers[1].notify
  {
    var two := TwoStream(1);
    var one := OneEnds(two, 0, 1, 1000);
    var clients := [Finished, Streaming(0, 1)];
    assert [Streaming(0, 0), Streaming(0, 1)][0 := Finished] == clients;
    var waiting := With(clients, DOGS, None, one);
    assert DOGS[0].msg == WatchDog(0);
    Go(waiting, Tick(999), waiting.(now := 999));
    md := InPhase(one, 1, Expired);
    assert clients[1 := Finished] == [Finished, Finished];
    Go(waiting.(now := 999), DropReader(1), Late(999, DOGS, None, md));
  }

  const BOTH: seq<Event<Msg>> := [Event(1000, WatchDog(0)), Event(1999, WatchDog(0))]

  lemma SecondPosts(md: Media)
    requires Reachable(Late(999, DOGS, None, md)) && |md.readers| == 2 && md.timeout == 1
    requires md.readers[1].phase.Posting?
    ensures Reachable(Late(999, BOTH, None, Destruct(md, 1, 999)))
  {
    InsertAfterPrefix(DOGS, [], Event(1999, WatchDog(0)));
    assert DOGS + [] == DOGS && DOGS + [Event(1999, WatchDog(0))] == BOTH;
    assert BOTH[0].msg == WatchDog(0);
    Go(Late(999, DOGS, None, md), EndReader(0, 1), Late(999, BOTH, None, Destruct(md, 1, 999)));
  }

  /** Its destructor posts another watchdog, for later. */
  lemma SecondEnds(md: Media)
    requires Reachable(Late(999, DOGS, None, md)) && |md.readers| == 2 && md.timeout == 1
    requires md.readers[1].phase.Expired? && md.readers[1].notify
    ensures var ended := Destruct(Destruct(Destruct(md, 1, 999), 1, 999), 1, 999);
            && Reachable(Late(999, BOTH, None, ended))
            && |ended.readers| == 2 && Posted(ended.readers[1]) && ended.readers[1].notify
            && ended.readers[1].postedAt == 999
  {
    assert DOGS[0].msg == WatchDog(0);
    var m1 := Destruct(md, 1, 999);
    var m2 := Destruct(m1, 1, 999);
    Go(Late(999, DOGS, None, md), EndReader(0, 1), Late(999, DOGS, None, m1));
    Go(Late(999, DOGS, None, m1), EndReader(0, 1), Late(999, DOGS, None, m2));
    SecondPosts(m2);
  }

  /** The first watchdog comes 1 us later. */
  lemma WatchDogComes(md: Media)
    requires Reachable(Late(999, BOTH, None, md))
    ensures Reachable(Late(1000, [Event(1999, WatchDog(0))], Some(WatchDog(0)), md))
  {
    assert BOTH[0].msg == WatchDog(0) && BOTH[1..] == [Event(1999, WatchDog(0))];
    Go(Late(999, BOTH, None, md), Tick(1), Late(1000, BOTH, None, md));
    Go(Late(1000, BOTH, None, md), Pop, Late(1000, BOTH[1..], Some(WatchDog(0)), md));
  }

  /** The media is about to be closed, its last reader is gone for 1 us, and its idleTimeout is
      1000 us. */
  lemma OlderWatchDogClosesEarly() returns (s: State)
    ensures Reachable(s) && s.handling == Some(WatchDog(0)) && Enabled(s, Handle(NoCreator))
    ensures |s.medias| == 1 && LastReaderExists(s.medias[0]) && IsIdle(s.medias[0])
    ensures var md := s.medias[0];
            && md.timeout == 1 && !md.closed && |md.readers| == 2 && Posted(md.readers[1])
            && s.now == md.readers[1].postedAt + 1
    ensures Apply(s, Handle(NoCreator)).medias[0].closed
  {
    var md := SecondDrops();
    SecondEnds(md);
    var ended := Destruct(Destruct(Destruct(md, 1, 999), 1, 999), 1, 999);
    WatchDogComes(ended);
    s := Late(1000, [Event(1999, WatchDog(0))], Some(WatchDog(0)), ended);
    assert Move(s, Handle(NoCreator)).medias[0].closed;
  }
}
