/** idleTimeout (src/imedia.h:63-68): a watchdog never closes a media before some reader of it
    has been gone for the timeout; a negative timeout means that the media is closed exactly when
    nobody owns it any more. */
module IdleTimeouts {
  import opened Prelude
  import opened EventQueue
  import opened MediaModel
  import opened Sessions
  import opened SessionTheorems
  import opened AfterClose

  /** The reader's watchdog was posted, and by `when` the timeout is over. */
  predicate DueFor(md: Media, r: nat, when: int)
    requires r < |md.readers|
  {
    Posted(md.readers[r]) && md.readers[r].notify && md.readers[r].postedAt + md.timeout * 1000 <= when
  }

  /** Some reader of the media has been gone for the whole timeout. */
  ghost predicate Overdue(md: Media, when: int) {
    md.timeout >= 0 && exists r: nat :: r < |md.readers| && DueFor(md, r, when)
  }

  /** A queued watchdog is due no earlier than that. */
  ghost predicate QueueInTime(s: State) {
    forall e | e in s.queue && e.msg.WatchDog? :: e.msg.m < |s.medias| && Overdue(s.medias[e.msg.m], e.when)
  }

  ghost predicate HandlingInTime(s: State) {
    s.handling.Some? && s.handling.value.WatchDog? ==>
      s.handling.value.m < |s.medias| && Overdue(s.medias[s.handling.value.m], s.now)
  }

  /** Closed, and not because its last owner went. */
  ghost predicate ClosedInTime(s: State) {
    forall m | 0 <= m < |s.medias| && s.medias[m].closed && !s.medias[m].destroyed :: Overdue(s.medias[m], s.now)
  }

  /** A destructor that asks again, or is about to post, has a watchdog to post. */
  predicate MeansToPost(md: Media) {
    forall r | 0 <= r < |md.readers| && (md.readers[r].phase.Asked? || md.readers[r].phase.Posting?) ::
      PostsWatchDog(md, r)
  }

  ghost predicate AllMeanToPost(s: State) {
    forall m | 0 <= m < |s.medias| :: MeansToPost(s.medias[m])
  }

  ghost predicate InTime(s: State) {
    QueueInTime(s) && HandlingInTime(s) && ClosedInTime(s) && AllMeanToPost(s)
  }

  /** The media grows older: what its readers posted stays. */
  ghost predicate Matures(md: Media, md': Media) {
    && md'.timeout == md.timeout && md'.destroyed == md.destroyed && |md.readers| <= |md'.readers|
    && forall r | 0 <= r < |md.readers| && Posted(md.readers[r]) ::
         var rd, rd' := md.readers[r], md'.readers[r];
         Posted(rd') && rd'.notify == rd.notify && rd'.postedAt == rd.postedAt
  }

  lemma StaysOverdue(md: Media, md': Media, when: int, later: int)
    requires Matures(md, md') && Overdue(md, when) && when <= later
    ensures Overdue(md', later)
  {
    var r: nat :| r < |md.readers| && DueFor(md, r, when);
    assert DueFor(md', r, later);
  }

  // ---------- every step lets the medias mature ----------

  lemma NewReaderMatures(md: Media, notify: bool, from: int, to: int, seek: SeekOutcome)
    requires LastReaderExists(md)
    ensures Matures(md, CreateReader(md, notify, from, to, seek).0)
  {
    CreateReaderShape(md, notify, from, to, seek);
    PreemptedKeepsPhases(md);
    var t := CreateReader(md, notify, from, to, seek).0;
    forall r | 0 <= r < |md.readers|
      ensures t.readers[r] == Preempted(md).readers[r]
    {
      assert t.readers[..|md.readers|][r] == t.readers[r];
    }
  }

  lemma DestructMatures(md: Media, r: nat, now: int)
    requires r < |md.readers| && !md.readers[r].phase.Held?
    ensures Matures(md, Destruct(md, r, now))
  {
  }

  lemma HandlingMatures(s: State, msg: Msg, outcome: Outcome, m: nat)
    requires CanHandle(s, msg) && m < |s.medias|
    ensures m < |HandleMsg(s, msg, outcome).medias| && Matures(s.medias[m], HandleMsg(s, msg, outcome).medias[m])
  {
    match msg
    case Get(_, _) =>
    case Create(_) => assert HandleMsg(s, msg, outcome).medias[m] == s.medias[m];
    case WatchDog(_) =>
  }

  lemma StreamMatures(s: State, step: Step, m: nat)
    requires (step.Query? || step.ReadFrom? || step.DropReader?) && Enabled(s, step) && m < |s.medias|
    ensures m < |Move(s, step).medias| && Matures(s.medias[m], Move(s, step).medias[m])
  {
  }

  lemma MoveMatures(s: State, step: Step, m: nat)
    requires Enabled(s, step) && m < |s.medias|
    ensures m < |Move(s, step).medias| && Matures(s.medias[m], Move(s, step).medias[m])
  {
    match step
    case Handle(outcome) => HandlingMatures(s, s.handling.value, outcome, m);
    case NewReader(c, notify, from, to, seek) =>
      NewReaderMatures(s.medias[s.clients[c].m], notify, from, to, seek);
    case EndReader(k, r) =>
      EndReaderMedias(s, k, r);
      DestructMatures(s.medias[k], r, s.now);
    case Query(_) => StreamMatures(s, step, m);
    case ReadFrom(_, _) => StreamMatures(s, step, m);
    case DropReader(_) => StreamMatures(s, step, m);
    case _ => assert Move(s, step).medias == s.medias;
  }

  // ---------- who has a watchdog to post ----------

  lemma NewReaderMeansToPost(md: Media, notify: bool, from: int, to: int, seek: SeekOutcome)
    requires LastReaderExists(md) && MeansToPost(md)
    ensures MeansToPost(CreateReader(md, notify, from, to, seek).0)
  {
    CreateReaderShape(md, notify, from, to, seek);
    PreemptedKeepsPhases(md);
    var t := CreateReader(md, notify, from, to, seek).0;
    forall r | 0 <= r < |md.readers|
      ensures t.readers[r] == Preempted(md).readers[r]
    {
      assert t.readers[..|md.readers|][r] == t.readers[r];
    }
  }

  lemma DestructMeansToPost(md: Media, r: nat, now: int)
    requires r < |md.readers| && !md.readers[r].phase.Held? && MeansToPost(md)
    ensures MeansToPost(Destruct(md, r, now))
  {
  }

  lemma HandlingMeansToPost(s: State, msg: Msg, outcome: Outcome)
    requires CanHandle(s, msg) && AllMeanToPost(s)
    ensures AllMeanToPost(HandleMsg(s, msg, outcome))
  {
    match msg
    case Get(_, _) =>
    case Create(_) => assert forall m | 0 <= m < |s.medias| :: HandleMsg(s, msg, outcome).medias[m] == s.medias[m];
    case WatchDog(_) =>
  }

  lemma StreamMeansToPost(s: State, step: Step)
    requires (step.Query? || step.ReadFrom? || step.DropReader?) && Enabled(s, step) && AllMeanToPost(s)
    ensures AllMeanToPost(Move(s, step))
  {
  }

  lemma MoveMeansToPost(s: State, step: Step)
    requires Enabled(s, step) && AllMeanToPost(s)
    ensures AllMeanToPost(Move(s, step))
  {
    match step
    case Handle(outcome) => HandlingMeansToPost(s, s.handling.value, outcome);
    case NewReader(c, notify, from, to, seek) =>
      NewReaderMeansToPost(s.medias[s.clients[c].m], notify, from, to, seek);
    case EndReader(k, r) =>
      EndReaderMedias(s, k, r);
      DestructMeansToPost(s.medias[k], r, s.now);
    case Query(_) => StreamMeansToPost(s, step);
    case ReadFrom(_, _) => StreamMeansToPost(s, step);
    case DropReader(_) => StreamMeansToPost(s, step);
    case _ => assert Move(s, step).medias == s.medias;
  }

  // ---------- every step keeps watchdogs in time ----------

  /** The watchdog that a step posts. */
  predicate IsPosted(s: State, step: Step, e: Event<Msg>)
    requires Enabled(s, step)
  {
    && step.EndReader? && s.medias[step.m].readers[step.r].phase.Posting?
    && e == Event(DueTime(s.now, s.medias[step.m].timeout * 1000), WatchDog(step.m))
  }

  lemma PostedMessage(s: State, msg: Msg, delayUs: int, e: Event<Msg>)
    requires e in PostMsg(s, msg, delayUs).queue
    ensures e in s.queue || e == Event(DueTime(s.now, delayUs), msg)
  {
    var x := Event(DueTime(s.now, delayUs), msg);
    InsertElements(s.queue, x, Insert(s.queue, x));
  }

  lemma OtherMessage(s: State, step: Step, e: Event<Msg>)
    requires Enabled(s, step) && (step.Handle? || step.Call?) && e in Move(s, step).queue && e.msg.WatchDog?
    ensures e in s.queue
  {
    if step.Call? {
      PostedMessage(s, if step.wish.WantsId? then Get(|s.clients|, step.wish.id) else Create(|s.clients|), 0, e);
    } else if s.handling.value.Get? && e !in s.queue {
      PostedMessage(s, Create(s.handling.value.c), 0, e);
    }
  }

  lemma NewWatchDog(s: State, step: Step, e: Event<Msg>)
    requires Enabled(s, step) && e in Move(s, step).queue && e.msg.WatchDog?
    ensures e in s.queue || IsPosted(s, step, e)
  {
    match step
    case Handle(_) => OtherMessage(s, step, e);
    case Call(_) => OtherMessage(s, step, e);
    case EndReader(m, _) =>
      if e !in s.queue {
        PostedMessage(s, WatchDog(m), s.medias[m].timeout * 1000, e);
      }
    case Pop => assert s.queue == [s.queue[0]] + s.queue[1..];
    case _ =>
  }

  lemma PostedInTime(s: State, step: Step, e: Event<Msg>)
    requires Enabled(s, step) && IsPosted(s, step, e) && MeansToPost(s.medias[step.m])
    ensures step.m < |Move(s, step).medias| && Overdue(Move(s, step).medias[step.m], e.when)
  {
    EndReaderMedias(s, step.m, step.r);
    assert DueFor(Destruct(s.medias[step.m], step.r, s.now), step.r, e.when);
  }

  lemma MoveQueueInTime(s: State, step: Step)
    requires Enabled(s, step) && QueueInTime(s) && AllMeanToPost(s)
    ensures QueueInTime(Move(s, step))
  {
    var u := Move(s, step);
    forall e | e in u.queue && e.msg.WatchDog?
      ensures e.msg.m < |u.medias| && Overdue(u.medias[e.msg.m], e.when)
    {
      NewWatchDog(s, step, e);
      if e in s.queue {
        MoveMatures(s, step, e.msg.m);
        StaysOverdue(s.medias[e.msg.m], u.medias[e.msg.m], e.when, e.when);
      } else {
        PostedInTime(s, step, e);
      }
    }
  }

  /** The clock does not go back, and the looper takes up a message when it is due. */
  lemma NewHandling(s: State, step: Step)
    requires Enabled(s, step) && Move(s, step).handling.Some?
    ensures var u := Move(s, step);
            && s.now <= u.now
            && (u.handling == s.handling
                || (step.Pop? && u.handling == Some(s.queue[0].msg) && s.queue[0].when <= s.now))
  {
  }

  lemma MoveHandlingInTime(s: State, step: Step)
    requires Enabled(s, step) && QueueInTime(s) && HandlingInTime(s)
    ensures HandlingInTime(Move(s, step))
  {
    var u := Move(s, step);
    if u.handling.Some? && u.handling.value.WatchDog? {
      var m := u.handling.value.m;
      NewHandling(s, step);
      if u.handling == s.handling {
        MoveMatures(s, step, m);
        StaysOverdue(s.medias[m], u.medias[m], s.now, u.now);
      } else {
        assert s.queue[0] in s.queue;
        MoveMatures(s, step, m);
        StaysOverdue(s.medias[m], u.medias[m], s.queue[0].when, u.now);
      }
    }
  }

  lemma ClockAdvances(s: State, step: Step)
    requires Enabled(s, step)
    ensures s.now <= Move(s, step).now
  {
  }

  lemma MoveClosedInTime(s: State, step: Step)
    requires Inv(s) && Enabled(s, step) && HandlingInTime(s) && ClosedInTime(s)
    ensures ClosedInTime(Move(s, step))
  {
    var u := Move(s, step);
    ClockAdvances(s, step);
    forall m: nat | m < |u.medias| && u.medias[m].closed && !u.medias[m].destroyed
      ensures Overdue(u.medias[m], u.now)
    {
      if m >= |s.medias| {
        NewMediaIsOpen(s, step, m);
      }
      MoveMatures(s, step, m);
      MoveCloses(s, step, m);
      StaysOverdue(s.medias[m], u.medias[m], s.now, u.now);
    }
  }

  lemma SameReaders(md: Media, md': Media)
    requires md'.readers == md.readers && md'.timeout == md.timeout
    ensures MeansToPost(md') <==> MeansToPost(md)
    ensures forall when: int :: Overdue(md', when) <==> Overdue(md, when)
  {
    assert forall r: nat, when: int | r < |md.readers| :: DueFor(md', r, when) == DueFor(md, r, when);
  }

  lemma SettlingKeepsTime(s: State)
    requires InTime(s)
    ensures InTime(Collect(s))
  {
    var t := Collect(s);
    forall m: nat | m < |s.medias|
      ensures MeansToPost(t.medias[m]) && (t.medias[m].destroyed || t.medias[m] == s.medias[m])
      ensures forall when: int :: Overdue(t.medias[m], when) <==> Overdue(s.medias[m], when)
    {
      assert MeansToPost(s.medias[m]);
      SameReaders(s.medias[m], t.medias[m]);
    }
  }

  lemma StepKeepsTime(s: State, step: Step)
    requires Inv(s) && InTime(s) && Enabled(s, step)
    ensures InTime(Apply(s, step))
  {
    MoveMeansToPost(s, step);
    MoveQueueInTime(s, step);
    MoveHandlingInTime(s, step);
    MoveClosedInTime(s, step);
    SettlingKeepsTime(Move(s, step));
  }

  lemma {:induction false} RunKeepsTime(s: State, steps: seq<Step>)
    requires Inv(s) && InTime(s) && Legal(s, steps)
    ensures InTime(Exec(s, steps))
    decreases |steps|
  {
    if steps != [] {
      StepKeeps(s, steps[0]);
      StepKeepsTime(s, steps[0]);
      RunKeepsTime(Apply(s, steps[0]), steps[1..]);
    }
  }

  lemma ReachableInTime(s: State)
    requires Reachable(s)
    ensures Inv(s) && InTime(s)
  {
    var now, steps :| Legal(Init(now), steps) && s == Exec(Init(now), steps);
    NothingYet(now);
    RunKeepsTime(Init(now), steps);
    InvExec(Init(now), steps);
  }

  // ---------- when a media is closed ----------

  /** In every run: a media that is closed although it has owners has an idleTimeout that is
      not negative, and some reader of it has been gone for that long. */
  lemma NeverClosedEarly(s: State, m: nat)
    requires Reachable(s) && m < |s.medias| && s.medias[m].closed && Owned(s, m)
    ensures Overdue(s.medias[m], s.now)
  {
    ReachableInTime(s);
  }

  /** A media with a negative idleTimeout is closed exactly when its last owner is gone. */
  lemma NegativeTimeout(s: State, m: nat)
    requires Reachable(s) && m < |s.medias| && s.medias[m].isOpen && s.medias[m].timeout < 0
    ensures s.medias[m].closed <==> !Owned(s, m)
  {
    ReachableInTime(s);
    if !Owned(s, m) {
      assert Good(s.medias[m]);
    }
  }

  lemma HandledIsOverdue(s: State, m: nat)
    requires Reachable(s) && s.handling == Some(WatchDog(m))
    ensures m < |s.medias| && Overdue(s.medias[m], s.now)
  {
    ReachableInTime(s);
  }

  /** A watchdog that comes before the last reader has been gone for the timeout was posted by
      an earlier reader, which has been gone for that long. */
  lemma EarlyCloseIsOlder(s: State, m: nat)
    requires Reachable(s) && s.handling == Some(WatchDog(m)) && m < |s.medias|
    requires s.medias[m].readers == [] || !DueFor(s.medias[m], |s.medias[m].readers| - 1, s.now)
    ensures exists r: nat :: r < |s.medias[m].readers| - 1 && DueFor(s.medias[m], r, s.now)
  {
    HandledIsOverdue(s, m);
    var md, now := s.medias[m], s.now;
    OlderReader(md, now);
  }

  lemma OlderReader(md: Media, when: int)
    requires Overdue(md, when) && (md.readers == [] || !DueFor(md, |md.readers| - 1, when))
    ensures exists r: nat :: r < |md.readers| - 1 && DueFor(md, r, when)
  {
    var r: nat :| r < |md.readers| && DueFor(md, r, when);
    assert r != |md.readers| - 1;
  }
}
