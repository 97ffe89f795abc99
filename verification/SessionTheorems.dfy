/** What the session model guarantees over whole runs. */
module SessionTheorems {
  import opened Prelude
  import opened EventQueue
  import opened MediaModel
  import opened Sessions

  /** s is the outcome of some run. */
  ghost predicate Reachable(s: State) {
    exists now: int, steps: seq<Step> :: Legal(Init(now), steps) && s == Exec(Init(now), steps)
  }

  lemma ReachableInv(s: State)
    requires Reachable(s)
    ensures Inv(s)
  {
    var now, steps :| Legal(Init(now), steps) && s == Exec(Init(now), steps);
    assert forall c: nat, w: bool :: Pending(Init(now), c, w) == 0;
    InvExec(Init(now), steps);
  }

  // ---------- requests ----------

  /** No request is lost or duplicated: an awaiting call has exactly one message or a
      reply, and an answered call has no message left that could answer it again. */
  lemma RequestConservation(s: State, c: nat)
    requires Reachable(s) && c < |s.clients|
    ensures s.clients[c].Awaiting? ==> Pending(s, c, false) == if s.clients[c].reply.None? then 1 else 0
    ensures s.clients[c].Holding? || s.clients[c].Finished? ==> Pending(s, c, false) == 0
  {
    ReachableInv(s);
  }

  lemma {:induction false} WeightsAgree(q: seq<Event<Msg>>, c: nat)
    ensures Total(q, c, false) <= Total(q, c, true)
    ensures Total(q, c, false) == 0 ==> Total(q, c, true) == 0
  {
    if q != [] {
      WeightsAgree(q[1..], c);
    }
  }

  ghost predicate Progress(s: State, t: State, c: nat)
    requires c < |s.clients|
  {
    && |t.clients| == |s.clients|
    && Pending(t, c, true) < Pending(s, c, true)
    && (s.clients[c].Awaiting? ==>
          t.clients[c].Awaiting? && (t.clients[c].reply.Some? <==> Pending(t, c, true) == 0))
  }

  lemma GetProgress(s: State, c: nat, id: int)
    requires Inv(s) && s.handling == Some(Get(c, id)) && c < |s.clients|
    ensures Progress(s, HandleGet(s, c, id).(handling := None), c)
  {
    HandledCall(s, c);
    WeightsAgree(s.queue, c);
    if Live(s, id).None? {
      TotalInsert(s.queue, Event(DueTime(s.now, 0), Create(c)), c, true);
    }
  }

  lemma CreateProgress(s: State, c: nat, outcome: Outcome)
    requires Inv(s) && s.handling == Some(Create(c)) && c < |s.clients|
    ensures Progress(s, HandleCreate(s, c, outcome).(handling := None), c)
  {
    HandledCall(s, c);
    WeightsAgree(s.queue, c);
  }

  lemma MoveProgress(s: State, outcome: Outcome, c: nat)
    requires Inv(s) && Enabled(s, Handle(outcome)) && Cost(s.handling.value, c, false) == 1
    ensures c < |s.clients| && Progress(s, Move(s, Handle(outcome)), c)
  {
    HandledCall(s, c);
    if s.handling.value.Get? {
      GetProgress(s, c, s.handling.value.id);
    } else {
      CreateProgress(s, c, outcome);
    }
  }

  /** Handling a request ends it or moves it from get to create: its weight drops, and
      while the caller waits it is answered exactly when the weight reaches zero. */
  lemma HandlingMakesProgress(s: State, outcome: Outcome, c: nat)
    requires Reachable(s)
    requires Enabled(s, Handle(outcome)) && Cost(s.handling.value, c, false) == 1
    ensures c < |s.clients| && Progress(s, Apply(s, Handle(outcome)), c)
  {
    ReachableInv(s);
    MoveProgress(s, outcome, c);
    var t := Move(s, Handle(outcome));
    assert Apply(s, Handle(outcome)) == t.(medias := Apply(s, Handle(outcome)).medias);
    assert Progress(s, t, c);
  }

  // ---------- media lifecycle ----------

  /** open is the first user call and the only open; a failed open is the only call at
      all; close happens at most once, and has happened once nobody owns the media. */
  lemma MediaLifecycle(s: State, m: nat)
    requires Reachable(s) && m < |s.medias|
    ensures var calls := s.medias[m].calls;
            && calls != [] && calls[0].Open?
            && (forall i | 0 < i < |calls| :: !calls[i].Open?)
            && (!calls[0].ok ==> |calls| == 1)
            && (forall i, j | 0 <= i < j < |calls| :: !(calls[i].Close? && calls[j].Close?))
            && (calls[0].ok && !Owned(s, m) ==> Close in calls)
  {
    ReachableInv(s);
    assert Good(s.medias[m]);
  }

  /** The readers of a media never overlap: at most the last one created is alive, and
      each got one contiguous stretch of the content from its own from(). */
  lemma ReaderIsolation(s: State, m: nat, r: nat)
    requires Reachable(s)
    requires m < |s.medias| && r < |s.medias[m].readers|
    ensures var md := s.medias[m];
            var rd := md.readers[r];
            && (rd.alive ==> r == |md.readers| - 1)
            && 0 <= rd.from && rd.from + |rd.out| <= |md.content|
            && rd.out == md.content[rd.from..rd.from + |rd.out|]
  {
    ReachableInv(s);
    assert Good(s.medias[m]);
  }

  // ---------- idle timeout ----------

  /** What the invariant says of one media. */
  lemma WatchedOrNot(s: State, m: nat)
    requires Reachable(s) && s.looperAlive && m < |s.medias|
    ensures OneAlive(s.medias[m])
    ensures Abandoned(s.medias[m]) ==>
              s.handling == Some(WatchDog(m)) || DueBy(s.queue, WatchDog(m), Deadline(s.medias[m]))
  {
    ReachableInv(s);
    assert Good(s.medias[m]);
    if Abandoned(s.medias[m]) {
      WatchOf(s, m);
    }
  }

  lemma WatchOf(s: State, m: nat)
    requires NoIdleLeak(s) && s.looperAlive && m < |s.medias| && Abandoned(s.medias[m])
    ensures s.handling == Some(WatchDog(m)) || DueBy(s.queue, WatchDog(m), Deadline(s.medias[m]))
  {
  }

  /** An idle open media that had a reader has a watchdog on its way: its last reader is still
      to post it, or the looper handles it, or it is queued and due by the post's time plus the
      timeout. */
  lemma IdleMediaIsWatched(s: State, m: nat)
    requires Reachable(s) && s.looperAlive && m < |s.medias|
    requires var md := s.medias[m];
             md.isOpen && !md.closed && md.timeout >= 0 && md.readers != [] && md.readers[|md.readers| - 1].notify
    ensures var md := s.medias[m];
            var last := md.readers[|md.readers| - 1];
            match last.phase
            case Held => LastReaderExists(md) && !IsIdle(md)
            case Expired => Enabled(s, EndReader(m, |md.readers| - 1))
            case Asked => Enabled(s, EndReader(m, |md.readers| - 1))
            case Posting => Enabled(s, EndReader(m, |md.readers| - 1))
            case _ => s.handling == Some(WatchDog(m))
                      || DueBy(s.queue, WatchDog(m), last.postedAt + md.timeout * 1000)
  {
    WatchedOrNot(s, m);
  }

  /** What `~Reader` has still to do up to the post. */
  function UpToPost(m: nat, r: nat, phase: Phase): (plan: seq<Step>)
    ensures |plan| <= 3
    decreases if phase.Expired? then 2 else if phase.Asked? then 1 else 0
  {
    match phase
    case Expired => [EndReader(m, r)] + UpToPost(m, r, Asked)
    case Asked => [EndReader(m, r)] + UpToPost(m, r, Posting)
    case Posting => [EndReader(m, r)]
    case _ => []
  }

  ghost predicate Posts(s: State, plan: seq<Step>, m: nat, deadline: int) {
    Legal(s, plan) && DueBy(Exec(s, plan).queue, WatchDog(m), deadline)
  }

  lemma PostsBy(s: State, step: Step, rest: seq<Step>, m: nat, deadline: int)
    requires Enabled(s, step) && Posts(Apply(s, step), rest, m, deadline)
    ensures Posts(s, [step] + rest, m, deadline)
  {
    assert ([step] + rest)[1..] == rest;
  }

  lemma PostsNow(s: State, step: Step, m: nat, deadline: int)
    requires Enabled(s, step) && DueBy(Apply(s, step).queue, WatchDog(m), deadline)
    ensures Posts(s, [step], m, deadline)
  {
    assert Posts(Apply(s, step), [], m, deadline);
    PostsBy(s, step, [], m, deadline);
    assert [step] + [] == [step];
  }

  predicate Dying(rd: Reader) {
    rd.phase.Expired? || rd.phase.Asked? || rd.phase.Posting?
  }

  lemma DestructorStep(s: State, m: nat, r: nat)
    requires Inv(s) && s.looperAlive && m < |s.medias| && r < |s.medias[m].readers|
    requires Dying(s.medias[m].readers[r]) && PostsWatchDog(s.medias[m], r)
    ensures var t := Apply(s, EndReader(m, r));
            && |t.medias| == |s.medias| && t.medias[m] == Destruct(s.medias[m], r, s.now)
            && t.now == s.now && t.looperAlive
            && (s.medias[m].readers[r].phase.Posting? ==>
                  DueBy(t.queue, WatchDog(m), s.now + s.medias[m].timeout * 1000))
  {
    EndReaderQueue(s, m, r);
    var u := Move(s, EndReader(m, r));
    assert HeldByReader(u.medias[m]) by {
      assert !u.medias[m].readers[r].phase.Gone?;
    }
    assert Owned(u, m);
    assert s.medias[m].readers[r].phase.Posting? ==>
        Event(DueTime(s.now, s.medias[m].timeout * 1000), WatchDog(m)) in u.queue;
  }

  lemma DyingStep(s: State, m: nat, r: nat) returns (t: State)
    requires Inv(s) && s.looperAlive && m < |s.medias| && r < |s.medias[m].readers|
    requires Dying(s.medias[m].readers[r]) && PostsWatchDog(s.medias[m], r) && !s.medias[m].readers[r].phase.Posting?
    ensures Enabled(s, EndReader(m, r)) && t == Apply(s, EndReader(m, r)) && Inv(t) && t.looperAlive && t.now == s.now
    ensures m < |t.medias| && r < |t.medias[m].readers| && t.medias[m].timeout == s.medias[m].timeout
    ensures t.medias[m].readers[r].phase == NextPhase(s.medias[m], r) && PostsWatchDog(t.medias[m], r)
  {
    t := Apply(s, EndReader(m, r));
    DestructorStep(s, m, r);
    StepKeeps(s, EndReader(m, r));
  }

  lemma DyingPosts(s: State, m: nat, r: nat)
    requires Inv(s) && s.looperAlive && m < |s.medias| && r < |s.medias[m].readers|
    requires Dying(s.medias[m].readers[r]) && PostsWatchDog(s.medias[m], r)
    ensures Posts(s, UpToPost(m, r, s.medias[m].readers[r].phase), m, s.now + s.medias[m].timeout * 1000)
    decreases |UpToPost(m, r, s.medias[m].readers[r].phase)|
  {
    var step, phase, deadline := EndReader(m, r), s.medias[m].readers[r].phase, s.now + s.medias[m].timeout * 1000;
    if phase.Posting? {
      DestructorStep(s, m, r);
      PostsNow(s, step, m, deadline);
    } else {
      var t := DyingStep(s, m, r);
      DyingPosts(t, m, r);
      PostsBy(s, step, UpToPost(m, r, t.medias[m].readers[r].phase), m, deadline);
    }
  }

  /** From any reachable state a dying reader is at most three steps of its own from having
      posted its watchdog, due by now plus the timeout. */
  lemma DyingReaderPosts(s: State, m: nat, r: nat)
    requires Reachable(s) && s.looperAlive && m < |s.medias| && r < |s.medias[m].readers|
    requires Dying(s.medias[m].readers[r]) && PostsWatchDog(s.medias[m], r)
    ensures Posts(s, UpToPost(m, r, s.medias[m].readers[r].phase), m, s.now + s.medias[m].timeout * 1000)
  {
    ReachableInv(s);
    DyingPosts(s, m, r);
  }

  /** Such a media is closed as soon as the looper has worked off everything due by then.
      (An older watchdog may close it earlier.) */
  lemma IdlenessEndsInClose(s: State, m: nat, deadline: int)
    requires Reachable(s) && m < |s.medias|
    requires s.looperAlive && s.handling.None? && (forall e | e in s.queue :: e.when > deadline)
    requires var md := s.medias[m];
             && md.isOpen && md.timeout >= 0 && md.readers != []
             && var last := md.readers[|md.readers| - 1];
                Posted(last) && last.notify && last.postedAt + md.timeout * 1000 <= deadline
    ensures s.medias[m].closed
  {
    if !s.medias[m].closed {
      IdleMediaIsWatched(s, m);
      assert false;
    }
  }

  /** What a step can do to an existing media before reference counts are settled. */
  ghost predicate Moves(s: State, step: Step, m: nat)
    requires Enabled(s, step) && m < |s.medias|
  {
    var t := Move(s, step);
    && m < |t.medias|
    && (t.medias[m].closed != s.medias[m].closed ==>
          && step.Handle? && s.handling == Some(WatchDog(m)) && LastReaderExists(s.medias[m])
          && IsIdle(s.medias[m]) && t.medias[m] == CloseMedia(s.medias[m]))
  }

  lemma HandlingCloses(s: State, msg: Msg, outcome: Outcome, m: nat)
    requires CanHandle(s, msg) && m < |s.medias|
    ensures var t := HandleMsg(s, msg, outcome);
            && m < |t.medias|
            && (t.medias[m].closed != s.medias[m].closed ==>
                  && msg == WatchDog(m) && LastReaderExists(s.medias[m]) && IsIdle(s.medias[m])
                  && t.medias[m] == CloseMedia(s.medias[m]))
  {
    match msg
    case Get(_, _) =>
    case Create(_) => assert HandleMsg(s, msg, outcome).medias[m] == s.medias[m];
    case WatchDog(k) =>
  }

  lemma HandleMoves(s: State, outcome: Outcome, m: nat)
    requires Enabled(s, Handle(outcome)) && m < |s.medias|
    ensures Moves(s, Handle(outcome), m)
  {
    HandlingCloses(s, s.handling.value, outcome, m);
  }

  lemma EndReaderMoves(s: State, k: nat, r: nat, m: nat)
    requires Inv(s) && Enabled(s, EndReader(k, r)) && m < |s.medias|
    ensures Moves(s, EndReader(k, r), m)
  {
    EndReaderQueue(s, k, r);
    assert Good(s.medias[k]);
    EndReaderShape(s.medias[k], r, s.now);
  }

  lemma NewReaderMoves(s: State, c: nat, notify: bool, from: int, to: int, seek: SeekOutcome, m: nat)
    requires Enabled(s, NewReader(c, notify, from, to, seek)) && m < |s.medias|
    ensures Moves(s, NewReader(c, notify, from, to, seek), m)
  {
    CreateReaderShape(s.medias[s.clients[c].m], notify, from, to, seek);
  }

  lemma RequestMoves(s: State, step: Step, m: nat)
    requires Enabled(s, step) && m < |s.medias| && (step.Query? || step.ReadFrom? || step.DropReader?)
    ensures Moves(s, step, m)
  {
  }

  /** Apart from the watchdog, no step of its own closes a media. */
  lemma MoveCloses(s: State, step: Step, m: nat)
    requires Inv(s) && Enabled(s, step) && m < |s.medias|
    ensures Moves(s, step, m)
  {
    match step
    case Handle(outcome) => HandleMoves(s, outcome, m);
    case Query(_) => RequestMoves(s, step, m);
    case NewReader(c, notify, from, to, seek) => NewReaderMoves(s, c, notify, from, to, seek, m);
    case ReadFrom(_, _) => RequestMoves(s, step, m);
    case DropReader(_) => RequestMoves(s, step, m);
    case EndReader(k, r) => EndReaderMoves(s, k, r, m);
    case _ => assert Move(s, step).medias == s.medias;
  }

  /** The step that closes a media leaves no reader of it alive; so a user read after
      close belongs to a reader made after the close. */
  lemma ClosingIsSafe(s: State, step: Step, m: nat)
    requires Reachable(s) && m < |s.medias|
    requires Enabled(s, step)
    ensures var t := Apply(s, step);
            && m < |t.medias|
            && (!s.medias[m].closed && t.medias[m].closed ==>
                  forall r | 0 <= r < |t.medias[m].readers| :: !t.medias[m].readers[r].alive)
            && LateReadsAreLateBorn(s.medias[m])
  {
    ReachableInv(s);
    assert Good(s.medias[m]);
    StepKeeps(s, step);
    MoveCloses(s, step, m);
    var t := Apply(s, step);
    if !s.medias[m].closed && t.medias[m].closed {
      if t.medias[m].destroyed {
        assert !HeldByReader(t.medias[m]);
        assert Good(t.medias[m]);
      } else {
        assert t.medias[m] == Move(s, step).medias[m];
        IdleIsQuiet(s.medias[m]);
      }
    }
  }

  // ---------- whose media is it ----------

  /** Whatever a call is handed is the media it asked for, or one made after the call;
      and mMedias lists exactly the open, unclosed media, each under its own key. */
  lemma SessionIdentity(s: State, c: nat, m: nat)
    requires Reachable(s)
    requires c < |s.clients| && Holds(s.clients[c], m)
    ensures m < |s.medias| && s.medias[m].isOpen && !s.medias[m].destroyed
    ensures Suits(s.medias[m], s.clients[c].wish, s.clients[c].nextIdAtCall)
    ensures s.looperAlive ==> forall id, k: nat | k < |s.medias| && s.medias[k].isOpen && !s.medias[k].destroyed ::
                  (id in s.registry && s.registry[id] == Some(k)) <==> (!s.medias[k].closed && s.medias[k].key == id)
  {
    ReachableInv(s);
    ClientOwns(s, c, m);
  }

  lemma AnswerOfGet(s: State, c: nat, id: int, m: nat)
    requires Inv(s) && s.handling == Some(Get(c, id)) && c < |s.clients| && s.clients[c].Awaiting?
    requires Holds(HandleGet(s, c, id).clients[c], m)
    ensures m < |s.medias| && s.medias[m].key == id && !s.medias[m].closed
    ensures id in s.registry && s.registry[id] == Some(m)
    ensures HandleGet(s, c, id).medias == s.medias
  {
    HandledCall(s, c);
    assert Live(s, id) == Some(m);
  }

  lemma AnswerOfCreate(s: State, c: nat, outcome: Outcome, m: nat)
    requires Inv(s) && s.handling == Some(Create(c)) && c < |s.clients| && s.clients[c].Awaiting?
    requires Holds(HandleCreate(s, c, outcome).clients[c], m)
    ensures m == |s.medias|
    ensures var medias := HandleCreate(s, c, outcome).medias;
            m < |medias| && !medias[m].closed && forall k | 0 <= k < m :: medias[k].key < medias[m].key
  {
    HandledCall(s, c);
    assert outcome.NewMedia?;
    var medias := HandleCreate(s, c, outcome).medias;
    assert forall k | 0 <= k < |s.medias| :: medias[k] == s.medias[k];
  }

  lemma SettledMedia(s: State, step: Step, c: nat, m: nat)
    requires Inv(s) && Enabled(s, step)
    requires c < |Apply(s, step).clients| && Holds(Apply(s, step).clients[c], m)
    ensures var t, u := Apply(s, step), Move(s, step);
            && t.clients == u.clients && m < |t.medias| == |u.medias|
            && t.medias[m] == u.medias[m] && t.medias[m].isOpen && !t.medias[m].destroyed
            && forall k | 0 <= k < |t.medias| :: t.medias[k].key == u.medias[k].key
  {
    StepKeeps(s, step);
    ClientOwns(Apply(s, step), c, m);
  }

  /** At the moment of the answer: a get returns the live media registered under that id,
      a create returns a media newer than all others; both are open and unclosed. */
  lemma AnswerIsLive(s: State, outcome: Outcome, c: nat, m: nat)
    requires Reachable(s)
    requires Enabled(s, Handle(outcome)) && Cost(s.handling.value, c, false) == 1
             && c < |s.clients| && s.clients[c].Awaiting?
             && c < |Apply(s, Handle(outcome)).clients| && Holds(Apply(s, Handle(outcome)).clients[c], m)
    ensures var t := Apply(s, Handle(outcome));
            && m < |t.medias| && t.medias[m].isOpen && !t.medias[m].closed && !t.medias[m].destroyed
            && (s.handling.value.Get? ==>
                  var id := s.handling.value.id;
                  id in s.registry && s.registry[id] == Some(m) && t.medias[m].key == id)
            && (s.handling.value.Create? ==>
                  m == |s.medias| && forall k | 0 <= k < m :: t.medias[k].key < t.medias[m].key)
  {
    ReachableInv(s);
    SettledMedia(s, Handle(outcome), c, m);
    if s.handling.value.Get? {
      AnswerOfGet(s, c, s.handling.value.id, m);
    } else {
      AnswerOfCreate(s, c, outcome, m);
    }
  }
}
