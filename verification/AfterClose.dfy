/** "After close the framework calls nothing else on the media" (src/imedia.h): when
    does that hold? A watchdog may close a media while a request has it in hand and is not
    done with it, while a preempted reader is still held, or while `~Reader` is at work and
    has still to ask for idleTimeout(). Exactly those closes break the promise. */
module AfterClose {
  import opened Prelude
  import opened MediaModel
  import opened Sessions
  import opened SessionTheorems

  /** The request was, or will be, handed the media and has calls to make on it. */
  predicate WillCall(cl: Client, m: nat) {
    Holds(cl, m) && (cl.Holding? ==> !cl.stage.Answered?)
  }

  ghost predicate AskedLater(md: Media) {
    exists r | 0 <= r < |md.readers| :: WillAsk(md.readers[r])
  }

  /** A request has calls to make on the media, or a reader's destructor has. */
  ghost predicate InUse(s: State, m: nat)
    requires m < |s.medias|
  {
    AskedLater(s.medias[m]) || exists c | 0 <= c < |s.clients| :: WillCall(s.clients[c], m)
  }

  /** The guard a caller can check before the watchdog message is handled. */
  ghost predicate ClosesLate(s: State, step: Step) {
    && step.Handle? && s.handling.Some? && s.handling.value.WatchDog?
    && var m := s.handling.value.m;
       && m < |s.medias| && LastReaderExists(s.medias[m])
       && !s.medias[m].closed && IsIdle(s.medias[m]) && s.medias[m].key in s.registry
       && InUse(s, m)
  }

  ghost predicate Tidy(s: State) {
    forall m | 0 <= m < |s.medias| && s.medias[m].closed :: !InUse(s, m)
  }

  ghost predicate AllQuiet(s: State) {
    forall m | 0 <= m < |s.medias| :: QuietAfterClose(s.medias[m])
  }

  ghost predicate NoLateClose(s: State, steps: seq<Step>)
    requires Legal(s, steps)
    decreases |steps|
  {
    steps != [] ==> !ClosesLate(s, steps[0]) && NoLateClose(Apply(s, steps[0]), steps[1..])
  }

  lemma OpenIsQuiet(md: Media)
    requires Good(md) && !md.closed
    ensures QuietAfterClose(md)
    ensures QuietAfterClose(CloseMedia(md)) && QuietAfterClose(Destroy(md))
  {
  }

  // ---------- tidy states stay tidy and quiet, except for a late close ----------

  lemma NewReaderAsks(s: State, step: Step, m: nat)
    requires step.NewReader? && Enabled(s, step) && m < |s.medias| && AskedLater(Move(s, step).medias[m])
    ensures InUse(s, m)
  {
    if s.clients[step.c].m == m {
      assert WillCall(s.clients[step.c], m);
    }
  }

  lemma EndReaderAsks(s: State, step: Step, m: nat)
    requires step.EndReader? && Enabled(s, step) && m < |s.medias| && AskedLater(Move(s, step).medias[m])
    ensures AskedLater(s.medias[m])
  {
    EndReaderMedias(s, step.m, step.r);
    DestructAsks(s.medias[step.m], step.r, s.now);
  }

  lemma DestructAsks(md: Media, r: nat, now: int)
    requires r < |md.readers| && !md.readers[r].phase.Held?
    ensures AskedLater(Destruct(md, r, now)) ==> AskedLater(md)
    ensures !AskedLater(md) ==> Destruct(md, r, now).calls == md.calls
  {
    var md' := Destruct(md, r, now);
    assert forall k | 0 <= k < |md.readers| && WillAsk(md'.readers[k]) :: WillAsk(md.readers[k]);
    assert WillAsk(md.readers[r]) ==> AskedLater(md);
  }

  lemma StreamAsks(s: State, step: Step, m: nat)
    requires (step.ReadFrom? || step.DropReader?) && Enabled(s, step) && m < |s.medias|
    requires AskedLater(Move(s, step).medias[m])
    ensures AskedLater(s.medias[m])
  {
    var r :| 0 <= r < |Move(s, step).medias[m].readers| && WillAsk(Move(s, step).medias[m].readers[r]);
    assert WillAsk(s.medias[m].readers[r]);
  }

  /** Only a request with the media in hand can bring it a reader that will ask. */
  lemma NewAsker(s: State, step: Step, m: nat)
    requires Enabled(s, step) && m < |s.medias| && m < |Move(s, step).medias|
    requires AskedLater(Move(s, step).medias[m])
    ensures InUse(s, m)
  {
    match step
    case NewReader(_, _, _, _, _) => NewReaderAsks(s, step, m);
    case EndReader(_, _) => EndReaderAsks(s, step, m);
    case ReadFrom(_, _) => StreamAsks(s, step, m);
    case DropReader(_) => StreamAsks(s, step, m);
    case Handle(outcome) => HandlingKeepsReaders(s, s.handling.value, outcome, m);
    case _ => assert Move(s, step).medias[m].readers == s.medias[m].readers;
  }

  lemma EndReaderMedias(s: State, m: nat, r: nat)
    requires Enabled(s, EndReader(m, r))
    ensures var t := Move(s, EndReader(m, r));
            t.medias == s.medias[m := Destruct(s.medias[m], r, s.now)] && t.clients == s.clients
  {
  }

  lemma HandlingKeepsReaders(s: State, msg: Msg, outcome: Outcome, m: nat)
    requires CanHandle(s, msg) && m < |s.medias|
    ensures m < |HandleMsg(s, msg, outcome).medias|
    ensures HandleMsg(s, msg, outcome).medias[m].readers == s.medias[m].readers
    ensures s.medias[m].closed ==> HandleMsg(s, msg, outcome).medias[m].calls == s.medias[m].calls
  {
    match msg
    case Get(_, _) =>
    case Create(_) => assert HandleMsg(s, msg, outcome).medias[m] == s.medias[m];
    case WatchDog(_) =>
  }

  /** Who is newly handed a media, and which one. */
  lemma Handed(s: State, msg: Msg, outcome: Outcome, d: nat, m: nat)
    requires CanHandle(s, msg) && d < |HandleMsg(s, msg, outcome).clients|
    requires WillCall(HandleMsg(s, msg, outcome).clients[d], m)
    ensures d < |s.clients|
    ensures WillCall(s.clients[d], m) || (msg.Get? && Live(s, msg.id) == Some(m))
            || (msg.Create? && m == |s.medias| < |HandleMsg(s, msg, outcome).medias|
                && !HandleMsg(s, msg, outcome).medias[m].closed)
  {
    match msg
    case Get(c, id) =>
    case Create(c) =>
    case WatchDog(_) =>
  }

  /** An answered media is live, hence not closed. */
  lemma AnswerIsOpen(s: State, outcome: Outcome, d: nat, m: nat)
    requires RegistryExact(s) && Enabled(s, Handle(outcome)) && d < |Move(s, Handle(outcome)).clients|
    requires WillCall(Move(s, Handle(outcome)).clients[d], m)
    requires m < |Move(s, Handle(outcome)).medias| && Move(s, Handle(outcome)).medias[m].closed
    ensures d < |s.clients| && WillCall(s.clients[d], m)
  {
    Handed(s, s.handling.value, outcome, d, m);
  }

  /** A request that will call a closed media was going to before. */
  lemma NewCaller(s: State, step: Step, d: nat, m: nat)
    requires RegistryExact(s) && Enabled(s, step)
    requires var t := Move(s, step);
             m < |t.medias| && t.medias[m].closed && d < |t.clients| && WillCall(t.clients[d], m)
    ensures d < |s.clients| && WillCall(s.clients[d], m)
  {
    match step
    case Handle(outcome) => AnswerIsOpen(s, outcome, d, m);
    case Call(wish) => CallFacts(s, wish);
    case Receive(_) => NewStage(s, step, d, m);
    case Abort(_) => NewStage(s, step, d, m);
    case Query(_) => NewStage(s, step, d, m);
    case NewReader(_, _, _, _, _) => NewStage(s, step, d, m);
    case EndHandle(_) => NewStage(s, step, d, m);
    case DropReader(_) => NewStage(s, step, d, m);
    case EndReader(k, r) => EndReaderMedias(s, k, r);
    case _ => assert Move(s, step).clients == s.clients;
  }

  lemma NewStage(s: State, step: Step, d: nat, m: nat)
    requires step.Receive? || step.Abort? || step.Query? || step.NewReader? || step.EndHandle? || step.DropReader?
    requires Enabled(s, step) && d < |Move(s, step).clients| && WillCall(Move(s, step).clients[d], m)
    ensures d < |s.clients| && WillCall(s.clients[d], m)
  {
  }

  /** What is in use and closed after a step was so before, unless the step closes late. */
  lemma NewUseIsOpen(s: State, step: Step, m: nat)
    requires Inv(s) && Enabled(s, step)
    requires var t := Move(s, step); m < |t.medias| && InUse(t, m) && t.medias[m].closed
    ensures m < |s.medias| && InUse(s, m) && (s.medias[m].closed || ClosesLate(s, step))
  {
    var t := Move(s, step);
    if m >= |s.medias| {
      NewMediaIsOpen(s, step, m);
    }
    if AskedLater(t.medias[m]) {
      NewAsker(s, step, m);
    } else {
      var d :| 0 <= d < |t.clients| && WillCall(t.clients[d], m);
      NewCaller(s, step, d, m);
    }
    MoveCloses(s, step, m);
  }

  lemma SettlingKeepsUse(s: State, m: nat)
    requires m < |s.medias|
    ensures InUse(Collect(s), m) <==> InUse(s, m)
    ensures InUse(s, m) ==> Collect(s).medias[m] == s.medias[m]
  {
    assert Collect(s).medias[m].readers == s.medias[m].readers;
  }

  lemma StaysTidy(s: State, step: Step)
    requires Inv(s) && Tidy(s) && Enabled(s, step) && !ClosesLate(s, step)
    ensures Tidy(Apply(s, step))
  {
    var t, u := Apply(s, step), Move(s, step);
    forall m: nat | m < |t.medias| && t.medias[m].closed
      ensures !InUse(t, m)
    {
      SettlingKeepsUse(u, m);
      if InUse(u, m) {
        NewUseIsOpen(s, step, m);
      }
    }
  }

  lemma UnusedKeepsCalls(s: State, step: Step, m: nat)
    requires Enabled(s, step) && m < |s.medias| && s.medias[m].closed && !InUse(s, m) && m < |Move(s, step).medias|
    ensures Move(s, step).medias[m].calls == s.medias[m].calls
  {
    match step
    case Handle(outcome) => HandlingKeepsReaders(s, s.handling.value, outcome, m);
    case Query(c) => assert WillCall(s.clients[c], s.clients[c].m);
    case NewReader(c, _, _, _, _) => assert WillCall(s.clients[c], s.clients[c].m);
    case ReadFrom(c, _) => assert WillAsk(s.medias[s.clients[c].m].readers[s.clients[c].r]);
    case EndReader(k, r) =>
      EndReaderMedias(s, k, r);
      DestructAsks(s.medias[k], r, s.now);
    case _ =>
  }

  /** Nobody calls into a closed media that is not in use. */
  lemma UnusedIsUntouched(s: State, step: Step, m: nat)
    requires Inv(s) && Enabled(s, step) && m < |s.medias| && s.medias[m].closed && !InUse(s, m)
    ensures m < |Move(s, step).medias| && Move(s, step).medias[m].calls == s.medias[m].calls
    ensures Move(s, step).medias[m].closed
  {
    MoveCloses(s, step, m);
    UnusedKeepsCalls(s, step, m);
  }

  lemma MoveStaysQuiet(s: State, step: Step, m: nat)
    requires Inv(s) && Tidy(s) && AllQuiet(s) && Enabled(s, step) && m < |s.medias| && m < |Move(s, step).medias|
    requires Move(s, step).medias[m].closed
    ensures QuietAfterClose(Move(s, step).medias[m])
  {
    if s.medias[m].closed {
      UnusedIsUntouched(s, step, m);
    } else {
      MoveCloses(s, step, m);
      assert Good(s.medias[m]);
      OpenIsQuiet(s.medias[m]);
    }
  }

  lemma StaysQuiet(s: State, step: Step)
    requires Inv(s) && Tidy(s) && AllQuiet(s) && Enabled(s, step)
    ensures AllQuiet(Apply(s, step))
  {
    var t, u := Apply(s, step), Move(s, step);
    MoveKeeps(s, step);
    forall m: nat | m < |t.medias|
      ensures QuietAfterClose(t.medias[m])
    {
      assert Good(u.medias[m]);
      if !u.medias[m].closed {
        OpenIsQuiet(u.medias[m]);
      } else {
        if m >= |s.medias| {
          NewMediaIsOpen(s, step, m);
        }
        MoveStaysQuiet(s, step, m);
        assert u.medias[m].destroyed || t.medias[m] == u.medias[m] || t.medias[m] == Destroy(u.medias[m]);
      }
    }
  }

  lemma NoNewMedia(s: State, step: Step)
    requires Enabled(s, step) && !step.Handle?
    ensures |Move(s, step).medias| == |s.medias|
  {
  }

  lemma NewMediaIsOpen(s: State, step: Step, m: nat)
    requires Enabled(s, step) && |s.medias| <= m < |Move(s, step).medias|
    ensures !Move(s, step).medias[m].closed
  {
    if step.Handle? {
      HandledMediaIsOpen(s, s.handling.value, step.outcome, m);
    } else {
      NoNewMedia(s, step);
      assert false;
    }
  }

  lemma HandledMediaIsOpen(s: State, msg: Msg, outcome: Outcome, m: nat)
    requires CanHandle(s, msg) && |s.medias| <= m < |HandleMsg(s, msg, outcome).medias|
    ensures !HandleMsg(s, msg, outcome).medias[m].closed
  {
  }

  /** A run without a late close never calls into a closed media. */
  lemma {:induction false} QuietRun(s: State, steps: seq<Step>)
    requires Inv(s) && Tidy(s) && AllQuiet(s) && Legal(s, steps) && NoLateClose(s, steps)
    ensures var t := Exec(s, steps); Inv(t) && Tidy(t) && AllQuiet(t)
    decreases |steps|
  {
    if steps != [] {
      StepKeeps(s, steps[0]);
      StaysTidy(s, steps[0]);
      StaysQuiet(s, steps[0]);
      QuietRun(Apply(s, steps[0]), steps[1..]);
    }
  }

  // ---------- and a late close can always be made to hurt ----------

  lemma OneStep(s: State, step: Step)
    requires Enabled(s, step)
    ensures Legal(s, [step]) && Exec(s, [step]) == Apply(s, step)
    ensures !step.Handle? ==> NoLateClose(s, [step])
  {
    assert [step][1..] == [];
    assert Legal(Apply(s, step), []);
  }

  lemma CallAfterCloseIsLoud(md: Media, md': Media, more: seq<UserCall>)
    requires Good(md) && md.closed && more != []
    requires md'.calls == md.calls + more
    ensures !QuietAfterClose(md')
  {
    var i :| 0 <= i < |md.calls| && md.calls[i] == Close;
    assert md'.calls[i] == Close;
  }

  lemma FirstStep(s: State, step: Step, rest: seq<Step>)
    requires Enabled(s, step) && !step.Handle? && Legal(Apply(s, step), rest) && NoLateClose(Apply(s, step), rest)
    ensures Legal(s, [step] + rest) && NoLateClose(s, [step] + rest)
    ensures Exec(s, [step] + rest) == Exec(Apply(s, step), rest)
  {
    assert ([step] + rest)[1..] == rest;
  }

  /** A step that calls a closed media breaks the promise. */
  lemma LoudStep(s: State, step: Step, m: nat, more: seq<UserCall>)
    requires Inv(s) && Enabled(s, step) && m < |s.medias| && s.medias[m].closed && more != []
    requires m < |Move(s, step).medias| && Move(s, step).medias[m].calls == s.medias[m].calls + more
    requires Move(s, step).medias[m].closed
    ensures !AllQuiet(Apply(s, step))
  {
    MoveKeeps(s, step);
    var t := Apply(s, step);
    assert Good(s.medias[m]);
    CallAfterCloseIsLoud(s.medias[m], t.medias[m], more);
  }

  /** A reader's destructor asks a closed media for its idleTimeout. */
  lemma ReaderEndIsLoud(s: State, m: nat, r: nat)
    requires Inv(s) && m < |s.medias| && s.medias[m].closed && r < |s.medias[m].readers|
    requires s.medias[m].readers[r].phase.Expired? || s.medias[m].readers[r].phase.Asked?
    ensures Enabled(s, EndReader(m, r)) && !AllQuiet(Apply(s, EndReader(m, r)))
  {
    EndReaderQueue(s, m, r);
    LoudStep(s, EndReader(m, r), m, [IdleTimeout]);
  }

  /** The next call of a request that has a closed media in hand. */
  function NextCall(s: State, c: nat): Step
    requires c < |s.clients| && s.clients[c].Holding? && s.clients[c].m < |s.medias|
  {
    if s.clients[c].stage.Creating? then NewReader(c, true, 0, -1, SeekOutcome(-1, s.medias[s.clients[c].m].cursor))
    else Query(c)
  }

  /** Whatever step a request with a closed media in hand takes next, as long as it is not
      done with the media: the step calls it. */
  lemma HandleIsLoud(s: State, c: nat, m: nat, step: Step)
    requires Inv(s) && c < |s.clients| && s.clients[c].Holding? && WillCall(s.clients[c], m)
    requires m < |s.medias| && s.medias[m].closed
    requires Enabled(s, step) && (step.Query? || step.NewReader? || step.EndHandle?) && step.c == c
    ensures !AllQuiet(Apply(s, step))
  {
    var md := s.medias[m];
    if step.NewReader? {
      CreateReaderShape(md, step.notify, step.from, step.to, step.seek);
      CreateReaderCalls(md, step.notify, step.from, step.to, step.seek);
      LoudStep(s, step, m, CallsOfCreate(md, step.from, step.to));
    } else {
      LoudStep(s, step, m, [StageCall(s.clients[c].stage).value]);
    }
  }

  lemma NextCallEnabled(s: State, c: nat, m: nat)
    requires Inv(s) && c < |s.clients| && s.clients[c].Holding? && WillCall(s.clients[c], m)
    requires m < |s.medias|
    ensures Enabled(s, NextCall(s, c))
  {
    assert Good(s.medias[m]);
  }

  lemma RequestGetsLoud(s: State, c: nat, m: nat) returns (more: seq<Step>)
    requires Inv(s) && c < |s.clients| && s.clients[c].Holding? && WillCall(s.clients[c], m)
    requires m < |s.medias| && s.medias[m].closed
    ensures Legal(s, more) && NoLateClose(s, more) && !AllQuiet(Exec(s, more))
  {
    NextCallEnabled(s, c, m);
    HandleIsLoud(s, c, m, NextCall(s, c));
    more := [NextCall(s, c)];
    OneStep(s, more[0]);
  }

  lemma CallerGetsLoud(s: State, c: nat, m: nat) returns (more: seq<Step>)
    requires Inv(s) && m < |s.medias| && s.medias[m].closed && c < |s.clients| && WillCall(s.clients[c], m)
    ensures Legal(s, more) && NoLateClose(s, more) && !AllQuiet(Exec(s, more))
  {
    if s.clients[c].Holding? {
      more := RequestGetsLoud(s, c, m);
    } else {
      var t := Apply(s, Receive(c));
      StepKeeps(s, Receive(c));
      assert WillCall(t.clients[c], m);
      SettlingKeepsUse(Move(s, Receive(c)), m);
      more := RequestGetsLoud(t, c, m);
      FirstStep(s, Receive(c), more);
      more := [Receive(c)] + more;
    }
  }

  lemma DyingGetsLoud(s: State, m: nat, r: nat) returns (more: seq<Step>)
    requires Inv(s) && m < |s.medias| && s.medias[m].closed && r < |s.medias[m].readers|
    requires s.medias[m].readers[r].phase.Expired? || s.medias[m].readers[r].phase.Asked?
    ensures Legal(s, more) && NoLateClose(s, more) && !AllQuiet(Exec(s, more))
  {
    ReaderEndIsLoud(s, m, r);
    more := [EndReader(m, r)];
    OneStep(s, more[0]);
  }

  lemma StreamGetsLoud(s: State, c: nat) returns (more: seq<Step>)
    requires Inv(s) && c < |s.clients| && HasReader(s, s.clients[c]) && s.medias[s.clients[c].m].closed
    ensures Legal(s, more) && NoLateClose(s, more) && !AllQuiet(Exec(s, more))
  {
    var cl := s.clients[c];
    var u := Move(s, DropReader(c));
    assert WillAsk(u.medias[cl.m].readers[cl.r]);
    SettlingKeepsUse(u, cl.m);
    StepKeeps(s, DropReader(c));
    more := DyingGetsLoud(Apply(s, DropReader(c)), cl.m, cl.r);
    FirstStep(s, DropReader(c), more);
    more := [DropReader(c)] + more;
  }

  lemma HolderGetsLoud(s: State, c: nat, m: nat, r: nat) returns (more: seq<Step>)
    requires Inv(s) && c < |s.clients| && HasInHand(s.clients[c], m, r)
    requires m < |s.medias| && s.medias[m].closed && r < |s.medias[m].readers| && s.medias[m].readers[r].phase.Held?
    ensures Legal(s, more) && NoLateClose(s, more) && !AllQuiet(Exec(s, more))
  {
    var cl := s.clients[c];
    if cl.Streaming? {
      more := StreamGetsLoud(s, c);
    } else if WillCall(cl, m) {
      more := CallerGetsLoud(s, c, m);
    } else {
      var u := Move(s, EndHandle(c));
      assert WillAsk(u.medias[m].readers[r]);
      SettlingKeepsUse(u, m);
      StepKeeps(s, EndHandle(c));
      more := StreamGetsLoud(Apply(s, EndHandle(c)), c);
      FirstStep(s, EndHandle(c), more);
      more := [EndHandle(c)] + more;
    }
  }

  lemma UntidyGetsLoud(s: State, m: nat) returns (more: seq<Step>)
    requires Inv(s) && m < |s.medias| && s.medias[m].closed && InUse(s, m)
    ensures Legal(s, more) && NoLateClose(s, more) && !AllQuiet(Exec(s, more))
  {
    if AskedLater(s.medias[m]) {
      var r :| 0 <= r < |s.medias[m].readers| && WillAsk(s.medias[m].readers[r]);
      if s.medias[m].readers[r].phase.Held? {
        assert InSomeHand(s.clients, m, r);
        var c :| 0 <= c < |s.clients| && HasInHand(s.clients[c], m, r);
        more := HolderGetsLoud(s, c, m, r);
      } else {
        more := DyingGetsLoud(s, m, r);
      }
    } else {
      var c :| 0 <= c < |s.clients| && WillCall(s.clients[c], m);
      more := CallerGetsLoud(s, c, m);
    }
  }

  ghost predicate CanGetLoud(s: State) {
    exists more: seq<Step> :: Legal(s, more) && NoLateClose(s, more) && !AllQuiet(Exec(s, more))
  }

  lemma LateGetsLoud(s: State, step: Step)
    requires Inv(s) && Enabled(s, step) && ClosesLate(s, step)
    ensures CanGetLoud(Apply(s, step))
  {
    var m := s.handling.value.m;
    StepKeeps(s, step);
    SettlingKeepsUse(Move(s, step), m);
    var more := UntidyGetsLoud(Apply(s, step), m);
  }

  lemma OthersStayQuiet(s: State, step: Step)
    requires Inv(s) && Tidy(s) && AllQuiet(s) && Enabled(s, step) && !ClosesLate(s, step)
    ensures !CanGetLoud(Apply(s, step))
  {
    var t := Apply(s, step);
    StepKeeps(s, step);
    StaysTidy(s, step);
    StaysQuiet(s, step);
    forall more: seq<Step> | Legal(t, more) && NoLateClose(t, more)
      ensures AllQuiet(Exec(t, more))
    {
      QuietRun(t, more);
    }
  }

  lemma NothingYet(now: int)
    ensures var s := Init(now); Inv(s) && Tidy(s) && AllQuiet(s)
  {
    assert forall c: nat, w: bool :: Pending(Init(now), c, w) == 0;
  }

  /** As long as no close was late, a step endangers the promise exactly when it is a
      late close: then, and only then, some continuation without further late closes
      calls into a closed media. */
  lemma LateCloseExactly(now: int, steps: seq<Step>, step: Step)
    requires Legal(Init(now), steps) && NoLateClose(Init(now), steps) && Enabled(Exec(Init(now), steps), step)
    ensures AllQuiet(Exec(Init(now), steps))
    ensures ClosesLate(Exec(Init(now), steps), step) <==> CanGetLoud(Apply(Exec(Init(now), steps), step))
  {
    NothingYet(now);
    QuietRun(Init(now), steps);
    if ClosesLate(Exec(Init(now), steps), step) {
      LateGetsLoud(Exec(Init(now), steps), step);
    } else {
      OthersStayQuiet(Exec(Init(now), steps), step);
    }
  }
}
