/** With what a session's call is answered (src/media_manager.cpp:92-146): exactly when a get is
    answered with the live media and when it becomes a create, what a create answers, and that a
    client who comes back for a media that is still listed gets that media and no other. */
module SessionAnswers {
  import opened Prelude
  import opened EventQueue
  import opened MediaModel
  import opened Sessions
  import opened SessionTheorems
  import opened AfterClose

  /** The id stands for media m, and m is still there. */
  predicate Listed(s: State, id: int, m: nat) {
    id in s.registry && s.registry[id] == Some(m) && m < |s.medias| && !s.medias[m].destroyed
  }

  /** The call has its answer, if it still waits; nothing is posted. */
  ghost predicate Answers(s: State, t: State, c: nat, media: Option<nat>)
    requires c < |s.clients|
  {
    && t.queue == s.queue
    && t.clients == if s.clients[c].Awaiting? then s.clients[c := s.clients[c].(reply := Some(media))] else s.clients
  }

  /** The call goes on as a create that is due now; nobody is answered. */
  ghost predicate BecomesCreate(s: State, t: State, c: nat) {
    t.clients == s.clients && IsStableSort(t.queue, s.queue + [Event(s.now, Create(c))])
  }

  // ---------- the queue is in order ----------

  lemma PostKeepsOrder(s: State, msg: Msg, delayUs: int)
    requires SortedByTime(s.queue)
    ensures SortedByTime(PostMsg(s, msg, delayUs).queue)
  {
    InsertSorted(s.queue, Event(DueTime(s.now, delayUs), msg));
  }

  lemma HandlingKeepsOrder(s: State, msg: Msg, outcome: Outcome)
    requires SortedByTime(s.queue) && CanHandle(s, msg)
    ensures SortedByTime(HandleMsg(s, msg, outcome).queue)
  {
    if msg.Get? {
      PostKeepsOrder(s, Create(msg.c), 0);
    }
  }

  lemma StepKeepsOrder(s: State, step: Step)
    requires SortedByTime(s.queue) && Enabled(s, step)
    ensures SortedByTime(Apply(s, step).queue)
  {
    match step
    case Call(wish) => PostKeepsOrder(s, if wish.WantsId? then Get(|s.clients|, wish.id) else Create(|s.clients|), 0);
    case Handle(outcome) => HandlingKeepsOrder(s, s.handling.value, outcome);
    case EndReader(m, _) => PostKeepsOrder(s, WatchDog(m), s.medias[m].timeout * 1000);
    case _ =>
  }

  lemma {:induction false} RunKeepsOrder(s: State, steps: seq<Step>)
    requires SortedByTime(s.queue) && Legal(s, steps)
    ensures SortedByTime(Exec(s, steps).queue)
    decreases |steps|
  {
    if steps != [] {
      StepKeepsOrder(s, steps[0]);
      RunKeepsOrder(Apply(s, steps[0]), steps[1..]);
    }
  }

  lemma ReachableOrder(s: State)
    requires Reachable(s)
    ensures SortedByTime(s.queue)
  {
    var now, steps :| Legal(Init(now), steps) && s == Exec(Init(now), steps);
    RunKeepsOrder(Init(now), steps);
  }

  // ---------- a get ----------

  lemma GetAnswers(s: State, c: nat, id: int, m: nat)
    requires c < |s.clients| && Listed(s, id, m)
    ensures var t := HandleGet(s, c, id);
            && Answers(s, t, c, Some(m)) && t.medias == s.medias
            && forall i, k: nat :: Listed(t, i, k) <==> Listed(s, i, k)
  {
  }

  lemma GetReposts(s: State, c: nat, id: int)
    requires c < |s.clients| && s.looperAlive && SortedByTime(s.queue) && forall m: nat :: !Listed(s, id, m)
    ensures var t := HandleGet(s, c, id);
            BecomesCreate(s, t, c) && t.medias == s.medias && forall i, k: nat :: Listed(t, i, k) <==> Listed(s, i, k)
  {
    assert Live(s, id).Some? ==> Listed(s, id, Live(s, id).value);
    InsertKeepsStableSort(s.queue, s.queue, Event(s.now, Create(c)));
  }

  /** A get of an id is answered with the media that the id stands for, however long that media
      has been idle, and nothing is posted; without such a media, and only then, the call goes on
      as a create. In neither case a media is made. */
  lemma GetExactly(s: State, outcome: Outcome, c: nat, id: int)
    requires Reachable(s) && s.handling == Some(Get(c, id)) && Enabled(s, Handle(outcome))
    ensures var t := Apply(s, Handle(outcome));
            && c < |s.clients| && |t.medias| == |s.medias|
            && (forall m: nat :: Listed(s, id, m) ==> Answers(s, t, c, Some(m)))
            && ((forall m: nat :: !Listed(s, id, m)) ==> BecomesCreate(s, t, c))
  {
    ReachableInv(s);
    ReachableOrder(s);
    HandledCall(s, c);
    if m: nat :| Listed(s, id, m) {
      GetAnswers(s, c, id, m);
    } else {
      GetReposts(s, c, id);
    }
  }

  // ---------- a create ----------

  lemma CreateAnswers(s: State, c: nat, outcome: Outcome)
    requires c < |s.clients|
    ensures var t := HandleCreate(s, c, outcome);
            if outcome.NewMedia? && outcome.opens then
              && Answers(s, t, c, Some(|s.medias|)) && |t.medias| == |s.medias| + 1
              && t.nextId == s.nextId + 1 && Listed(t, t.nextId, |s.medias|)
              && var md := t.medias[|s.medias|];
                 && md.content == outcome.content && md.size == outcome.size && md.canSeek == outcome.canSeek
                 && md.timeout == outcome.timeout && md.key == t.nextId && md.calls == [Open(true)]
            else
              Answers(s, t, c, None) && t.registry == s.registry
  {
  }

  /** A create makes one media under the next id, lists it and answers with it, exactly if the
      creator has one that opens; otherwise the answer is null and nothing gets listed. */
  lemma CreateExactly(s: State, outcome: Outcome, c: nat)
    requires Reachable(s) && s.handling == Some(Create(c)) && Enabled(s, Handle(outcome))
    ensures var t := Apply(s, Handle(outcome));
            && c < |s.clients|
            && if outcome.NewMedia? && outcome.opens then
                 && Answers(s, t, c, Some(|s.medias|)) && |t.medias| == |s.medias| + 1
                 && t.nextId == s.nextId + 1 && t.medias[|s.medias|].key == t.nextId
                 && (s.clients[c].Awaiting? ==> Listed(t, t.nextId, |s.medias|))
               else
                 Answers(s, t, c, None) && t.registry == s.registry
  {
    ReachableInv(s);
    HandledCall(s, c);
    CreateAnswers(s, c, outcome);
    if s.clients[c].Awaiting? && outcome.NewMedia? && outcome.opens {
      var u := Move(s, Handle(outcome));
      assert Holds(u.clients[c], |s.medias|);
      assert Owned(u, |s.medias|);
    }
  }

  // ---------- who comes back ----------

  /** The client is on its way to media m, or through with it. */
  predicate Stays(cl: Client, id: int, m: nat) {
    match cl
    case Awaiting(wish, _, reply) => wish == WantsId(id) && (reply.None? || reply == Some(Some(m)))
    case Holding(_, _, k, _) => k == m
    case Streaming(k, _) => k == m
    case _ => true
  }

  /** As long as the call waits, no create is on its way for it. */
  ghost predicate Loyal(s: State, c: nat, id: int, m: nat) {
    && c < |s.clients| && Stays(s.clients[c], id, m)
    && (s.clients[c].Awaiting? ==> !Queued(s.queue, Create(c)) && s.handling != Some(Create(c)))
  }

  /** What is listed was listed before, unless it is new. */
  lemma ListedBefore(s: State, step: Step, id: int, m: nat)
    requires Enabled(s, step) && m < |s.medias| && Listed(Apply(s, step), id, m)
    ensures Listed(s, id, m)
  {
    var u := Move(s, step);
    assert !u.medias[m].destroyed;
    match step
    case Handle(outcome) => HandledListing(s, s.handling.value, outcome, id, m);
    case NewReader(c, notify, from, to, seek) =>
      CreateReaderShape(s.medias[s.clients[c].m], notify, from, to, seek);
    case _ =>
  }

  lemma HandledListing(s: State, msg: Msg, outcome: Outcome, id: int, m: nat)
    requires CanHandle(s, msg) && m < |s.medias| && Listed(HandleMsg(s, msg, outcome), id, m)
    ensures Listed(s, id, m)
  {
  }

  lemma PostStays(s: State, msg: Msg, delayUs: int, c: nat)
    requires !Queued(s.queue, Create(c)) && msg != Create(c)
    ensures !Queued(PostMsg(s, msg, delayUs).queue, Create(c))
  {
    var e := Event(DueTime(s.now, delayUs), msg);
    InsertElements(s.queue, e, Insert(s.queue, e));
  }

  lemma GetStays(s: State, d: nat, other: int, c: nat, id: int, m: nat)
    requires d < |s.clients| && Loyal(s, c, id, m) && Listed(s, id, m)
    requires d == c && s.clients[c].Awaiting? ==> other == id
    ensures Loyal(HandleGet(s, d, other), c, id, m)
  {
    if d == c && other == id {
      GetAnswers(s, d, other, m);
    } else if s.clients[c].Awaiting? {
      PostStays(s, Create(d), 0, c);
    }
  }

  lemma MessageStays(s: State, msg: Msg, outcome: Outcome, c: nat, id: int, m: nat)
    requires CanHandle(s, msg) && MessageMatches(s, msg) && Loyal(s, c, id, m) && Listed(s, id, m)
    requires s.clients[c].Awaiting? ==> msg != Create(c)
    ensures Loyal(HandleMsg(s, msg, outcome), c, id, m)
  {
    match msg
    case Get(d, other) => GetStays(s, d, other, c, id, m);
    case Create(_) =>
    case WatchDog(_) =>
  }

  lemma ClientStays(s: State, step: Step, c: nat, id: int, m: nat)
    requires Enabled(s, step) && Loyal(s, c, id, m)
    requires step.Receive? || step.Abort? || step.Query? || step.NewReader? || step.EndHandle? || step.DropReader?
    ensures Loyal(Move(s, step), c, id, m)
  {
  }

  lemma StepStays(s: State, step: Step, c: nat, id: int, m: nat)
    requires Enabled(s, step) && ClientsSuited(s) && Loyal(s, c, id, m) && Listed(s, id, m)
    ensures Loyal(Apply(s, step), c, id, m)
  {
    match step
    case Call(_) => NewMessageStays(s, step, c, id, m);
    case EndReader(_, _) => NewMessageStays(s, step, c, id, m);
    case Pop => assert s.queue[0] in s.queue;
    case Handle(outcome) => MessageStays(s, s.handling.value, outcome, c, id, m);
    case Receive(_) => ClientStays(s, step, c, id, m);
    case Abort(_) => ClientStays(s, step, c, id, m);
    case Query(_) => ClientStays(s, step, c, id, m);
    case NewReader(_, _, _, _, _) => ClientStays(s, step, c, id, m);
    case EndHandle(_) => ClientStays(s, step, c, id, m);
    case DropReader(_) => ClientStays(s, step, c, id, m);
    case _ =>
  }

  lemma NewMessageStays(s: State, step: Step, c: nat, id: int, m: nat)
    requires (step.Call? || step.EndReader?) && Enabled(s, step) && Loyal(s, c, id, m)
    ensures Loyal(Move(s, step), c, id, m)
  {
    if s.clients[c].Awaiting? {
      if step.Call? {
        PostStays(s, if step.wish.WantsId? then Get(|s.clients|, step.wish.id) else Create(|s.clients|), 0, c);
      } else {
        PostStays(s, WatchDog(step.m), s.medias[step.m].timeout * 1000, c);
      }
    }
  }

  lemma HandledMediasStay(s: State, msg: Msg, outcome: Outcome)
    requires CanHandle(s, msg)
    ensures |s.medias| <= |HandleMsg(s, msg, outcome).medias|
  {
  }

  lemma MediasStay(s: State, step: Step)
    requires Enabled(s, step)
    ensures |s.medias| <= |Apply(s, step).medias|
  {
    if step.Handle? {
      HandledMediasStay(s, s.handling.value, step.outcome);
    } else {
      NoNewMedia(s, step);
    }
  }

  lemma {:induction false} ListedThroughout(s: State, steps: seq<Step>, id: int, m: nat)
    requires Legal(s, steps) && m < |s.medias| && Listed(Exec(s, steps), id, m)
    ensures Listed(s, id, m)
    decreases |steps|
  {
    if steps != [] {
      MediasStay(s, steps[0]);
      ListedThroughout(Apply(s, steps[0]), steps[1..], id, m);
      ListedBefore(s, steps[0], id, m);
    }
  }

  lemma {:induction false} RunStays(s: State, steps: seq<Step>, c: nat, id: int, m: nat)
    requires Inv(s) && Legal(s, steps) && Loyal(s, c, id, m) && m < |s.medias| && Listed(Exec(s, steps), id, m)
    ensures Loyal(Exec(s, steps), c, id, m)
    decreases |steps|
  {
    if steps != [] {
      ListedThroughout(s, steps, id, m);
      StepKeeps(s, steps[0]);
      MediasStay(s, steps[0]);
      StepStays(s, steps[0], c, id, m);
      RunStays(Apply(s, steps[0]), steps[1..], c, id, m);
    }
  }

  lemma CallIsLoyal(s: State, id: int, m: nat)
    requires RefsFit(s) && s.looperAlive
    ensures Loyal(Apply(s, Call(WantsId(id))), |s.clients|, id, m)
  {
    var c := |s.clients|;
    var e := Event(s.now, Get(c, id));
    InsertElements(s.queue, e, Insert(s.queue, e));
  }

  /** A client calls with the id of a listed media. In whatever happens then, as long as the
      media stays listed, the call gets this media and no other, and is not answered with null. */
  lemma ReturningClient(s: State, id: int, m: nat, more: seq<Step>)
    requires Reachable(s) && s.looperAlive && Listed(s, id, m)
    requires var t := Apply(s, Call(WantsId(id))); Legal(t, more) && Listed(Exec(t, more), id, m)
    ensures var u := Exec(Apply(s, Call(WantsId(id))), more);
            |s.clients| < |u.clients| && Stays(u.clients[|s.clients|], id, m)
  {
    ReachableInv(s);
    CallIsLoyal(s, id, m);
    StepKeeps(s, Call(WantsId(id)));
    MediasStay(s, Call(WantsId(id)));
    RunStays(Apply(s, Call(WantsId(id))), more, |s.clients|, id, m);
  }

  // ---------- a watchdog ----------

  /** A watchdog closes its media and takes it off the list exactly if the media is idle and
      listed; otherwise it changes nothing for anybody. */
  lemma WatchDogExactly(s: State, outcome: Outcome, m: nat)
    requires Reachable(s) && s.handling == Some(WatchDog(m)) && Enabled(s, Handle(outcome))
    ensures var t := Apply(s, Handle(outcome));
            && m < |s.medias| == |t.medias| && LastReaderExists(s.medias[m])
            && t.queue == s.queue && t.clients == s.clients
            && if IsIdle(s.medias[m]) && s.medias[m].key in s.registry then
                 t.medias[m].closed && t.registry == s.registry - {s.medias[m].key}
               else
                 t.registry == s.registry && (s.medias[m].closed || t.medias[m] == s.medias[m])
  {
    ReachableInv(s);
    assert Good(s.medias[m]);
    var u := Move(s, Handle(outcome));
    if !IsIdle(s.medias[m]) {
      assert !s.medias[m].readers[s.medias[m].lastReader.value].phase.Gone?;
      assert HeldByReader(u.medias[m]);
    } else if s.medias[m].key in s.registry {
      assert u.medias[m].closed;
    }
  }
}
