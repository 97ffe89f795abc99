/** What the threads of `ALooper` (src/aloop.cpp) can count on, in every run: when an awaiter
    returns and with what, that it waits as long as the looper runs, how long a message is held
    back, and that nothing is delivered once stop has begun. */
module LooperProgress {
  import opened Prelude
  import opened EventQueue
  import opened LooperProtocol

  // ---------- when an awaiter returns ----------

  /** An awaiter returns in exactly two ways: with the token's reply, or with -ENOENT because
      mRun is false. No step takes a return back. */
  lemma ReturnsExactly(now: int, steps: seq<Step>, step: Step, a: nat)
    requires Legal(Init(now), steps) && Enabled(Exec(Init(now), steps), step)
    requires a < |Exec(Init(now), steps).awaiters|
    ensures var s := Exec(Init(now), steps);
            var t := Apply(s, step);
            && a < |t.awaiters|
            && (StillAwaits(s, a) ==>
                  && (t.awaiters[a].ReturnedNoEnt? <==> step == CheckRun(a) && !s.run)
                  && (t.awaiters[a].ReturnedOk? <==> step == RetrieveReply(a) && FirstReply(s.attempts, a).Some?)
                  && (t.awaiters[a].ReturnedOk? ==>
                        t.awaiters[a].reply == FirstReply(s.attempts, a) && t.tokens[a].reply.None?))
            && (!StillAwaits(s, a) ==> t.awaiters[a] == s.awaiters[a])
  {
    InvRun(now, steps);
    StepReturns(Exec(Init(now), steps), step, a);
  }

  lemma StepReturns(s: State, step: Step, a: nat)
    requires ReplyInv(s) && Enabled(s, step) && a < |s.awaiters|
    ensures var t := Apply(s, step);
            && a < |t.awaiters|
            && (StillAwaits(s, a) ==>
                  && (t.awaiters[a].ReturnedNoEnt? <==> step == CheckRun(a) && !s.run)
                  && (t.awaiters[a].ReturnedOk? <==> step == RetrieveReply(a) && FirstReply(s.attempts, a).Some?)
                  && (t.awaiters[a].ReturnedOk? ==>
                        t.awaiters[a].reply == FirstReply(s.attempts, a) && t.tokens[a].reply.None?))
            && (!StillAwaits(s, a) ==> t.awaiters[a] == s.awaiters[a])
  {
  }

  // ---------- an awaiter of a running looper ----------

  /** The holder of mRepliesLock goes to wait, which frees the lock. */
  function Release(s: State): seq<Step> {
    match s.repliesLock
    case None => []
    case Some(h) => if h < |s.awaiters| && s.awaiters[h].SawRun? then [WaitReply(h)] else [CheckRun(h), WaitReply(h)]
  }

  /** The awaiter goes to wait, unless it does already or did so just now. */
  function Settle(s: State, a: nat): seq<Step> {
    if s.repliesLock == Some(a) || (a < |s.awaiters| && s.awaiters[a].Waiting?) then []
    else [RetrieveReply(a), CheckRun(a), WaitReply(a)]
  }

  ghost predicate Leads(s: State, plan: seq<Step>, t: State) {
    Legal(s, plan) && Exec(s, plan) == t
  }

  lemma LeadsNowhere(s: State)
    ensures Leads(s, [], s)
  {
  }

  lemma {:induction false} LeadsBy(s: State, first: Step, rest: seq<Step>, t: State)
    requires Enabled(s, first) && Leads(Apply(s, first), rest, t)
    ensures Leads(s, [first] + rest, t)
  {
    LegalCons(s, first, rest);
  }

  lemma {:induction false} LeadsOn(s: State, a: seq<Step>, t: State, b: seq<Step>, u: State)
    requires Leads(s, a, t) && Leads(t, b, u)
    ensures Leads(s, a + b, u)
    decreases |a|
  {
    if a == [] {
      assert a + b == b;
    } else {
      assert (a + b)[1..] == a[1..] + b;
      LeadsOn(Apply(s, a[0]), a[1..], t, b, u);
    }
  }

  lemma LeadsOne(s: State, step: Step)
    requires Enabled(s, step)
    ensures Leads(s, [step], Apply(s, step))
  {
    LeadsNowhere(Apply(s, step));
    LeadsBy(s, step, [], Apply(s, step));
    assert [step] + [] == [step];
  }

  lemma LeadsTwo(s: State, first: Step, second: Step)
    requires Enabled(s, first) && Enabled(Apply(s, first), second)
    ensures Leads(s, [first, second], Apply(Apply(s, first), second))
  {
    LeadsOne(Apply(s, first), second);
    LeadsBy(s, first, [second], Apply(Apply(s, first), second));
    assert [first] + [second] == [first, second];
  }

  /** Apart from the lock and the holder's own place nothing changes. */
  ghost predicate Released(s: State, t: State) {
    t == match s.repliesLock
         case None => s
         case Some(h) => if h < |s.awaiters| then s.(repliesLock := None, awaiters := s.awaiters[h := Waiting]) else s
  }

  lemma LockIsReleased(s: State) returns (t: State)
    requires ReplyInv(s) && s.run
    ensures Leads(s, Release(s), t) && Released(s, t) && t.repliesLock.None?
  {
    t := s;
    LeadsNowhere(s);
    if s.repliesLock.Some? {
      var h := s.repliesLock.value;
      assert HoldsLock(s.awaiters[h]);
      if s.awaiters[h].SawRun? {
        LeadsOne(s, WaitReply(h));
        t := Apply(s, WaitReply(h));
      } else {
        LeadsTwo(s, CheckRun(h), WaitReply(h));
        t := Apply(Apply(s, CheckRun(h)), WaitReply(h));
        assert s.awaiters[h := SawRun][h := Waiting] == s.awaiters[h := Waiting];
      }
    }
  }

  lemma FreeAwaiterWaits(s: State, a: nat) returns (t: State)
    requires s.run && s.repliesLock.None? && a < |s.awaiters| == |s.tokens| && !s.tokens[a].replied
    requires s.awaiters[a].Entering? || s.awaiters[a].Signalled?
    ensures Leads(s, [RetrieveReply(a), CheckRun(a), WaitReply(a)], t)
    ensures t == s.(awaiters := s.awaiters[a := Waiting])
  {
    var u := Apply(s, RetrieveReply(a));
    t := Apply(Apply(u, CheckRun(a)), WaitReply(a));
    LeadsTwo(u, CheckRun(a), WaitReply(a));
    LeadsBy(s, RetrieveReply(a), [CheckRun(a), WaitReply(a)], t);
    assert [RetrieveReply(a)] + [CheckRun(a), WaitReply(a)] == [RetrieveReply(a), CheckRun(a), WaitReply(a)];
    assert s.awaiters[a := SawNoReply][a := SawRun][a := Waiting] == s.awaiters[a := Waiting];
  }

  /** What the awaiter does while there is no reply. */
  function ToWait(s: State, a: nat): (plan: seq<Step>)
    ensures |plan| <= 5
  {
    Release(s) + Settle(s, a)
  }

  lemma AwaiterWaits(s: State, a: nat) returns (t: State)
    requires ReplyInv(s) && s.run && StillAwaits(s, a) && FirstReply(s.attempts, a).None?
    ensures Leads(s, ToWait(s, a), t)
    ensures t == s.(repliesLock := None, awaiters := t.awaiters)
    ensures |t.awaiters| == |s.awaiters| && t.awaiters[a].Waiting?
  {
    var u := LockIsReleased(s);
    if Settle(s, a) == [] {
      t := u;
      assert Release(s) + [] == Release(s);
    } else {
      assert s.awaiters[a] == u.awaiters[a] && !HoldsLock(s.awaiters[a]);
      t := FreeAwaiterWaits(u, a);
      LeadsOn(s, Release(s), u, Settle(s, a), t);
    }
  }

  lemma WaiterIsServed(s: State, a: nat, reply: Reply) returns (t: State)
    requires s.repliesLock.None? && a < |s.awaiters| == |s.tokens| && !s.tokens[a].replied && s.awaiters[a].Waiting?
    ensures Leads(s, [PostReply(a, reply), RetrieveReply(a)], t) && a < |t.awaiters|
    ensures t.awaiters[a] == ReturnedOk(Some(reply))
  {
    LeadsTwo(s, PostReply(a, reply), RetrieveReply(a));
    t := Apply(Apply(s, PostReply(a, reply)), RetrieveReply(a));
  }

  /** From any reachable state of a running looper: an awaiter without a reply is at most five
      steps of awaiters from waiting, whoever holds the lock; and a reply posted then brings it
      back with exactly that reply. */
  lemma RunningAwaiterWaits(now: int, steps: seq<Step>, a: nat, reply: Reply)
    requires Legal(Init(now), steps)
    requires var s := Exec(Init(now), steps); s.run && StillAwaits(s, a) && FirstReply(s.attempts, a).None?
    ensures var s := Exec(Init(now), steps);
            && Legal(s, ToWait(s, a)) && a < |Exec(s, ToWait(s, a)).awaiters|
            && Exec(s, ToWait(s, a)).awaiters[a].Waiting? && Exec(s, ToWait(s, a)).run
            && var plan := ToWait(s, a) + [PostReply(a, reply), RetrieveReply(a)];
               Legal(s, plan) && a < |Exec(s, plan).awaiters| && Exec(s, plan).awaiters[a] == ReturnedOk(Some(reply))
  {
    InvRun(now, steps);
    var s := Exec(Init(now), steps);
    var t := AwaiterWaits(s, a);
    var u := WaiterIsServed(t, a, reply);
    LeadsOn(s, ToWait(s, a), t, [PostReply(a, reply), RetrieveReply(a)], u);
  }

  /** A reply that is there is fetched by the awaiter's own next step, once the lock is free. */
  lemma ReplyIsFetched(now: int, steps: seq<Step>, a: nat)
    requires Legal(Init(now), steps)
    requires var s := Exec(Init(now), steps); s.run && StillAwaits(s, a) && FirstReply(s.attempts, a).Some?
    ensures var s := Exec(Init(now), steps);
            var plan := Release(s) + [RetrieveReply(a)];
            && Legal(s, plan) && a < |Exec(s, plan).awaiters|
            && Exec(s, plan).awaiters[a] == ReturnedOk(FirstReply(s.attempts, a))
  {
    InvRun(now, steps);
    var s := Exec(Init(now), steps);
    assert s.tokens[a].replied && !HoldsLock(s.awaiters[a]) && !s.awaiters[a].Waiting?;
    var t := LockIsReleased(s);
    assert t.awaiters[a] == s.awaiters[a];
    LeadsOne(t, RetrieveReply(a));
    LeadsOn(s, Release(s), t, [RetrieveReply(a)], Apply(t, RetrieveReply(a)));
  }

  // ---------- posts and deliveries ----------

  /** A post is due at the later of now and now plus its delay, and it wakes a parked looper
      exactly if the time the looper has to get up changes. */
  lemma PostIsDue(now: int, steps: seq<Step>, msg: Msg, delayUs: int)
    requires Legal(Init(now), steps)
    ensures var s := Exec(Init(now), steps);
            var posts := Apply(s, Post(msg, delayUs)).posts;
            && |posts| == |s.posts| + 1 && posts[..|s.posts|] == s.posts && posts[|s.posts|].msg == msg
            && posts[|s.posts|].when == if delayUs > 0 then s.now + delayUs else s.now
    ensures var s := Exec(Init(now), steps);
            var t := Apply(s, Post(msg, delayUs));
            s.looper.Parked? ==> (t.looper.Woken? <==> HeadDue(t.queue) != HeadDue(s.queue))
  {
    var s := Exec(Init(now), steps);
    InsertHead(s.queue, Event(DueTime(s.now, delayUs), msg));
  }

  /** Once stop has cleared mRun, nothing more is delivered and nothing is taken from the queue. */
  lemma {:induction false} StoppedDeliversNothing(s: State, more: seq<Step>)
    requires Inv(s) && !s.run && !s.looper.NotStarted? && Legal(s, more)
    ensures var t := Exec(s, more);
            && t.delivered == s.delivered && !t.run
            && (forall e | e in s.queue :: e in t.queue)
    decreases |more|
  {
    if more != [] {
      var t := Apply(s, more[0]);
      QueueInvStep(s, more[0]);
      ReplyInvStep(s, more[0]);
      StoppedStep(s, more[0]);
      StoppedDeliversNothing(t, more[1..]);
    }
  }

  lemma StoppedStep(s: State, step: Step)
    requires Enabled(s, step) && !s.run && !s.looper.NotStarted?
    ensures var t := Apply(s, step);
            && t.delivered == s.delivered && !t.run && !t.looper.NotStarted?
            && (forall e | e in s.queue :: e in t.queue)
  {
    if step.Post? {
      var e := Event(DueTime(s.now, step.delayUs), step.msg);
      InsertElements(s.queue, e, Insert(s.queue, e));
    }
  }

  lemma NothingAfterStop(now: int, steps: seq<Step>, more: seq<Step>)
    requires Legal(Init(now), steps)
    requires var s := Exec(Init(now), steps); !s.run && !s.looper.NotStarted? && Legal(s, more)
    ensures Exec(Exec(Init(now), steps), more).delivered == Exec(Init(now), steps).delivered
  {
    InvRun(now, steps);
    StoppedDeliversNothing(Exec(Init(now), steps), more);
  }

  /** The way of the looper thread out of its loop. */
  function ExitPlan(pc: LooperPc): seq<Step> {
    match pc
    case CheckingRun => [ReadRun]
    case EnteringLoop => [LoopSection]
    case Woken => [LeaveWait, ReadRun]
    case Handling(_) => [FinishHandling, ReadRun]
    case _ => []
  }

  lemma LooperExits(s: State) returns (t: State)
    requires QueueInv(s) && !s.run && !s.stopper.NotStopping? && !s.stopper.RunCleared?
    ensures Leads(s, ExitPlan(s.looper), t) && t == s.(looper := Exited)
  {
    match s.looper
    case CheckingRun =>
      LeadsOne(s, ReadRun);
      t := Apply(s, ReadRun);
    case EnteringLoop =>
      LeadsOne(s, LoopSection);
      t := Apply(s, LoopSection);
    case Woken =>
      LeadsTwo(s, LeaveWait, ReadRun);
      t := Apply(Apply(s, LeaveWait), ReadRun);
    case Handling(_) =>
      LeadsTwo(s, FinishHandling, ReadRun);
      t := Apply(Apply(s, FinishHandling), ReadRun);
    case _ =>
      LeadsNowhere(s);
      t := s;
  }

  lemma LooperJoins(s: State) returns (t: State)
    requires QueueInv(s) && !s.run && s.stopper.RepliesNotified?
    ensures Leads(s, ExitPlan(s.looper) + [Join], t) && t.stopper.Joined? && t.delivered == s.delivered
  {
    var u := LooperExits(s);
    LeadsOne(u, Join);
    LeadsOn(s, ExitPlan(s.looper), u, [Join], Apply(u, Join));
    t := Apply(u, Join);
  }

  /** The holder of mRepliesLock lets go: it returns, or goes to wait. */
  function LetGo(s: State): seq<Step> {
    match s.repliesLock
    case None => []
    case Some(h) => if h < |s.awaiters| && s.awaiters[h].SawRun? then [WaitReply(h)] else [CheckRun(h)]
  }

  lemma LockIsLetGo(s: State) returns (t: State)
    requires ReplyInv(s) && !s.run
    ensures Leads(s, LetGo(s), t) && t.repliesLock.None? && t == s.(repliesLock := None, awaiters := t.awaiters)
  {
    t := s;
    LeadsNowhere(s);
    if s.repliesLock.Some? {
      var h := s.repliesLock.value;
      assert HoldsLock(s.awaiters[h]);
      var step := if s.awaiters[h].SawRun? then WaitReply(h) else CheckRun(h);
      LeadsOne(s, step);
      t := Apply(s, step);
    }
  }

  /** What is left of stop, once it has cleared mRun. */
  function StopPlan(s: State): seq<Step> {
    match s.stopper
    case RunCleared => [NotifyQueue] + (LetGo(s) + ([NotifyReplies] + (ExitPlan(Wake(s.looper)) + [Join])))
    case QueueNotified => LetGo(s) + ([NotifyReplies] + (ExitPlan(s.looper) + [Join]))
    case RepliesNotified => ExitPlan(s.looper) + [Join]
    case _ => []
  }

  lemma NotifiedStopReturns(s: State) returns (t: State)
    requires Inv(s) && s.stopper.QueueNotified?
    ensures Leads(s, StopPlan(s), t) && t.stopper.Joined? && t.delivered == s.delivered
  {
    var u := LockIsLetGo(s);
    var v := Apply(u, NotifyReplies);
    LeadsOne(u, NotifyReplies);
    t := LooperJoins(v);
    LeadsOn(u, [NotifyReplies], v, ExitPlan(s.looper) + [Join], t);
    LeadsOn(s, LetGo(s), u, [NotifyReplies] + (ExitPlan(s.looper) + [Join]), t);
  }

  lemma ClearedStopReturns(s: State) returns (t: State)
    requires Inv(s) && s.stopper.RunCleared?
    ensures Leads(s, StopPlan(s), t) && t.stopper.Joined? && t.delivered == s.delivered
  {
    var u := Apply(s, NotifyQueue);
    QueueInvStep(s, NotifyQueue);
    ReplyInvStep(s, NotifyQueue);
    LeadsOne(s, NotifyQueue);
    t := NotifiedStopReturns(u);
    LeadsOn(s, [NotifyQueue], u, StopPlan(u), t);
  }

  /** Once stop has cleared mRun, it returns by a plan of at most six steps: its own, one of an
      awaiter that holds the lock, and two of the looper thread, which delivers nothing more. */
  lemma StopReturns(now: int, steps: seq<Step>)
    requires Legal(Init(now), steps)
    requires var pc := Exec(Init(now), steps).stopper; pc.RunCleared? || pc.QueueNotified? || pc.RepliesNotified?
    ensures var s := Exec(Init(now), steps);
            && |StopPlan(s)| <= 6 && Legal(s, StopPlan(s)) && Exec(s, StopPlan(s)).stopper.Joined?
            && Exec(s, StopPlan(s)).delivered == s.delivered
  {
    InvRun(now, steps);
    var s := Exec(Init(now), steps);
    var t;
    match s.stopper
    case RunCleared => t := ClearedStopReturns(s);
    case QueueNotified => t := NotifiedStopReturns(s);
    case _ => t := LooperJoins(s);
  }

  // ---------- what the looper does when it looks at its queue ----------

  /** With mRun set, the looper thread takes the head if it is due, and otherwise sleeps until it
      is, or without limit if there is none; nothing else changes. */
  lemma LooksAtQueue(now: int, steps: seq<Step>)
    requires Legal(Init(now), steps)
    requires var s := Exec(Init(now), steps); s.run && s.looper.EnteringLoop?
    ensures var s := Exec(Init(now), steps);
            var t := Apply(s, LoopSection);
            if s.queue != [] && s.queue[0].when <= s.now then
              t == s.(looper := Handling(s.queue[0]), queue := s.queue[1..],
                      delivered := s.delivered + [Delivery(s.queue[0], s.now)])
            else
              t == s.(looper := Parked(HeadDue(s.queue)))
  {
  }
}
