/** `ALooper` as a transition system (src/aloop.cpp): one looper thread, one stopper,
    any number of posters, repliers and awaiters, and a clock that never goes back.
    A step is one critical section, one notify, or one unlocked read of mRun. */
module LooperProtocol {
  import opened Prelude
  import opened EventQueue

  type Msg = nat
  type Reply = nat

  // ---------- AReplyToken ----------

  datatype Token = Token(replied: bool, reply: Option<Reply>)

  const FRESH_TOKEN := Token(false, None)

  /** The C++ object behind a token; `View` is the value the protocol works on. */
  class AReplyToken {
    var mReply: Option<Reply>
    var mReplied: bool

    ghost function View(): Token
      reads this
    {
      Token(mReplied, mReply)
    }

    constructor ()
      ensures View() == FRESH_TOKEN
    {
      mReply := None;
      mReplied := false;
    }

    /** Hands the reply over once it is set; the token stays replied. */
    method RetrieveReply(old_reply: Option<Reply>) returns (ok: bool, reply: Option<Reply>)
      modifies this
      ensures ok == old(mReplied)
      ensures reply == if ok then old(mReply) else old_reply
      ensures View() == Taken(old(View()))
    {
      reply := old_reply;
      if mReplied {
        reply := mReply;
        mReply := None;
      }
      return mReplied, reply;
    }

    /** false is -EBUSY: a second reply never replaces the first. */
    method SetReply(reply: Reply) returns (ok: bool)
      requires !mReplied ==> mReply == None
      modifies this
      ensures ok == !old(mReplied)
      ensures View() == if ok then Token(true, Some(reply)) else old(View())
    {
      if mReplied {
        return false;
      }
      assert mReply == None;
      mReply := Some(reply);
      mReplied := true;
      return true;
    }
  }

  function Taken(t: Token): Token {
    if t.replied then t.(reply := None) else t
  }

  // ---------- states ----------

  datatype LooperPc =
    | NotStarted
    | CheckingRun                            // the unlocked `mRun &&` around loop()
    | EnteringLoop                           // about to take mLock in loop()
    | Parked(deadline: Option<int>)          // in wait / wait_until, not signalled
    | Woken                                  // signalled or timed out
    | Handling(event: Event<Msg>)
    | Exited

  datatype StopPc = NotStopping | RunCleared | QueueNotified | RepliesNotified | Joined

  datatype AwaitPc =
    | Entering                               // about to take mRepliesLock
    | SawNoReply                             // holds mRepliesLock, retrieveReply was false
    | SawRun                                 // holds mRepliesLock, mRun was true under mLock
    | Waiting                                // parked on mRepliesCondition, not signalled
    | Signalled
    | ReturnedOk(reply: Option<Reply>)
    | ReturnedNoEnt

  datatype Delivery = Delivery(event: Event<Msg>, at: int)
  datatype Attempt = Attempt(token: nat, reply: Reply, ok: bool)

  /** Awaiter i waits on token i, as `postAndAwaitResponse` makes a token per call.
      posts and attempts record history only. */
  datatype State = State(
    now: int,
    run: bool,
    queue: seq<Event<Msg>>,
    posts: seq<Event<Msg>>,
    delivered: seq<Delivery>,
    looper: LooperPc,
    stopper: StopPc,
    repliesLock: Option<nat>,
    tokens: seq<Token>,
    awaiters: seq<AwaitPc>,
    attempts: seq<Attempt>)

  function Init(now: int): State {
    State(now, false, [], [], [], NotStarted, NotStopping, None, [], [], [])
  }

  datatype Step =
    | Tick(elapsed: nat)
    | Start
    | Post(msg: Msg, delayUs: int)
    | ReadRun
    | LoopSection
    | Timeout
    | SpuriousWake
    | LeaveWait
    | FinishHandling
    | ClearRun
    | NotifyQueue
    | NotifyReplies
    | Join
    | NewAwaiter
    | RetrieveReply(a: nat)
    | CheckRun(a: nat)
    | WaitReply(a: nat)
    | SpuriousReply(a: nat)
    | PostReply(a: nat, reply: Reply)

  predicate Enabled(s: State, step: Step) {
    match step
    case Tick(_) => true
    case Start => s.looper.NotStarted?
    case Post(_, _) => true
    case ReadRun => s.looper.CheckingRun?
    case LoopSection => s.looper.EnteringLoop?
    case Timeout => s.looper.Parked? && s.looper.deadline.Some? && s.looper.deadline.value <= s.now
    case SpuriousWake => s.looper.Parked?
    case LeaveWait => s.looper.Woken?
    case FinishHandling => s.looper.Handling?
    case ClearRun => s.run
    case NotifyQueue => s.stopper.RunCleared?
    case NotifyReplies => s.stopper.QueueNotified? && s.repliesLock.None?
    case Join => s.stopper.RepliesNotified? && s.looper.Exited?
    case NewAwaiter => true
    case RetrieveReply(a) =>
      a < |s.awaiters| && a < |s.tokens| && s.repliesLock.None? && (s.awaiters[a].Entering? || s.awaiters[a].Signalled?)
    case CheckRun(a) => a < |s.awaiters| && s.awaiters[a].SawNoReply?
    case WaitReply(a) => a < |s.awaiters| && s.awaiters[a].SawRun?
    case SpuriousReply(a) => a < |s.awaiters| && s.awaiters[a].Waiting?
    case PostReply(a, _) => a < |s.tokens| && s.repliesLock.None?
  }

  function Wake(pc: LooperPc): LooperPc {
    if pc.Parked? then Woken else pc
  }

  function SignalAll(awaiters: seq<AwaitPc>): (r: seq<AwaitPc>)
    ensures |r| == |awaiters|
    ensures forall i | 0 <= i < |r| :: r[i] == if awaiters[i].Waiting? then Signalled else awaiters[i]
  {
    seq(|awaiters|, i requires 0 <= i < |awaiters| => if awaiters[i].Waiting? then Signalled else awaiters[i])
  }

  function Apply(s: State, step: Step): State
    requires Enabled(s, step)
  {
    match step
    case Tick(elapsed) => s.(now := s.now + elapsed)
    case Start => s.(run := true, looper := CheckingRun)
    case Post(msg, delayUs) =>
      var e := Event(DueTime(s.now, delayUs), msg);
      var notified := s.queue == [] || s.queue[0].when > e.when;
      s.(queue := Insert(s.queue, e),
         posts := s.posts + [e],
         looper := if notified then Wake(s.looper) else s.looper)
    case ReadRun => s.(looper := if s.run then EnteringLoop else Exited)
    case LoopSection =>
      (match Decide(s.run, s.queue, s.now)
       case Leave => s.(looper := Exited)
       case WaitForever => s.(looper := Parked(None))
       case WaitUntil(deadline) => s.(looper := Parked(Some(deadline)))
       case Deliver(event) =>
         s.(looper := Handling(event), queue := s.queue[1..], delivered := s.delivered + [Delivery(event, s.now)]))
    case Timeout => s.(looper := Woken)
    case SpuriousWake => s.(looper := Woken)
    case LeaveWait => s.(looper := CheckingRun)
    case FinishHandling => s.(looper := CheckingRun)
    case ClearRun => s.(run := false, stopper := RunCleared)
    case NotifyQueue => s.(looper := Wake(s.looper), stopper := QueueNotified)
    case NotifyReplies => s.(awaiters := SignalAll(s.awaiters), stopper := RepliesNotified)
    case Join => s.(stopper := Joined)
    case NewAwaiter => s.(tokens := s.tokens + [FRESH_TOKEN], awaiters := s.awaiters + [Entering])
    case RetrieveReply(a) =>
      if s.tokens[a].replied then
        s.(awaiters := s.awaiters[a := ReturnedOk(s.tokens[a].reply)], tokens := s.tokens[a := Taken(s.tokens[a])])
      else
        s.(awaiters := s.awaiters[a := SawNoReply], repliesLock := Some(a))
    case CheckRun(a) =>
      if s.run then s.(awaiters := s.awaiters[a := SawRun])
      else s.(awaiters := s.awaiters[a := ReturnedNoEnt], repliesLock := None)
    case WaitReply(a) => s.(awaiters := s.awaiters[a := Waiting], repliesLock := None)
    case SpuriousReply(a) => s.(awaiters := s.awaiters[a := Signalled])
    case PostReply(a, reply) =>
      var ok := !s.tokens[a].replied;
      var logged := s.(attempts := s.attempts + [Attempt(a, reply, ok)]);
      if ok then logged.(tokens := s.tokens[a := Token(true, Some(reply))], awaiters := SignalAll(s.awaiters))
      else logged
  }

  ghost predicate Legal(s: State, steps: seq<Step>)
    decreases |steps|
  {
    steps == [] || (Enabled(s, steps[0]) && Legal(Apply(s, steps[0]), steps[1..]))
  }

  ghost function Exec(s: State, steps: seq<Step>): State
    requires Legal(s, steps)
    decreases |steps|
  {
    if steps == [] then s else Exec(Apply(s, steps[0]), steps[1..])
  }

  // ---------- the queue side ----------

  function Events(ds: seq<Delivery>): seq<Event<Msg>> {
    seq(|ds|, i requires 0 <= i < |ds| => ds[i].event)
  }

  /** Delivered events, then the queue: the stable sort of every post in lock order. */
  ghost predicate GloballyOrdered(s: State) {
    IsStableSort(Events(s.delivered) + s.queue, s.posts)
  }

  ghost predicate NeverEarly(s: State) {
    forall i | 0 <= i < |s.delivered| :: s.delivered[i].event.when <= s.delivered[i].at <= s.now
  }

  function HeadDue(q: seq<Event<Msg>>): Option<int> {
    if q == [] then None else Some(q[0].when)
  }

  /** A parked, unsignalled looper sleeps exactly until the head is due, and has
      not missed the wake-up of `stop`. */
  ghost predicate NoOversleeping(s: State) {
    s.looper.Parked? ==>
      s.looper.deadline == HeadDue(s.queue) && (s.run || s.stopper.RunCleared?)
  }

  ghost predicate Phases(s: State) {
    && (s.looper.NotStarted? ==> !s.run && s.stopper.NotStopping?)
    && (s.run ==> s.stopper.NotStopping? && !s.looper.Exited?)
    && (s.stopper.NotStopping? && !s.looper.NotStarted? ==> s.run)
  }

  ghost predicate QueueInv(s: State) {
    Phases(s) && GloballyOrdered(s) && NeverEarly(s) && NoOversleeping(s)
  }

  lemma PostKeepsOrder(s: State, e: Event<Msg>)
    requires GloballyOrdered(s) && NeverEarly(s) && e.when >= s.now
    ensures IsStableSort(Events(s.delivered) + Insert(s.queue, e), s.posts + [e])
  {
    var done := Events(s.delivered);
    forall i | 0 <= i < |done|
      ensures done[i].when <= e.when
    {
      assert s.delivered[i].event.when <= s.now;
    }
    InsertAfterPrefix(done, s.queue, e);
    InsertKeepsStableSort(done + s.queue, s.posts, e);
  }

  lemma InsertHead(q: seq<Event<Msg>>, e: Event<Msg>)
    ensures Insert(q, e) != []
    ensures q != [] && q[0].when <= e.when ==> Insert(q, e)[0] == q[0]
  {
  }

  lemma QueueInvStep(s: State, step: Step)
    requires QueueInv(s) && Enabled(s, step)
    ensures QueueInv(Apply(s, step))
  {
    var t := Apply(s, step);
    match step
    case Post(msg, delayUs) =>
      var e := Event(DueTime(s.now, delayUs), msg);
      PostKeepsOrder(s, e);
      InsertHead(s.queue, e);
    case LoopSection =>
      if Decide(s.run, s.queue, s.now).Deliver? {
        assert Events(t.delivered) + t.queue == Events(s.delivered) + s.queue;
      }
    case _ =>
  }

  // ---------- the reply side ----------

  /** The first reply posted for token a. */
  function FirstReply(attempts: seq<Attempt>, a: nat): Option<Reply> {
    if attempts == [] then None
    else
      var n := |attempts| - 1;
      var earlier := FirstReply(attempts[..n], a);
      if earlier.Some? then earlier
      else if attempts[n].token == a then Some(attempts[n].reply)
      else None
  }

  ghost predicate HoldsLock(pc: AwaitPc) {
    pc.SawNoReply? || pc.SawRun?
  }

  /** No wake-up is lost: whoever waits has an unset token, and stop still has to
      notify him or has not begun. */
  ghost predicate NoLostWakeup(s: State) {
    forall a | 0 <= a < |s.awaiters| && s.awaiters[a].Waiting? ::
      a < |s.tokens| && !s.tokens[a].replied && (s.run || s.stopper.RunCleared? || s.stopper.QueueNotified?)
  }

  ghost predicate AboutToWait(s: State) {
    forall a | 0 <= a < |s.awaiters| && HoldsLock(s.awaiters[a]) ::
      && a < |s.tokens| && !s.tokens[a].replied && s.repliesLock == Some(a)
      && (s.awaiters[a].SawRun? ==> s.run || s.stopper.RunCleared? || s.stopper.QueueNotified?)
  }

  /** No earlier attempt is on the same token. */
  ghost predicate IsFirst(attempts: seq<Attempt>, i: nat)
    requires i < |attempts|
  {
    forall j | 0 <= j < i :: attempts[j].token != attempts[i].token
  }

  /** Exactly the first attempt on a token succeeds. */
  ghost predicate FirstReplyWins(attempts: seq<Attempt>) {
    forall i: nat | i < |attempts| :: attempts[i].ok <==> IsFirst(attempts, i)
  }

  ghost predicate RepliedExactly(tokens: seq<Token>, attempts: seq<Attempt>) {
    forall a | 0 <= a < |tokens| :: tokens[a].replied <==> FirstReply(attempts, a).Some?
  }

  /** OK comes with exactly the first reply, and an unclaimed reply stays available. */
  ghost predicate RightReply(s: State) {
    forall a | 0 <= a < |s.awaiters| && a < |s.tokens| ::
      if s.awaiters[a].ReturnedOk? then
        s.awaiters[a].reply == FirstReply(s.attempts, a) && s.awaiters[a].reply.Some?
      else
        s.tokens[a].replied ==> s.tokens[a].reply == FirstReply(s.attempts, a)
  }

  ghost predicate ReplyInv(s: State) {
    && |s.tokens| == |s.awaiters|
    && (forall i | 0 <= i < |s.attempts| :: s.attempts[i].token < |s.tokens|)
    && NoLostWakeup(s) && AboutToWait(s) && FirstReplyWins(s.attempts) && RepliedExactly(s.tokens, s.attempts)
    && RightReply(s) && LockHasHolder(s)
  }

  /** Between two steps only an awaiter can hold mRepliesLock. */
  ghost predicate LockHasHolder(s: State) {
    s.repliesLock.Some? ==> s.repliesLock.value < |s.awaiters| && HoldsLock(s.awaiters[s.repliesLock.value])
  }

  lemma FirstReplyNone(attempts: seq<Attempt>, a: nat)
    ensures FirstReply(attempts, a).None? <==> forall j | 0 <= j < |attempts| :: attempts[j].token != a
  {
    if attempts != [] {
      FirstReplyNone(attempts[..|attempts| - 1], a);
    }
  }

  lemma FirstReplySnoc(attempts: seq<Attempt>, last: Attempt, a: nat)
    ensures FirstReply(attempts + [last], a)
         == if FirstReply(attempts, a).Some? then FirstReply(attempts, a)
            else if last.token == a then Some(last.reply) else None
  {
    assert (attempts + [last])[..|attempts|] == attempts;
  }

  lemma NextAttempt(attempts: seq<Attempt>, last: Attempt)
    requires FirstReplyWins(attempts) && (last.ok <==> FirstReply(attempts, last.token).None?)
    ensures FirstReplyWins(attempts + [last])
  {
    var after := attempts + [last];
    FirstReplyNone(attempts, last.token);
    forall i: nat | i < |after|
      ensures after[i].ok <==> IsFirst(after, i)
    {
      if i < |attempts| {
        assert attempts[i].ok <==> IsFirst(attempts, i);
        assert forall j | 0 <= j <= i :: after[j] == attempts[j];
      } else {
        assert forall j | 0 <= j < |attempts| :: after[j] == attempts[j];
      }
    }
  }

  lemma PostReplyKeepsReplied(s: State, a: nat, reply: Reply)
    requires RepliedExactly(s.tokens, s.attempts) && Enabled(s, PostReply(a, reply))
    ensures var t := Apply(s, PostReply(a, reply)); RepliedExactly(t.tokens, t.attempts)
  {
    var t := Apply(s, PostReply(a, reply));
    forall b | 0 <= b < |t.tokens|
      ensures t.tokens[b].replied <==> FirstReply(t.attempts, b).Some?
    {
      FirstReplySnoc(s.attempts, t.attempts[|s.attempts|], b);
      assert s.tokens[b].replied <==> FirstReply(s.attempts, b).Some?;
    }
  }

  lemma PostReplyKeepsRight(s: State, a: nat, reply: Reply)
    requires RepliedExactly(s.tokens, s.attempts) && RightReply(s) && Enabled(s, PostReply(a, reply))
    ensures RightReply(Apply(s, PostReply(a, reply)))
  {
    var t := Apply(s, PostReply(a, reply));
    forall b | 0 <= b < |t.awaiters| && b < |t.tokens|
      ensures if t.awaiters[b].ReturnedOk? then
                t.awaiters[b].reply == FirstReply(t.attempts, b) && t.awaiters[b].reply.Some?
              else t.tokens[b].replied ==> t.tokens[b].reply == FirstReply(t.attempts, b)
    {
      FirstReplySnoc(s.attempts, t.attempts[|s.attempts|], b);
    }
  }

  lemma PostReplyKeepsWaits(s: State, a: nat, reply: Reply)
    requires |s.tokens| == |s.awaiters| && NoLostWakeup(s) && AboutToWait(s) && LockHasHolder(s)
    requires Enabled(s, PostReply(a, reply))
    ensures var t := Apply(s, PostReply(a, reply)); NoLostWakeup(t) && AboutToWait(t) && LockHasHolder(t)
  {
  }

  lemma PostReplyKeeps(s: State, a: nat, reply: Reply)
    requires ReplyInv(s) && Enabled(s, PostReply(a, reply))
    ensures ReplyInv(Apply(s, PostReply(a, reply)))
  {
    NextAttempt(s.attempts, Attempt(a, reply, !s.tokens[a].replied));
    PostReplyKeepsReplied(s, a, reply);
    PostReplyKeepsRight(s, a, reply);
    PostReplyKeepsWaits(s, a, reply);
  }

  lemma NewAwaiterKeepsWaits(s: State)
    requires |s.tokens| == |s.awaiters| && NoLostWakeup(s) && AboutToWait(s) && LockHasHolder(s)
    ensures var t := Apply(s, NewAwaiter); NoLostWakeup(t) && AboutToWait(t) && LockHasHolder(t)
  {
  }

  lemma NewAwaiterKeepsReplied(s: State)
    requires RepliedExactly(s.tokens, s.attempts)
    requires forall i | 0 <= i < |s.attempts| :: s.attempts[i].token < |s.tokens|
    ensures var t := Apply(s, NewAwaiter); RepliedExactly(t.tokens, t.attempts)
  {
    FirstReplyNone(s.attempts, |s.tokens|);
  }

  lemma NewAwaiterKeepsRight(s: State)
    requires |s.tokens| == |s.awaiters| && RightReply(s)
    ensures RightReply(Apply(s, NewAwaiter))
  {
  }

  lemma NewAwaiterKeeps(s: State)
    requires ReplyInv(s)
    ensures ReplyInv(Apply(s, NewAwaiter))
  {
    NewAwaiterKeepsWaits(s);
    NewAwaiterKeepsReplied(s);
    NewAwaiterKeepsRight(s);
  }

  lemma AwaiterKeeps(s: State, a: nat, step: Step)
    requires Phases(s) && ReplyInv(s) && Enabled(s, step)
    requires step in {RetrieveReply(a), CheckRun(a), WaitReply(a), SpuriousReply(a)}
    ensures ReplyInv(Apply(s, step))
  {
    var t := Apply(s, step);
    assert a < |s.awaiters|;
    assert forall b | 0 <= b < |s.awaiters| && b != a :: t.awaiters[b] == s.awaiters[b] && t.tokens[b] == s.tokens[b];
    assert t.tokens[a].replied == s.tokens[a].replied;
    assert RepliedExactly(t.tokens, t.attempts);
    assert RightReply(t);
    assert AboutToWait(t);
  }

  /** Steps of the others leave the reply side alone, but may move mRun and stop. */
  lemma OtherStepKeeps(s: State, t: State)
    requires Phases(s) && ReplyInv(s)
    requires t.tokens == s.tokens && t.attempts == s.attempts && t.repliesLock == s.repliesLock
    requires t.awaiters == s.awaiters || (s.repliesLock.None? && t.awaiters == SignalAll(s.awaiters))
    requires (s.repliesLock.None? && t.awaiters == SignalAll(s.awaiters)) ||
             ((s.run || s.stopper.RunCleared? || s.stopper.QueueNotified?) ==>
              (t.run || t.stopper.RunCleared? || t.stopper.QueueNotified?))
    ensures ReplyInv(t)
  {
  }

  lemma ReplyInvStep(s: State, step: Step)
    requires Phases(s) && ReplyInv(s) && Enabled(s, step)
    ensures ReplyInv(Apply(s, step))
  {
    match step
    case PostReply(a, reply) => PostReplyKeeps(s, a, reply);
    case NewAwaiter => NewAwaiterKeeps(s);
    case RetrieveReply(a) => AwaiterKeeps(s, a, step);
    case CheckRun(a) => AwaiterKeeps(s, a, step);
    case WaitReply(a) => AwaiterKeeps(s, a, step);
    case SpuriousReply(a) => AwaiterKeeps(s, a, step);
    case _ => OtherStepKeeps(s, Apply(s, step));
  }

  // ---------- whole runs ----------

  ghost predicate Inv(s: State) {
    QueueInv(s) && ReplyInv(s)
  }

  lemma {:induction false} InvExec(s: State, steps: seq<Step>)
    requires Inv(s) && Legal(s, steps)
    ensures Inv(Exec(s, steps))
    decreases |steps|
  {
    if steps != [] {
      QueueInvStep(s, steps[0]);
      ReplyInvStep(s, steps[0]);
      InvExec(Apply(s, steps[0]), steps[1..]);
    }
  }

  lemma InvRun(now: int, steps: seq<Step>)
    requires Legal(Init(now), steps)
    ensures Inv(Exec(Init(now), steps))
  {
    assert Events([]) + [] == [];
    InvExec(Init(now), steps);
  }

  /** Every run delivers in the stable order of the posts and never early. */
  lemma GlobalOrdering(now: int, steps: seq<Step>)
    requires Legal(Init(now), steps)
    ensures var s := Exec(Init(now), steps);
            && IsStableSort(Events(s.delivered) + s.queue, s.posts)
            && multiset(Events(s.delivered)) + multiset(s.queue) == multiset(s.posts)
            && forall i | 0 <= i < |s.delivered| :: s.delivered[i].event.when <= s.delivered[i].at
  {
    InvRun(now, steps);
    var s := Exec(Init(now), steps);
    StableSortIsPermutation(Events(s.delivered) + s.queue, s.posts);
  }

  /** In every run a sleeping looper wakes in time, and never sleeps through stop. */
  lemma NeverOversleeps(now: int, steps: seq<Step>)
    requires Legal(Init(now), steps)
    ensures var s := Exec(Init(now), steps);
            && (s.looper.Parked? ==> s.looper.deadline == HeadDue(s.queue))
            && (s.stopper.QueueNotified? || s.stopper.RepliesNotified? || s.stopper.Joined? ==> !s.looper.Parked?)
  {
    InvRun(now, steps);
  }

  /** In every run: nobody waits for a reply that is there or for a looper whose stop
      has notified; one reply per token; OK returns that reply. */
  lemma NoReplyIsLost(now: int, steps: seq<Step>, a: nat)
    requires Legal(Init(now), steps)
    requires a < |Exec(Init(now), steps).awaiters|
    ensures var s := Exec(Init(now), steps);
            && a < |s.tokens|
            && (s.awaiters[a].Waiting? ==>
                  && FirstReply(s.attempts, a).None?
                  && (s.run || s.stopper.RunCleared? || s.stopper.QueueNotified?))
            && (s.awaiters[a].ReturnedOk? ==>
                  s.awaiters[a].reply.Some? && s.awaiters[a].reply == FirstReply(s.attempts, a))
            && (forall i, j | 0 <= i < j < |s.attempts| && s.attempts[i].ok && s.attempts[j].ok ::
                  s.attempts[i].token != s.attempts[j].token)
  {
    InvRun(now, steps);
  }

  // ---------- progress ----------

  function LooperPlan(pc: LooperPc): seq<Step> {
    match pc
    case EnteringLoop => [LoopSection]
    case CheckingRun => [ReadRun, LoopSection]
    case Woken => [LeaveWait, ReadRun, LoopSection]
    case Handling(_) => [FinishHandling, ReadRun, LoopSection]
    case Parked(_) => [Timeout, LeaveWait, ReadRun, LoopSection]
    case _ => []
  }

  lemma LegalCons(s: State, first: Step, rest: seq<Step>)
    requires Enabled(s, first) && Legal(Apply(s, first), rest)
    ensures Legal(s, [first] + rest) && Exec(s, [first] + rest) == Exec(Apply(s, first), rest)
  {
    assert ([first] + rest)[1..] == rest;
  }

  /** At any reachable moment a due head is delivered by at most four steps of the
      looper itself, none of them a spurious wake-up. */
  lemma DueHeadIsDelivered(now: int, steps: seq<Step>)
    requires Legal(Init(now), steps)
    requires var s := Exec(Init(now), steps); s.run && s.queue != [] && s.queue[0].when <= s.now
    ensures var s := Exec(Init(now), steps);
            && Legal(s, LooperPlan(s.looper))
            && var t := Exec(s, LooperPlan(s.looper));
               t.delivered == s.delivered + [Delivery(s.queue[0], s.now)] && t.queue == s.queue[1..]
  {
    InvRun(now, steps);
    LooperDelivers(Exec(Init(now), steps));
  }

  lemma LooperDelivers(s: State)
    requires Inv(s) && s.run && s.queue != [] && s.queue[0].when <= s.now
    ensures && Legal(s, LooperPlan(s.looper))
            && var t := Exec(s, LooperPlan(s.looper));
               t.delivered == s.delivered + [Delivery(s.queue[0], s.now)] && t.queue == s.queue[1..]
    decreases |LooperPlan(s.looper)|
  {
    var plan := LooperPlan(s.looper);
    var t := Apply(s, plan[0]);
    if s.looper.EnteringLoop? {
      assert Legal(t, []);
      assert plan[1..] == [];
    } else {
      QueueInvStep(s, plan[0]);
      ReplyInvStep(s, plan[0]);
      assert plan[1..] == LooperPlan(t.looper);
      LooperDelivers(t);
      LegalCons(s, plan[0], plan[1..]);
      assert plan == [plan[0]] + plan[1..];
    }
  }

  /** What an awaiter does once it has mRepliesLock. */
  function Claim(s: State, a: nat): seq<Step> {
    if a < |s.tokens| && s.tokens[a].replied then [RetrieveReply(a)] else [RetrieveReply(a), CheckRun(a)]
  }

  /** The way out of an awaiter: whoever holds the lock lets go first. */
  function WayOut(s: State, a: nat): (plan: seq<Step>)
    ensures |plan| <= 3
  {
    match s.repliesLock
    case None => Claim(s, a)
    case Some(h) => if h == a then [CheckRun(a)] else [CheckRun(h)] + Claim(s, a)
  }

  function Verdict(s: State, a: nat): AwaitPc {
    match FirstReply(s.attempts, a)
    case Some(reply) => ReturnedOk(Some(reply))
    case None => ReturnedNoEnt
  }

  ghost predicate Stopped(s: State) {
    !s.run && (s.stopper.RepliesNotified? || s.stopper.Joined?)
  }

  ghost predicate StillAwaits(s: State, a: nat) {
    a < |s.awaiters| && !s.awaiters[a].ReturnedOk? && !s.awaiters[a].ReturnedNoEnt?
  }

  /** The plan ends with the awaiter's right return. */
  ghost predicate Leaves(s: State, a: nat, plan: seq<Step>) {
    Legal(s, plan) && a < |Exec(s, plan).awaiters| && Exec(s, plan).awaiters[a] == Verdict(s, a)
  }

  lemma LeavesBy(s: State, a: nat, step: Step, rest: seq<Step>)
    requires Enabled(s, step) && Apply(s, step).attempts == s.attempts && Leaves(Apply(s, step), a, rest)
    ensures Leaves(s, a, [step] + rest)
  {
    LegalCons(s, step, rest);
  }

  lemma LeavesNow(s: State, a: nat, step: Step)
    requires Enabled(s, step) && a < |Apply(s, step).awaiters| && Apply(s, step).awaiters[a] == Verdict(s, a)
    ensures Leaves(s, a, [step])
  {
    assert Legal(Apply(s, step), []);
    LegalCons(s, step, []);
    assert [step] + [] == [step];
  }

  lemma FreeAwaiterLeaves(s: State, a: nat)
    requires ReplyInv(s) && Stopped(s) && StillAwaits(s, a) && s.repliesLock.None?
    ensures Leaves(s, a, Claim(s, a))
  {
    assert !HoldsLock(s.awaiters[a]);
    if s.tokens[a].replied {
      LeavesNow(s, a, RetrieveReply(a));
    } else {
      var t := Apply(s, RetrieveReply(a));
      assert t.awaiters[a].SawNoReply? && t.attempts == s.attempts && !t.run;
      LeavesNow(t, a, CheckRun(a));
      LeavesBy(s, a, RetrieveReply(a), [CheckRun(a)]);
      assert [RetrieveReply(a)] + [CheckRun(a)] == [RetrieveReply(a), CheckRun(a)];
    }
  }

  /** The holder of the lock has seen no reply, so it leaves with -ENOENT and frees the lock. */
  lemma HolderLeaves(s: State, h: nat)
    requires ReplyInv(s) && Stopped(s) && s.repliesLock == Some(h)
    ensures h < |s.awaiters| && Enabled(s, CheckRun(h)) && Verdict(s, h) == ReturnedNoEnt
    ensures Apply(s, CheckRun(h)) == s.(awaiters := s.awaiters[h := ReturnedNoEnt], repliesLock := None)
  {
    assert HoldsLock(s.awaiters[h]);
  }

  lemma AwaiterLeaves(s: State, a: nat)
    requires Inv(s) && Stopped(s) && StillAwaits(s, a)
    ensures Leaves(s, a, WayOut(s, a))
  {
    match s.repliesLock
    case None => FreeAwaiterLeaves(s, a);
    case Some(h) =>
      HolderLeaves(s, h);
      if h == a {
        LeavesNow(s, a, CheckRun(a));
      } else {
        var t := Apply(s, CheckRun(h));
        ReplyInvStep(s, CheckRun(h));
        assert t.awaiters[a] == s.awaiters[a];
        FreeAwaiterLeaves(t, a);
        LeavesBy(s, a, CheckRun(h), Claim(t, a));
      }
  }

  /** Once stop has notified, every awaiter is at most three steps of awaiters from its
      return: with its reply if there is one, with -ENOENT otherwise. */
  lemma StoppedAwaiterReturns(now: int, steps: seq<Step>, a: nat)
    requires Legal(Init(now), steps)
    requires var s := Exec(Init(now), steps); (s.stopper.RepliesNotified? || s.stopper.Joined?) && StillAwaits(s, a)
    ensures var s := Exec(Init(now), steps); a < |s.tokens| && Leaves(s, a, WayOut(s, a))
  {
    InvRun(now, steps);
    AwaiterLeaves(Exec(Init(now), steps), a);
  }
}
