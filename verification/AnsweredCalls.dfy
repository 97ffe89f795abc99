/** A request that waits for its media is answered by a bounded number of rounds of the looper. */
module AnsweredCalls {
  import opened EventQueue
  import opened MediaModel
  import opened Sessions
  import opened SessionTheorems

  predicate Waits(s: State, c: nat) {
    c < |s.clients| && s.clients[c].Awaiting? && s.clients[c].reply.None?
  }

  /** Everything queued is due. */
  ghost predicate AllDue(s: State) {
    forall e | e in s.queue :: e.when <= s.now
  }

  /** How many rounds a queue is good for: a get may still become a create. */
  function Work(q: seq<Event<Msg>>): (n: nat)
    ensures |q| <= n <= 2 * |q|
  {
    if q == [] then 0 else (if q[0].msg.Get? then 2 else 1) + Work(q[1..])
  }

  lemma {:induction false} WorkSnoc(q: seq<Event<Msg>>, e: Event<Msg>)
    ensures Work(q + [e]) == Work(q) + if e.msg.Get? then 2 else 1
  {
    if q == [] {
      assert q + [e] == [e];
    } else {
      assert (q + [e])[1..] == q[1..] + [e];
      WorkSnoc(q[1..], e);
    }
  }

  /** Behind due events an event that is due now goes to the end. */
  lemma {:induction false} InsertLast(q: seq<Event<Msg>>, e: Event<Msg>)
    requires forall x | x in q :: x.when <= e.when
    ensures Insert(q, e) == q + [e]
  {
    if q == [] {
    } else {
      assert q[0] in q;
      InsertLast(q[1..], e);
      assert q == [q[0]] + q[1..];
    }
  }

  // ---------- plans ----------

  ghost predicate Leads(s: State, plan: seq<Step>, t: State) {
    Legal(s, plan) && Exec(s, plan) == t
  }

  lemma LeadsOne(s: State, step: Step)
    requires Enabled(s, step)
    ensures Leads(s, [step], Apply(s, step))
  {
    assert [step][1..] == [];
    assert Legal(Apply(s, step), []);
  }

  lemma {:induction false} LeadsOn(s: State, a: seq<Step>, t: State, b: seq<Step>, u: State)
    requires Leads(s, a, t) && Leads(t, b, u)
    ensures Leads(s, a + b, u)
    decreases |a|
  {
    if a == [] {
      assert a + b == b;
    } else {
      assert (a + b)[1..] == a[1..] + b;
      LeadsOn(Apply(s, a[0]), a[1..], t, b, u);
    }
  }

  // ---------- one message ----------

  /** What handling a message leaves in the queue. */
  function Remains(q: seq<Event<Msg>>, msg: Msg, now: int, again: bool): seq<Event<Msg>> {
    if msg.Get? && again then q + [Event(now, Create(msg.c))] else q
  }

  /** The looper's state after a message: the calls are the same, maybe with one more reply. */
  ghost predicate Went(s: State, t: State) {
    && t.now == s.now && t.run == s.run && |t.clients| == |s.clients|
    && forall c | 0 <= c < |s.clients| && s.clients[c].Awaiting? :: t.clients[c].Awaiting?
  }

  lemma GetGoes(s: State, c: nat, id: int) returns (again: bool)
    requires c < |s.clients| && AllDue(s)
    ensures Went(s, HandleGet(s, c, id))
    ensures HandleGet(s, c, id).queue == Remains(s.queue, Get(c, id), s.now, again)
  {
    again := Live(s, id).None? && s.looperAlive;
    InsertLast(s.queue, Event(s.now, Create(c)));
  }

  lemma MessageGoes(s: State, msg: Msg, outcome: Outcome) returns (again: bool)
    requires CanHandle(s, msg) && AllDue(s)
    ensures Went(s, HandleMsg(s, msg, outcome))
    ensures HandleMsg(s, msg, outcome).queue == Remains(s.queue, msg, s.now, again)
  {
    again := false;
    if msg.Get? {
      again := GetGoes(s, msg.c, msg.id);
    }
  }

  lemma CanHandleAny(s: State)
    requires Inv(s) && s.handling.Some?
    ensures CanHandle(s, s.handling.value)
  {
    if s.handling.value.WatchDog? {
      assert Good(s.medias[s.handling.value.m]);
    }
  }

  /** A looper with everything due, in some run. */
  ghost predicate Ready(s: State) {
    Inv(s) && s.run && AllDue(s)
  }

  lemma HandleStep(s: State, outcome: Outcome, c: nat) returns (t: State)
    requires Ready(s) && s.handling.Some? && Waits(s, c)
    ensures Leads(s, [Handle(outcome)], t) && Ready(t) && t.handling.None?
    ensures Work(t.queue) <= Work(s.queue) + if s.handling.value.Get? then 1 else 0
    ensures c < |t.clients| && t.clients[c].Awaiting?
  {
    CanHandleAny(s);
    var again := MessageGoes(s, s.handling.value, outcome);
    t := Apply(s, Handle(outcome));
    LeadsOne(s, Handle(outcome));
    StepKeeps(s, Handle(outcome));
    if s.handling.value.Get? {
      WorkSnoc(s.queue, Event(s.now, Create(s.handling.value.c)));
    }
  }

  lemma PopStep(s: State, c: nat) returns (t: State)
    requires Ready(s) && s.handling.None? && Waits(s, c)
    ensures Leads(s, [Pop], t) && Ready(t) && t.handling.Some? && Waits(t, c)
    ensures Work(s.queue) == Work(t.queue) + if t.handling.value.Get? then 2 else 1
  {
    assert Pending(s, c, false) == 1;
    assert s.queue[0] in s.queue;
    t := Apply(s, Pop);
    LeadsOne(s, Pop);
    StepKeeps(s, Pop);
  }

  // ---------- rounds ----------

  /** n rounds of the looper; outcomes is what the factory and the user's open answer. */
  function Rounds(outcomes: nat -> Outcome, i: nat, n: nat): seq<Step>
    decreases n
  {
    if n == 0 then [] else [Pop, Handle(outcomes(i))] + Rounds(outcomes, i + 1, n - 1)
  }

  lemma OneRound(s: State, outcome: Outcome, c: nat) returns (t: State)
    requires Ready(s) && s.handling.None? && Waits(s, c)
    ensures Leads(s, [Pop, Handle(outcome)], t) && Ready(t) && t.handling.None?
    ensures Work(t.queue) < Work(s.queue) && c < |t.clients| && t.clients[c].Awaiting?
  {
    var u := PopStep(s, c);
    t := HandleStep(u, outcome, c);
    LeadsOn(s, [Pop], u, [Handle(outcome)], t);
    assert [Pop] + [Handle(outcome)] == [Pop, Handle(outcome)];
  }

  ghost predicate Answers(s: State, plan: seq<Step>, c: nat) {
    && Legal(s, plan)
    && var t := Exec(s, plan); c < |t.clients| && t.clients[c].Awaiting? && t.clients[c].reply.Some?
  }

  lemma AnswersAfter(s: State, a: seq<Step>, t: State, b: seq<Step>, c: nat)
    requires Leads(s, a, t) && Answers(t, b, c)
    ensures Answers(s, a + b, c)
  {
    LeadsOn(s, a, t, b, Exec(t, b));
  }

  lemma RoundAnswers(s: State, c: nat, outcomes: nat -> Outcome, i: nat, t: State, more: nat)
    requires Leads(s, [Pop, Handle(outcomes(i))], t) && Answers(t, Rounds(outcomes, i + 1, more), c)
    ensures Answers(s, Rounds(outcomes, i, more + 1), c)
  {
    AnswersAfter(s, [Pop, Handle(outcomes(i))], t, Rounds(outcomes, i + 1, more), c);
  }

  lemma {:induction false} RoundsAnswer(s: State, c: nat, outcomes: nat -> Outcome, i: nat, budget: nat)
    returns (n: nat)
    requires Ready(s) && s.handling.None? && c < |s.clients| && s.clients[c].Awaiting? && Work(s.queue) <= budget
    ensures n <= budget && Answers(s, Rounds(outcomes, i, n), c)
    decreases budget
  {
    n := 0;
    if Waits(s, c) {
      var t := OneRound(s, outcomes(i), c);
      n := RoundsAnswer(t, c, outcomes, i + 1, budget - 1);
      RoundAnswers(s, c, outcomes, i, t, n);
      n := n + 1;
    }
  }

  // ---------- from any reachable state ----------

  /** The looper ends what it is at, and then works off n messages. */
  function WorkOff(busy: bool, outcomes: nat -> Outcome, n: nat): seq<Step> {
    (if busy then [Handle(outcomes(0))] else []) + Rounds(outcomes, 1, n)
  }

  /** Time passes until everything queued is due. */
  ghost predicate LongEnough(s: State, wait: nat) {
    forall e | e in s.queue :: e.when <= s.now + wait
  }

  lemma TickStep(s: State, c: nat, wait: nat) returns (t: State)
    requires Inv(s) && s.run && Waits(s, c) && LongEnough(s, wait)
    ensures Leads(s, [Tick(wait)], t)
    ensures Ready(t) && Waits(t, c) && t.handling == s.handling && t.queue == s.queue
  {
    t := Apply(s, Tick(wait));
    LeadsOne(s, Tick(wait));
    StepKeeps(s, Tick(wait));
  }

  lemma WorkAnswers(s: State, c: nat, outcomes: nat -> Outcome) returns (n: nat)
    requires Ready(s) && Waits(s, c)
    ensures n <= 2 * |s.queue| + 1 && Answers(s, WorkOff(s.handling.Some?, outcomes, n), c)
  {
    if s.handling.Some? {
      var t := HandleStep(s, outcomes(0), c);
      n := RoundsAnswer(t, c, outcomes, 1, Work(t.queue));
      AnswersAfter(s, [Handle(outcomes(0))], t, Rounds(outcomes, 1, n), c);
    } else {
      n := RoundsAnswer(s, c, outcomes, 1, Work(s.queue));
      assert [] + Rounds(outcomes, 1, n) == Rounds(outcomes, 1, n);
    }
  }

  lemma PlanAnswers(s: State, c: nat, wait: nat, outcomes: nat -> Outcome) returns (n: nat)
    requires Inv(s) && s.run && Waits(s, c) && LongEnough(s, wait)
    ensures n <= 2 * |s.queue| + 1
    ensures Answers(s, [Tick(wait)] + WorkOff(s.handling.Some?, outcomes, n), c)
  {
    var t := TickStep(s, c, wait);
    n := WorkAnswers(t, c, outcomes);
    AnswersAfter(s, [Tick(wait)], t, WorkOff(s.handling.Some?, outcomes, n), c);
  }

  /** While the looper runs, a waiting call is answered by this plan: time passes until
      everything queued is due, the looper ends what it is at, and then handles at most two
      messages for each one it had, whatever the factory answers. */
  lemma WaitingCallIsAnswered(s: State, c: nat, wait: nat, outcomes: nat -> Outcome) returns (n: nat)
    requires Reachable(s) && s.run && Waits(s, c) && LongEnough(s, wait)
    ensures n <= 2 * |s.queue| + 1
    ensures Answers(s, [Tick(wait)] + WorkOff(s.handling.Some?, outcomes, n), c)
  {
    ReachableInv(s);
    n := PlanAnswers(s, c, wait, outcomes);
  }
}
