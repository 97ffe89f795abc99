/** What a request can count on once it is under way: it reads its media, it comes to its end by
    steps of its own, and a stop of the looper does not leave it waiting. */
module SessionRequests {
  import opened MediaModel
  import opened Sessions
  import opened SessionTheorems
  import opened AnsweredCalls
  import opened AfterClose

  // ---------- reading ----------

  /** A read by the reader that is alive gets more of the content, unless it is at the end; a read
      by a pre-empted reader gets nothing and touches nothing. */
  lemma StreamReads(s: State, c: nat, want: nat)
    requires Reachable(s) && Enabled(s, ReadFrom(c, want))
    ensures var t, m, r := Apply(s, ReadFrom(c, want)), s.clients[c].m, s.clients[c].r;
            && t.clients == s.clients && t.queue == s.queue && m < |s.medias| == |t.medias|
            && r < |s.medias[m].readers| && HasRead(s.medias[m], t.medias[m], r)
  {
    ReachableInv(s);
    var m, r := s.clients[c].m, s.clients[c].r;
    assert Good(s.medias[m]);
    ReadGrows(s.medias[m], r, want);
    ReadIsSettled(s, c, want);
  }

  /** What the reader has is a longer stretch of the content from its own start, if it is alive. */
  ghost predicate HasRead(md: Media, md': Media, r: nat)
    requires r < |md.readers|
  {
    && |md'.readers| == |md.readers| && md'.readers[r].from == md.readers[r].from >= 0
    && md'.readers[r].from + |md'.readers[r].out| <= |md.content|
    && md'.readers[r].out == md.content[md.readers[r].from..md.readers[r].from + |md'.readers[r].out|]
    && if md.readers[r].alive then
         |md'.readers[r].out| > |md.readers[r].out| || md.readers[r].from + |md.readers[r].out| == |md.content|
       else
         md' == md
  }

  lemma ReadGrows(md: Media, r: nat, want: nat)
    requires Good(md) && r < |md.readers|
    ensures HasRead(md, ReadChunk(md, r, want).0, r)
  {
    ReadIsIsolated(md, r, want);
  }

  lemma ReadIsSettled(s: State, c: nat, want: nat)
    requires Enabled(s, ReadFrom(c, want))
    ensures var m, r := s.clients[c].m, s.clients[c].r;
            Apply(s, ReadFrom(c, want)).medias[m] == ReadChunk(s.medias[m], r, want).0
  {
    var m, r := s.clients[c].m, s.clients[c].r;
    var u := Move(s, ReadFrom(c, want));
    assert !u.medias[m].readers[r].phase.Gone?;
    assert HeldByReader(u.medias[m]);
  }

  // ---------- readers in hand ----------

  /** Whoever has a reader in hand holds it ... */
  ghost predicate HandsHold(s: State) {
    forall c: nat, m: nat, r: nat {:trigger HasInHand(s.clients[c], m, r)} |
      c < |s.clients| && HasInHand(s.clients[c], m, r) ::
      m < |s.medias| && r < |s.medias[m].readers| && s.medias[m].readers[r].phase.Held?
  }

  /** ... and holds it alone. */
  ghost predicate HandsDiffer(s: State) {
    forall c: nat, d: nat, m: nat, r: nat | c < |s.clients| && d < |s.clients| && c != d ::
      !(HasInHand(s.clients[c], m, r) && HasInHand(s.clients[d], m, r))
  }

  ghost predicate IsNewReader(s: State, step: Step, d: nat, m: nat, r: nat)
    requires Enabled(s, step)
  {
    step.NewReader? && step.c == d && s.clients[d].m == m && r == |s.medias[m].readers|
  }

  lemma HandlingGivesNoReader(s: State, msg: Msg, outcome: Outcome, d: nat, m: nat, r: nat)
    requires CanHandle(s, msg)
    requires d < |HandleMsg(s, msg, outcome).clients| && HasInHand(HandleMsg(s, msg, outcome).clients[d], m, r)
    ensures d < |s.clients| && HasInHand(s.clients[d], m, r)
  {
  }

  lemma ClientHand(s: State, step: Step, d: nat, m: nat, r: nat)
    requires step.Receive? || step.Abort? || step.Query? || step.NewReader? || step.EndHandle? || step.DropReader?
    requires Enabled(s, step) && d < |Move(s, step).clients| && HasInHand(Move(s, step).clients[d], m, r)
    ensures d < |s.clients| && (HasInHand(s.clients[d], m, r) || IsNewReader(s, step, d, m, r))
    ensures step.DropReader? ==> step.c != d
  {
    if step.NewReader? {
      CreateReaderShape(s.medias[s.clients[step.c].m], step.notify, step.from, step.to, step.seek);
    }
  }

  /** A hand that holds a reader after a step did so before, unless the reader is new. */
  lemma HandBefore(s: State, step: Step, d: nat, m: nat, r: nat)
    requires Enabled(s, step) && d < |Move(s, step).clients| && HasInHand(Move(s, step).clients[d], m, r)
    ensures d < |s.clients| && (HasInHand(s.clients[d], m, r) || IsNewReader(s, step, d, m, r))
    ensures step.DropReader? ==> step.c != d
  {
    match step
    case Handle(outcome) => HandlingGivesNoReader(s, s.handling.value, outcome, d, m, r);
    case Call(wish) => CallFacts(s, wish);
    case Receive(_) => ClientHand(s, step, d, m, r);
    case Abort(_) => ClientHand(s, step, d, m, r);
    case Query(_) => ClientHand(s, step, d, m, r);
    case NewReader(_, _, _, _, _) => ClientHand(s, step, d, m, r);
    case EndHandle(_) => ClientHand(s, step, d, m, r);
    case DropReader(_) => ClientHand(s, step, d, m, r);
    case EndReader(k, x) => EndReaderMedias(s, k, x);
    case _ => assert Move(s, step).clients == s.clients;
  }

  /** A held reader stays held, unless it is dropped. */
  lemma HeldAfter(s: State, step: Step, m: nat, r: nat)
    requires Enabled(s, step) && m < |s.medias| && r < |s.medias[m].readers| && s.medias[m].readers[r].phase.Held?
    requires step.DropReader? ==> !HasInHand(s.clients[step.c], m, r)
    ensures var t := Move(s, step);
            m < |t.medias| && r < |t.medias[m].readers| && t.medias[m].readers[r].phase.Held?
  {
    match step
    case Handle(outcome) => HandlingKeepsReaders(s, s.handling.value, outcome, m);
    case NewReader(c, notify, from, to, seek) => NewReaderKeepsHeld(s.medias[s.clients[c].m], notify, from, to, seek);
    case EndReader(k, x) => EndReaderMedias(s, k, x);
    case Query(_) => StreamKeepsHeld(s, step, m, r);
    case ReadFrom(_, _) => StreamKeepsHeld(s, step, m, r);
    case DropReader(_) => StreamKeepsHeld(s, step, m, r);
    case _ => assert Move(s, step).medias == s.medias;
  }

  lemma StreamKeepsHeld(s: State, step: Step, m: nat, r: nat)
    requires (step.Query? || step.ReadFrom? || step.DropReader?) && Enabled(s, step)
    requires m < |s.medias| && r < |s.medias[m].readers| && s.medias[m].readers[r].phase.Held?
    requires step.DropReader? ==> !HasInHand(s.clients[step.c], m, r)
    ensures var t := Move(s, step);
            m < |t.medias| && r < |t.medias[m].readers| && t.medias[m].readers[r].phase.Held?
  {
  }

  lemma NewReaderKeepsHeld(md: Media, notify: bool, from: int, to: int, seek: SeekOutcome)
    requires LastReaderExists(md)
    ensures var t, made := CreateReader(md, notify, from, to, seek).0, CreateReader(md, notify, from, to, seek).1;
            && |md.readers| <= |t.readers|
            && (forall r | 0 <= r < |md.readers| :: t.readers[r].phase == md.readers[r].phase)
            && (made.Some? ==> made.value == |md.readers| < |t.readers| && t.readers[|md.readers|].phase.Held?)
  {
    CreateReaderShape(md, notify, from, to, seek);
    PreemptedKeepsPhases(md);
    var t := CreateReader(md, notify, from, to, seek).0;
    forall r | 0 <= r < |md.readers|
      ensures t.readers[r].phase == md.readers[r].phase
    {
      assert t.readers[..|md.readers|][r] == t.readers[r];
    }
  }

  lemma NewHandHolds(s: State, step: Step, d: nat, m: nat, r: nat)
    requires Enabled(s, step) && IsNewReader(s, step, d, m, r)
    requires d < |Move(s, step).clients| && HasInHand(Move(s, step).clients[d], m, r)
    ensures var t := Move(s, step);
            m < |t.medias| && r < |t.medias[m].readers| && t.medias[m].readers[r].phase.Held?
  {
    NewReaderKeepsHeld(s.medias[m], step.notify, step.from, step.to, step.seek);
  }

  lemma HandHolds(s: State, step: Step, d: nat, m: nat, r: nat)
    requires Enabled(s, step) && HandsHold(s) && HandsDiffer(s)
    requires d < |Move(s, step).clients| && HasInHand(Move(s, step).clients[d], m, r)
    ensures var t := Move(s, step);
            m < |t.medias| && r < |t.medias[m].readers| && t.medias[m].readers[r].phase.Held?
  {
    HandBefore(s, step, d, m, r);
    if IsNewReader(s, step, d, m, r) {
      NewHandHolds(s, step, d, m, r);
    } else {
      assert HasInHand(s.clients[d], m, r);
      assert step.DropReader? ==> !HasInHand(s.clients[step.c], m, r);
      HeldAfter(s, step, m, r);
    }
  }

  lemma HandIsAlone(s: State, step: Step, c: nat, d: nat, m: nat, r: nat)
    requires Enabled(s, step) && HandsHold(s) && HandsDiffer(s)
    requires c < |Move(s, step).clients| && d < |Move(s, step).clients| && c != d
    requires HasInHand(Move(s, step).clients[c], m, r)
    ensures !HasInHand(Move(s, step).clients[d], m, r)
  {
    HandBefore(s, step, c, m, r);
    if HasInHand(Move(s, step).clients[d], m, r) {
      HandBefore(s, step, d, m, r);
    }
  }

  lemma MoveKeepsHands(s: State, step: Step)
    requires Enabled(s, step) && HandsHold(s) && HandsDiffer(s)
    ensures HandsHold(Move(s, step)) && HandsDiffer(Move(s, step))
  {
    var t := Move(s, step);
    forall d: nat, m: nat, r: nat | d < |t.clients| && HasInHand(t.clients[d], m, r)
      ensures m < |t.medias| && r < |t.medias[m].readers| && t.medias[m].readers[r].phase.Held?
    {
      HandHolds(s, step, d, m, r);
    }
    forall c: nat, d: nat, m: nat, r: nat | c < |t.clients| && d < |t.clients| && c != d
      ensures !(HasInHand(t.clients[c], m, r) && HasInHand(t.clients[d], m, r))
    {
      if HasInHand(t.clients[c], m, r) {
        HandIsAlone(s, step, c, d, m, r);
      }
    }
  }

  lemma SettlingKeepsHands(s: State, t: State)
    requires HandsHold(s) && HandsDiffer(s) && t.clients == s.clients && |t.medias| == |s.medias|
    requires forall m | 0 <= m < |s.medias| :: t.medias[m].readers == s.medias[m].readers
    ensures HandsHold(t) && HandsDiffer(t)
  {
    forall c: nat, m: nat, r: nat | c < |t.clients| && HasInHand(t.clients[c], m, r)
      ensures m < |t.medias| && r < |t.medias[m].readers| && t.medias[m].readers[r].phase.Held?
    {
      assert HasInHand(s.clients[c], m, r);
    }
  }

  lemma StepKeepsHands(s: State, step: Step)
    requires Enabled(s, step) && HandsHold(s) && HandsDiffer(s)
    ensures HandsHold(Apply(s, step)) && HandsDiffer(Apply(s, step))
  {
    MoveKeepsHands(s, step);
    SettlingKeepsHands(Move(s, step), Apply(s, step));
  }

  lemma {:induction false} RunKeepsHands(s: State, steps: seq<Step>)
    requires HandsHold(s) && HandsDiffer(s) && Legal(s, steps)
    ensures HandsHold(Exec(s, steps)) && HandsDiffer(Exec(s, steps))
    decreases |steps|
  {
    if steps != [] {
      StepKeepsHands(s, steps[0]);
      RunKeepsHands(Apply(s, steps[0]), steps[1..]);
    }
  }

  lemma ReachableHands(s: State)
    requires Reachable(s)
    ensures HandsHold(s) && HandsDiffer(s)
  {
    var now, steps :| Legal(Init(now), steps) && s == Exec(Init(now), steps);
    RunKeepsHands(Init(now), steps);
  }

  // ---------- to the end ----------

  /** How many steps of its own a request still has. */
  function StepsLeft(cl: Client): nat {
    match cl
    case Holding(_, _, _, stage) =>
      (match stage
       case Greeting => 8
       case Creating => 7
       case Typing(_) => 6
       case Probing(_) => 5
       case Sizing(_) => 4
       case Ranging(_) => 3
       case Answered(_) => 2)
    case Streaming(_, _) => 1
    case _ => 0
  }

  /** The request's next step; it asks for the whole media. */
  function NextStep(cl: Client, c: nat): Step {
    if cl.Streaming? then DropReader(c)
    else if cl.Holding? && cl.stage.Creating? then NewReader(c, true, 0, -1, SeekOutcome(0, 0))
    else if cl.Holding? && cl.stage.Answered? then EndHandle(c)
    else Query(c)
  }

  predicate OwnSteps(plan: seq<Step>, c: nat) {
    forall i | 0 <= i < |plan| ::
      || plan[i] == DropReader(c) || plan[i] == EndHandle(c) || plan[i] == Query(c)
      || (plan[i].NewReader? && plan[i].c == c)
  }

  lemma StepGoesOn(s: State, c: nat) returns (t: State)
    requires Inv(s) && HandsHold(s) && HandsDiffer(s) && c < |s.clients| && StepsLeft(s.clients[c]) > 0
    ensures Leads(s, [NextStep(s.clients[c], c)], t) && Inv(t) && HandsHold(t) && HandsDiffer(t)
    ensures |t.clients| == |s.clients| && StepsLeft(t.clients[c]) < StepsLeft(s.clients[c])
    ensures t.clients[c].Holding? || t.clients[c].Streaming? || t.clients[c].Finished?
  {
    var step := NextStep(s.clients[c], c);
    NextIsEnabled(s, c);
    LeadsOne(s, step);
    StepKeeps(s, step);
    StepKeepsHands(s, step);
    t := Apply(s, step);
    NextGoesOn(s, c);
  }

  lemma NextIsEnabled(s: State, c: nat)
    requires Inv(s) && HandsHold(s) && c < |s.clients| && StepsLeft(s.clients[c]) > 0
    ensures Enabled(s, NextStep(s.clients[c], c))
  {
    var cl := s.clients[c];
    if cl.Streaming? {
      assert HasInHand(cl, cl.m, cl.r);
    } else {
      ClientOwns(s, c, cl.m);
      assert Good(s.medias[cl.m]);
    }
  }

  lemma NextGoesOn(s: State, c: nat)
    requires c < |s.clients| && StepsLeft(s.clients[c]) > 0 && Enabled(s, NextStep(s.clients[c], c))
    ensures var t := Move(s, NextStep(s.clients[c], c));
            && |t.clients| == |s.clients| && StepsLeft(t.clients[c]) < StepsLeft(s.clients[c])
            && (t.clients[c].Holding? || t.clients[c].Streaming? || t.clients[c].Finished?)
  {
  }

  /** The plan consists of steps of the request, and it ends with the request finished. */
  ghost predicate Ends(s: State, plan: seq<Step>, c: nat) {
    OwnSteps(plan, c) && Legal(s, plan) && c < |Exec(s, plan).clients| && Exec(s, plan).clients[c].Finished?
  }

  lemma EndsBy(s: State, step: Step, t: State, rest: seq<Step>, c: nat)
    requires Leads(s, [step], t) && Ends(t, rest, c) && OwnSteps([step], c)
    ensures Ends(s, [step] + rest, c)
  {
    LeadsOn(s, [step], t, rest, Exec(t, rest));
    assert [step][0] == step;
    assert forall i | 0 <= i < |rest| :: ([step] + rest)[i + 1] == rest[i];
  }

  lemma NextIsOwn(cl: Client, c: nat)
    ensures OwnSteps([NextStep(cl, c)], c)
  {
  }

  lemma {:induction false} RequestFinishes(s: State, c: nat) returns (plan: seq<Step>)
    requires Inv(s) && HandsHold(s) && HandsDiffer(s) && c < |s.clients|
    requires s.clients[c].Holding? || s.clients[c].Streaming? || s.clients[c].Finished?
    ensures |plan| <= StepsLeft(s.clients[c]) && Ends(s, plan, c)
    decreases StepsLeft(s.clients[c])
  {
    plan := [];
    if StepsLeft(s.clients[c]) > 0 {
      var step := NextStep(s.clients[c], c);
      var t := StepGoesOn(s, c);
      var rest := RequestFinishes(t, c);
      NextIsOwn(s.clients[c], c);
      EndsBy(s, step, t, rest, c);
      plan := [step] + rest;
    }
  }

  lemma ReachableFacts(s: State)
    requires Reachable(s)
    ensures Inv(s) && HandsHold(s) && HandsDiffer(s)
  {
    ReachableInv(s);
    ReachableHands(s);
  }

  /** From any reachable state, a request that has its media or its reader in hand comes to its end
      by at most eight steps of its own, whatever the others have done to the media. */
  lemma RequestEnds(s: State, c: nat) returns (plan: seq<Step>)
    requires Reachable(s) && c < |s.clients| && (s.clients[c].Holding? || s.clients[c].Streaming?)
    ensures |plan| <= 8 && Ends(s, plan, c)
  {
    ReachableFacts(s);
    plan := RequestFinishes(s, c);
  }

  // ---------- stop ----------

  /** Stop leaves nobody waiting: a call without an answer can give up at once. */
  lemma StopFreesCallers(s: State, c: nat)
    requires Reachable(s) && s.run && Waits(s, c)
    ensures var plan := [Stop, Abort(c)];
            Legal(s, plan) && c < |Exec(s, plan).clients| && Exec(s, plan).clients[c].Aborted?
  {
    var t := Apply(s, Stop);
    LeadsOne(s, Stop);
    LeadsOne(t, Abort(c));
    LeadsOn(s, [Stop], t, [Abort(c)], Apply(t, Abort(c)));
    assert [Stop] + [Abort(c)] == [Stop, Abort(c)];
  }

  /** When manager and looper go, nothing is listed or queued any more, and every media that no
      request has in hand is closed. */
  lemma TeardownCloses(s: State, m: nat)
    requires Reachable(s) && Enabled(s, Teardown) && m < |s.medias| && s.medias[m].isOpen
    ensures var t := Apply(s, Teardown);
            && t.registry == map[] && t.queue == [] && m < |t.medias|
            && (t.medias[m].closed || HeldByReader(s.medias[m]) || HeldByClient(s.clients, m))
  {
    ReachableInv(s);
    StepKeeps(s, Teardown);
    assert Good(Apply(s, Teardown).medias[m]);
  }
}
