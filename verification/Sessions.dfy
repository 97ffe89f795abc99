/** Media sessions as a transition system: `MediaManager`'s handler on its looper
    (src/media_manager.cpp), the request threads, and the shared and weak pointers
    that decide when a media lives. Each delivered message, each mReadLock section, each
    other user call and each part of a destructor is one atomic step. */
module Sessions {
  import opened Prelude
  import opened EventQueue
  import opened MediaModel

  /** c is the call that waits for the answer, m a media object. */
  datatype Msg = Get(c: nat, id: int) | Create(c: nat) | WatchDog(m: nat)

  datatype Wish = WantsId(id: int) | WantsNew

  /** What a request does next with the media it was handed, up to `return`. */
  datatype Stage =
    | Greeting                                       // logs seekable()
    | Creating                                       // calls createReader
    | Typing(r: nat)                                 // got reader r, asks for mimeType()
    | Probing(r: nat)                                // asks seekable() again
    | Sizing(r: nat)                                 // asks size() for the check
    | Ranging(r: nat)                                // asks size() for Content-Range, or for the log
    | Answered(reader: Option<nat>)                  // no user call left

  /** One request: the call of getMediaOrCreate / createMedia, the rest of the handler with
      the media in hand, and the response body, which keeps only the reader. A reply of
      Some(None) is a null media. */
  datatype Client =
    | Awaiting(wish: Wish, nextIdAtCall: int, reply: Option<Option<nat>>)
    | Holding(wish: Wish, nextIdAtCall: int, m: nat, stage: Stage)
    | Streaming(m: nat, r: nat)
    | Finished
    | Aborted

  function StageCall(stage: Stage): Option<UserCall> {
    match stage
    case Greeting => Some(Seekable)
    case Typing(_) => Some(MimeType)
    case Probing(_) => Some(Seekable)
    case Sizing(_) => Some(Size)
    case Ranging(_) => Some(Size)
    case _ => None
  }

  function StageReader(stage: Stage): Option<nat> {
    match stage
    case Greeting => None
    case Creating => None
    case Answered(reader) => reader
    case _ => Some(stage.r)
  }

  function NextStage(stage: Stage, canSeek: bool): Stage {
    match stage
    case Greeting => Creating
    case Typing(r) => Probing(r)
    case Probing(r) => if canSeek then Sizing(r) else Answered(Some(r))
    case Sizing(r) => Ranging(r)
    case Ranging(r) => Answered(Some(r))
    case _ => stage
  }

  /** registry is mMedias: None is a null weak_ptr. */
  datatype State = State(
    now: int,
    run: bool,
    looperAlive: bool,
    queue: seq<Event<Msg>>,
    handling: Option<Msg>,
    clients: seq<Client>,
    registry: map<int, Option<nat>>,
    nextId: int,
    medias: seq<Media>)

  function Init(now: int): State {
    State(now, true, true, [], None, [], map[], 0, [])
  }

  // ---------- owners ----------

  /** A reader, even one whose destructor is at work, owns its media. */
  ghost predicate HeldByReader(md: Media) {
    exists r | 0 <= r < |md.readers| :: !md.readers[r].phase.Gone?
  }

  ghost predicate Queued(q: seq<Event<Msg>>, msg: Msg) {
    exists e :: e in q && e.msg == msg
  }

  predicate Holds(cl: Client, m: nat) {
    (cl.Holding? && cl.m == m) || (cl.Awaiting? && cl.reply == Some(Some(m)))
  }

  ghost predicate HeldByClient(clients: seq<Client>, m: nat) {
    exists c | 0 <= c < |clients| :: Holds(clients[c], m)
  }

  /** Some shared_ptr to media m exists: in a reader, a watchdog message, a reply or a
      request thread. */
  ghost predicate Owned(s: State, m: nat)
    requires m < |s.medias|
  {
    || HeldByReader(s.medias[m])
    || Queued(s.queue, WatchDog(m))
    || s.handling == Some(WatchDog(m))
    || HeldByClient(s.clients, m)
  }

  /** Reference counts fall to zero: `~ReadMedia` for every media nobody owns. */
  ghost function Collect(s: State): (t: State)
    ensures t == s.(medias := t.medias) && |t.medias| == |s.medias|
    ensures forall m | 0 <= m < |s.medias| ::
              t.medias[m] == if Owned(s, m) || s.medias[m].destroyed then s.medias[m] else Destroy(s.medias[m])
  {
    s.(medias := seq(|s.medias|, m requires 0 <= m < |s.medias| =>
         if Owned(s, m) || s.medias[m].destroyed then s.medias[m] else Destroy(s.medias[m])))
  }

  // ---------- the message handler ----------

  /** What the factory and the user's open answer. */
  datatype Outcome = NoCreator | NewMedia(content: seq<byte>, size: int, canSeek: bool, timeout: int, opens: bool)

  function Answer(s: State, c: nat, media: Option<nat>): State
    requires c < |s.clients|
  {
    if s.clients[c].Awaiting? then s.(clients := s.clients[c := s.clients[c].(reply := Some(media))]) else s
  }

  function PostMsg(s: State, msg: Msg, delayUs: int): State {
    if s.looperAlive then s.(queue := Insert(s.queue, Event(DueTime(s.now, delayUs), msg))) else s
  }

  /** `mMedias[id].lock()` without the insertion. */
  function Live(s: State, id: int): Option<nat> {
    if id in s.registry && s.registry[id].Some? && s.registry[id].value < |s.medias|
       && !s.medias[s.registry[id].value].destroyed
    then s.registry[id]
    else None
  }

  function HandleGet(s: State, c: nat, id: int): State
    requires c < |s.clients|
  {
    var touched := s.(registry := s.registry[id := if id in s.registry then s.registry[id] else None]);
    var found := Live(s, id);
    if found.Some? then Answer(touched, c, found) else PostMsg(touched, Create(c), 0)
  }

  function HandleCreate(s: State, c: nat, outcome: Outcome): State
    requires c < |s.clients|
  {
    match outcome
    case NoCreator => Answer(s, c, None)
    case NewMedia(content, size, canSeek, timeout, opens) =>
      var id := s.nextId + 1;
      var added := s.(nextId := id, medias := s.medias + [Opened(id, content, size, canSeek, timeout, opens)]);
      if opens then Answer(added.(registry := s.registry[id := Some(|s.medias|)]), c, Some(|s.medias|))
      else Answer(added, c, None)
  }

  function HandleWatchDog(s: State, m: nat): State
    requires m < |s.medias| && LastReaderExists(s.medias[m])
  {
    var md := s.medias[m];
    if IsIdle(md) && md.key in s.registry then
      s.(medias := s.medias[m := CloseMedia(md)], registry := s.registry - {md.key})
    else s
  }

  predicate CanHandle(s: State, msg: Msg) {
    match msg
    case Get(c, _) => c < |s.clients|
    case Create(c) => c < |s.clients|
    case WatchDog(m) => m < |s.medias| && LastReaderExists(s.medias[m])
  }

  function HandleMsg(s: State, msg: Msg, outcome: Outcome): State
    requires CanHandle(s, msg)
  {
    match msg
    case Get(c, id) => HandleGet(s, c, id)
    case Create(c) => HandleCreate(s, c, outcome)
    case WatchDog(m) => HandleWatchDog(s, m)
  }

  // ---------- steps ----------

  datatype Step =
    | Tick(elapsed: nat)
    | Call(wish: Wish)
    | Pop                                            // the looper pops a due event
    | Handle(outcome: Outcome)
    | Receive(c: nat)
    | Abort(c: nat)
    | Query(c: nat)                                  // the request's next user call
    | NewReader(c: nat, notify: bool, from: int, to: int, seek: SeekOutcome)
    | EndHandle(c: nat)                              // the handler returns
    | ReadFrom(c: nat, want: nat)
    | DropReader(c: nat)                             // the last shared_ptr to its reader goes
    | EndReader(m: nat, r: nat)                      // the next part of ~Reader
    | Stop
    | Teardown                                           // manager and looper destroyed with their queue

  predicate HasReader(s: State, cl: Client) {
    cl.Streaming? && cl.m < |s.medias| && cl.r < |s.medias[cl.m].readers| && s.medias[cl.m].readers[cl.r].phase.Held?
  }

  ghost predicate Enabled(s: State, step: Step) {
    match step
    case Tick(_) => true
    case Call(_) => s.looperAlive
    case Pop => s.run && s.handling.None? && s.queue != [] && s.queue[0].when <= s.now
    case Handle(_) => s.handling.Some? && CanHandle(s, s.handling.value)
    case Receive(c) => c < |s.clients| && s.clients[c].Awaiting? && s.clients[c].reply.Some?
    case Abort(c) => c < |s.clients| && s.clients[c].Awaiting? && s.clients[c].reply.None? && !s.run
    case Query(c) =>
      c < |s.clients| && s.clients[c].Holding? && s.clients[c].m < |s.medias| && StageCall(s.clients[c].stage).Some?
    case NewReader(c, _, _, _, seek) =>
      c < |s.clients| && s.clients[c].Holding? && s.clients[c].stage.Creating? && s.clients[c].m < |s.medias|
      && LastReaderExists(s.medias[s.clients[c].m]) && Truthful(s.medias[s.clients[c].m], seek)
    case EndHandle(c) => c < |s.clients| && s.clients[c].Holding? && s.clients[c].stage.Answered?
    case ReadFrom(c, _) => c < |s.clients| && HasReader(s, s.clients[c])
    case DropReader(c) => c < |s.clients| && HasReader(s, s.clients[c])
    case EndReader(m, r) =>
      m < |s.medias| && r < |s.medias[m].readers|
      && !s.medias[m].readers[r].phase.Held? && !s.medias[m].readers[r].phase.Gone?
    case Stop => s.run
    case Teardown => !s.run && s.handling.None? && forall c | 0 <= c < |s.clients| :: !s.clients[c].Awaiting?
  }

  /** Without a reader the handler sets status 416 and returns. */
  function Served(r: Option<nat>): Stage {
    if r.Some? then Typing(r.value) else Answered(None)
  }

  function Received(cl: Client): Client
    requires cl.Awaiting? && cl.reply.Some?
  {
    match cl.reply.value
    case Some(m) => Holding(cl.wish, cl.nextIdAtCall, m, Greeting)
    case None => Finished
  }

  function Returned(cl: Client): Client
    requires cl.Holding?
  {
    match StageReader(cl.stage)
    case Some(r) => Streaming(cl.m, r)
    case None => Finished
  }

  ghost function Move(s: State, step: Step): State
    requires Enabled(s, step)
  {
    match step
    case Tick(elapsed) => s.(now := s.now + elapsed)
    case Call(wish) =>
      var c := |s.clients|;
      PostMsg(s.(clients := s.clients + [Awaiting(wish, s.nextId, None)]),
              if wish.WantsId? then Get(c, wish.id) else Create(c), 0)
    case Pop => s.(queue := s.queue[1..], handling := Some(s.queue[0].msg))
    case Handle(outcome) => HandleMsg(s, s.handling.value, outcome).(handling := None)
    case Receive(c) => s.(clients := s.clients[c := Received(s.clients[c])])
    case Abort(c) => s.(clients := s.clients[c := Aborted])
    case Query(c) =>
      var (cl, md) := (s.clients[c], s.medias[s.clients[c].m]);
      s.(medias := s.medias[cl.m := Logged(md, [StageCall(cl.stage).value])],
         clients := s.clients[c := cl.(stage := NextStage(cl.stage, md.canSeek))])
    case NewReader(c, notify, from, to, seek) =>
      var cl := s.clients[c];
      var (md, r) := CreateReader(s.medias[cl.m], notify, from, to, seek);
      s.(medias := s.medias[cl.m := md],
         clients := s.clients[c := cl.(stage := Served(r))])
    case EndHandle(c) => s.(clients := s.clients[c := Returned(s.clients[c])])
    case ReadFrom(c, want) =>
      var cl := s.clients[c];
      s.(medias := s.medias[cl.m := ReadChunk(s.medias[cl.m], cl.r, want).0])
    case DropReader(c) =>
      var cl := s.clients[c];
      s.(medias := s.medias[cl.m := InPhase(s.medias[cl.m], cl.r, Expired)], clients := s.clients[c := Finished])
    case EndReader(m, r) =>
      var t := s.(medias := s.medias[m := Destruct(s.medias[m], r, s.now)]);
      if s.medias[m].readers[r].phase.Posting? then PostMsg(t, WatchDog(m), s.medias[m].timeout * 1000) else t
    case Stop => s.(run := false)
    case Teardown => s.(looperAlive := false, queue := [], registry := map[])
  }

  ghost function Apply(s: State, step: Step): State
    requires Enabled(s, step)
  {
    Collect(Move(s, step))
  }

  ghost predicate Legal(s: State, steps: seq<Step>)
    decreases |steps|
  {
    steps == [] || (Enabled(s, steps[0]) && Legal(Apply(s, steps[0]), steps[1..]))
  }

  ghost function Exec(s: State, steps: seq<Step>): State
    requires Legal(s, steps)
    decreases |steps|
  {
    if steps == [] then s else Exec(Apply(s, steps[0]), steps[1..])
  }

  // ---------- invariant ----------

  predicate MsgFits(s: State, msg: Msg) {
    match msg
    case Get(c, _) => c < |s.clients|
    case Create(c) => c < |s.clients|
    case WatchDog(m) => m < |s.medias|
  }

  ghost predicate RefsFit(s: State) {
    && (forall e | e in s.queue :: MsgFits(s, e.msg))
    && (s.handling.Some? ==> MsgFits(s, s.handling.value))
    && (forall c, m: nat | 0 <= c < |s.clients| && Holds(s.clients[c], m) :: m < |s.medias|)
  }

  ghost predicate MediasGood(s: State) {
    forall m | 0 <= m < |s.medias| :: Good(s.medias[m])
  }

  /** Only media that opened, and that are not yet destroyed, have owners. */
  ghost predicate OwnersAreSound(s: State) {
    forall m | 0 <= m < |s.medias| && Owned(s, m) :: s.medias[m].isOpen && !s.medias[m].destroyed
  }

  /** A live entry is an open, unclosed media under its own key, and every such media has one. */
  ghost predicate RegistryExact(s: State) {
    && (forall id | id in s.registry && s.registry[id].Some? ::
          var m := s.registry[id].value;
          && m < |s.medias| && s.medias[m].key == id && s.medias[m].isOpen
          && (!s.medias[m].destroyed ==> !s.medias[m].closed))
    && (s.looperAlive ==> forall m | 0 <= m < |s.medias| && s.medias[m].isOpen && !s.medias[m].closed ::
          s.medias[m].key in s.registry && s.registry[s.medias[m].key] == Some(m))
  }

  ghost predicate KeysIncrease(s: State) {
    && (forall i | 0 <= i < |s.medias| :: s.medias[i].key <= s.nextId)
    && (forall i, j | 0 <= i < j < |s.medias| :: s.medias[i].key < s.medias[j].key)
  }

  /** The weight of a message for call c: a get may still become a create. */
  function Cost(msg: Msg, c: nat, weighted: bool): nat {
    match msg
    case Get(d, _) => if d != c then 0 else if weighted then 2 else 1
    case Create(d) => if d != c then 0 else 1
    case WatchDog(_) => 0
  }

  function Total(q: seq<Event<Msg>>, c: nat, weighted: bool): nat {
    if q == [] then 0 else Cost(q[0].msg, c, weighted) + Total(q[1..], c, weighted)
  }

  /** The messages of call c that are queued or being handled. */
  function Pending(s: State, c: nat, weighted: bool): nat {
    Total(s.queue, c, weighted) + (if s.handling.Some? then Cost(s.handling.value, c, weighted) else 0)
  }

  /** An awaiting call has exactly one of: a queued message, a message being handled, a
      reply. An answered call has no message left. */
  ghost predicate Conserved(s: State) {
    && (forall c: nat | c < |s.clients| ::
         match s.clients[c]
         case Awaiting(_, _, reply) => Pending(s, c, false) + (if reply.Some? then 1 else 0) == 1
         case Aborted => Pending(s, c, false) <= 1
         case _ => Pending(s, c, false) == 0)
    && forall c: nat | c >= |s.clients| :: Pending(s, c, false) == 0
  }

  /** The media found for a call is the one asked for, or is newer than the call. */
  predicate Suits(md: Media, wish: Wish, nextIdAtCall: int) {
    (wish.WantsId? && md.key == wish.id) || md.key > nextIdAtCall
  }

  ghost predicate MessageMatches(s: State, msg: Msg) {
    match msg
    case Get(c, id) => c < |s.clients| && (s.clients[c].Awaiting? ==> s.clients[c].wish == WantsId(id))
    case _ => true
  }

  ghost predicate ClientsSuited(s: State) {
    && (forall c | 0 <= c < |s.clients| && s.clients[c].Awaiting? :: s.clients[c].nextIdAtCall <= s.nextId)
    && (forall c, m: nat | 0 <= c < |s.clients| && Holds(s.clients[c], m) && m < |s.medias| ::
          Suits(s.medias[m], s.clients[c].wish, s.clients[c].nextIdAtCall))
    && (forall e | e in s.queue :: MessageMatches(s, e.msg))
    && (s.handling.Some? ==> MessageMatches(s, s.handling.value))
  }

  /** The reader's destructor is past the post of its watchdog. */
  predicate Posted(rd: Reader) {
    rd.phase.Released? || rd.phase.Gone?
  }

  /** m is open, its last reader is gone and has left a watchdog. */
  ghost predicate Abandoned(md: Media) {
    && md.isOpen && !md.closed && md.timeout >= 0
    && md.lastReader.Some? && md.lastReader.value < |md.readers|
    && Posted(md.readers[md.lastReader.value]) && md.readers[md.lastReader.value].notify
  }

  ghost function Deadline(md: Media): int
    requires Abandoned(md)
  {
    md.readers[md.lastReader.value].postedAt + md.timeout * 1000
  }

  predicate HasInHand(cl: Client, m: nat, r: nat) {
    (cl.Streaming? && cl.m == m && cl.r == r) || (cl.Holding? && cl.m == m && StageReader(cl.stage) == Some(r))
  }

  ghost predicate InSomeHand(clients: seq<Client>, m: nat, r: nat) {
    exists c | 0 <= c < |clients| :: HasInHand(clients[c], m, r)
  }

  /** Every reader that is held is held by some request. */
  ghost predicate ReadersInHand(s: State) {
    forall m: nat, r: nat | 0 <= m < |s.medias| && r < |s.medias[m].readers| && s.medias[m].readers[r].phase.Held? ::
      InSomeHand(s.clients, m, r)
  }

  ghost predicate DueBy(q: seq<Event<Msg>>, msg: Msg, deadline: int) {
    exists e :: e in q && e.msg == msg && e.when <= deadline
  }

  ghost predicate NoIdleLeak(s: State) {
    s.looperAlive ==> forall m | 0 <= m < |s.medias| && Abandoned(s.medias[m]) ::
      s.handling == Some(WatchDog(m)) || DueBy(s.queue, WatchDog(m), Deadline(s.medias[m]))
  }

  ghost predicate LooperPhase(s: State) {
    (s.run || s.handling.Some?) ==> s.looperAlive
  }

  /** Everything that holds before reference counts are settled, too. */
  ghost predicate Core(s: State) {
    && LooperPhase(s) && RefsFit(s) && MediasGood(s) && OwnersAreSound(s) && RegistryExact(s)
    && KeysIncrease(s) && Conserved(s) && ClientsSuited(s) && NoIdleLeak(s) && ReadersInHand(s)
  }

  ghost predicate Inv(s: State) {
    Core(s) && forall m | 0 <= m < |s.medias| && !s.medias[m].destroyed :: Owned(s, m)
  }

  // ---------- settling reference counts ----------

  /** What settling does to one media. */
  ghost predicate Settled(s: State, t: State, m: nat)
    requires m < |s.medias| == |t.medias|
  {
    var md, md' := s.medias[m], t.medias[m];
    && Good(md') && (Owned(t, m) <==> Owned(s, m)) && (Owned(s, m) ==> md' == md)
    && (!md'.destroyed ==> Owned(s, m))
    && md'.key == md.key && md'.isOpen == md.isOpen && md'.readers == md.readers
    && (md'.isOpen && !md'.closed ==> md' == md)
  }

  lemma MediaSettles(s: State, m: nat)
    requires MediasGood(s) && m < |s.medias|
    ensures Settled(s, Collect(s), m)
  {
    assert Good(s.medias[m]);
    if !Owned(s, m) {
      assert !HeldByReader(s.medias[m]);
      DestroyIsGood(s.medias[m]);
    }
  }

  lemma SettlingKeepsRegistry(s: State, t: State)
    requires RegistryExact(s) && KeysIncrease(s) && t == s.(medias := t.medias) && |t.medias| == |s.medias|
    requires forall m: nat | m < |s.medias| :: Settled(s, t, m) && (t.medias[m].destroyed || t.medias[m] == s.medias[m])
    ensures RegistryExact(t) && KeysIncrease(t)
  {
    forall m: nat | m < |s.medias|
      ensures t.medias[m].key == s.medias[m].key && t.medias[m].isOpen == s.medias[m].isOpen
      ensures t.medias[m].destroyed || t.medias[m] == s.medias[m]
      ensures t.medias[m].isOpen && !t.medias[m].closed ==> t.medias[m] == s.medias[m]
    {
      assert Settled(s, t, m);
    }
  }

  lemma SettlingKeepsRequests(s: State, t: State)
    requires RefsFit(s) && Conserved(s) && ClientsSuited(s) && t == s.(medias := t.medias) && |t.medias| == |s.medias|
    requires forall m: nat | m < |s.medias| :: t.medias[m].key == s.medias[m].key
    ensures RefsFit(t) && Conserved(t) && ClientsSuited(t)
  {
    assert forall c: nat :: Pending(t, c, false) == Pending(s, c, false);
  }

  lemma SettlingKeepsOwners(s: State, t: State)
    requires OwnersAreSound(s) && NoIdleLeak(s) && ReadersInHand(s)
    requires t == s.(medias := t.medias) && |t.medias| == |s.medias|
    requires forall m: nat | m < |s.medias| :: Settled(s, t, m)
    ensures OwnersAreSound(t) && NoIdleLeak(t) && ReadersInHand(t)
  {
    forall m: nat | m < |s.medias|
      ensures Owned(t, m) ==> Owned(s, m) && t.medias[m] == s.medias[m]
      ensures t.medias[m].readers == s.medias[m].readers
      ensures Abandoned(t.medias[m]) ==> t.medias[m] == s.medias[m]
    {
      assert Settled(s, t, m);
    }
  }

  lemma CollectKeeps(s: State)
    requires Core(s)
    ensures Inv(Collect(s))
  {
    var t := Collect(s);
    forall m: nat | m < |s.medias|
      ensures Settled(s, t, m) && Good(t.medias[m]) && t.medias[m].key == s.medias[m].key
      ensures t.medias[m].destroyed || t.medias[m] == s.medias[m]
    {
      MediaSettles(s, m);
    }
    SettlingKeepsRegistry(s, t);
    SettlingKeepsRequests(s, t);
    SettlingKeepsOwners(s, t);
  }

  // ---------- every step keeps the core ----------

  lemma {:induction false} TotalInsert(q: seq<Event<Msg>>, e: Event<Msg>, c: nat, weighted: bool)
    ensures Total(Insert(q, e), c, weighted) == Total(q, c, weighted) + Cost(e.msg, c, weighted)
  {
    if q == [] || q[0].when > e.when {
      assert ([e] + q)[1..] == q;
    } else {
      TotalInsert(q[1..], e, c, weighted);
      assert ([q[0]] + Insert(q[1..], e))[1..] == Insert(q[1..], e);
    }
  }

  lemma PostFacts(s: State, msg: Msg, delayUs: int)
    requires s.looperAlive
    ensures var e := Event(DueTime(s.now, delayUs), msg);
            var t := PostMsg(s, msg, delayUs);
            && t == s.(queue := t.queue)
            && (forall x :: x in t.queue <==> x == e || x in s.queue)
            && (forall c: nat, weighted: bool ::
                  Pending(t, c, weighted) == Pending(s, c, weighted) + Cost(msg, c, weighted))
  {
    var e := Event(DueTime(s.now, delayUs), msg);
    InsertElements(s.queue, e, Insert(s.queue, e));
    forall c: nat, weighted: bool
      ensures Total(Insert(s.queue, e), c, weighted) == Total(s.queue, c, weighted) + Cost(msg, c, weighted)
    {
      TotalInsert(s.queue, e, c, weighted);
    }
  }

  /** The state right after a call queued its message. */
  ghost predicate Called(s: State, wish: Wish, t: State) {
    var c := |s.clients|;
    var msg := if wish.WantsId? then Get(c, wish.id) else Create(c);
    && t == s.(clients := s.clients + [Awaiting(wish, s.nextId, None)], queue := t.queue)
    && (forall x :: x in t.queue <==> x == Event(s.now, msg) || x in s.queue)
    && (forall d: nat, weighted: bool :: Pending(t, d, weighted) == Pending(s, d, weighted) + Cost(msg, d, weighted))
  }

  lemma CallFacts(s: State, wish: Wish)
    requires Enabled(s, Call(wish))
    ensures Called(s, wish, Move(s, Call(wish)))
  {
    var c := |s.clients|;
    var u := s.(clients := s.clients + [Awaiting(wish, s.nextId, None)]);
    PostFacts(u, if wish.WantsId? then Get(c, wish.id) else Create(c), 0);
    assert forall d: nat, w: bool :: Pending(u, d, w) == Pending(s, d, w);
  }

  lemma CallKeepsQueue(s: State, wish: Wish, t: State)
    requires RefsFit(s) && OwnersAreSound(s) && NoIdleLeak(s) && Called(s, wish, t)
    ensures RefsFit(t) && OwnersAreSound(t) && NoIdleLeak(t)
  {
    assert forall d | 0 <= d < |s.clients| :: t.clients[d] == s.clients[d];
    forall m: nat | m < |t.medias| && Owned(t, m)
      ensures Owned(s, m)
    {
    }
    forall m: nat | m < |t.medias| && Abandoned(t.medias[m]) && DueBy(s.queue, WatchDog(m), Deadline(s.medias[m]))
      ensures DueBy(t.queue, WatchDog(m), Deadline(t.medias[m]))
    {
    }
  }

  lemma CallKeepsClients(s: State, wish: Wish, t: State)
    requires Conserved(s) && ClientsSuited(s) && ReadersInHand(s) && Called(s, wish, t)
    ensures Conserved(t) && ClientsSuited(t) && ReadersInHand(t)
  {
    assert forall d | 0 <= d < |s.clients| :: t.clients[d] == s.clients[d];
    forall m: nat, r: nat | m < |t.medias| && r < |t.medias[m].readers| && t.medias[m].readers[r].phase.Held?
      ensures InSomeHand(t.clients, m, r)
    {
      assert InSomeHand(s.clients, m, r);
    }
  }

  lemma CallKeeps(s: State, wish: Wish)
    requires Inv(s) && Enabled(s, Call(wish))
    ensures Core(Move(s, Call(wish)))
  {
    var t := Move(s, Call(wish));
    CallFacts(s, wish);
    CallKeepsQueue(s, wish, t);
    CallKeepsClients(s, wish, t);
  }

  lemma PopKeeps(s: State)
    requires Inv(s) && Enabled(s, Pop)
    ensures Core(Move(s, Pop))
    ensures forall c: nat, w: bool :: Pending(Move(s, Pop), c, w) == Pending(s, c, w)
  {
    var t := Move(s, Pop);
    assert s.queue == [s.queue[0]] + t.queue;
    assert forall x :: x in s.queue <==> x == s.queue[0] || x in t.queue;
    assert s.queue[0] in s.queue;
    assert OwnersAreSound(t) by {
      forall m: nat | m < |t.medias| && Owned(t, m) ensures Owned(s, m) {
      }
    }
    forall c: nat, w: bool
      ensures Pending(t, c, w) == Pending(s, c, w)
    {
    }
    assert NoIdleLeak(t);
  }

  // --- one media changes ---

  /** A media operation that neither closes nor abandons the media. */
  ghost predicate Benign(md: Media, md': Media) {
    && Good(md')
    && md'.key == md.key && md'.isOpen == md.isOpen && md'.closed == md.closed && md'.destroyed == md.destroyed
    && (Abandoned(md') ==> Abandoned(md) && Deadline(md') == Deadline(md))
  }

  /** The requests in flight are the same; at most a watchdog has been handled. */
  lemma SameRequests(s: State, t: State)
    requires Conserved(s) && t.clients == s.clients && t.queue == s.queue
    requires t.handling == s.handling || (t.handling.None? && s.handling.Some? && s.handling.value.WatchDog?)
    ensures Conserved(t)
    ensures forall c: nat, w: bool :: Pending(t, c, w) == Pending(s, c, w)
  {
    forall c: nat, w: bool
      ensures Pending(t, c, w) == Pending(s, c, w)
    {
    }
  }

  lemma SameRegistry(s: State, m: nat, md: Media)
    requires RegistryExact(s) && KeysIncrease(s) && m < |s.medias| && Benign(s.medias[m], md)
    ensures var t := s.(medias := s.medias[m := md]); RegistryExact(t) && KeysIncrease(t)
  {
    var t := s.(medias := s.medias[m := md]);
    assert forall k | 0 <= k < |s.medias| ::
        t.medias[k].key == s.medias[k].key && t.medias[k].isOpen == s.medias[k].isOpen
        && t.medias[k].closed == s.medias[k].closed && t.medias[k].destroyed == s.medias[k].destroyed;
  }

  lemma SameOwners(s: State, m: nat, md: Media)
    requires OwnersAreSound(s) && m < |s.medias| && Owned(s, m)
    requires md.isOpen == s.medias[m].isOpen && md.destroyed == s.medias[m].destroyed
    ensures OwnersAreSound(s.(medias := s.medias[m := md]))
  {
    var t := s.(medias := s.medias[m := md]);
    forall k: nat | k < |t.medias| && Owned(t, k)
      ensures Owned(s, k)
    {
    }
  }

  lemma SameHands(s: State, m: nat, md: Media)
    requires ReadersInHand(s) && m < |s.medias|
    requires forall r: nat | r < |md.readers| && md.readers[r].phase.Held? :: InSomeHand(s.clients, m, r)
    ensures ReadersInHand(s.(medias := s.medias[m := md]))
  {
  }

  lemma SameRefs(s: State, m: nat, md: Media)
    requires RefsFit(s) && MediasGood(s) && m < |s.medias| && Good(md)
    ensures var t := s.(medias := s.medias[m := md]); RefsFit(t) && MediasGood(t)
  {
  }

  lemma SameSuits(s: State, m: nat, md: Media)
    requires ClientsSuited(s) && m < |s.medias| && md.key == s.medias[m].key
    ensures ClientsSuited(s.(medias := s.medias[m := md]))
  {
  }

  lemma MediaKeeps(s: State, m: nat, md: Media)
    requires Core(s) && m < |s.medias| && Owned(s, m) && Benign(s.medias[m], md)
    requires forall r: nat | r < |md.readers| && md.readers[r].phase.Held? :: InSomeHand(s.clients, m, r)
    ensures Core(s.(medias := s.medias[m := md]))
  {
    var t := s.(medias := s.medias[m := md]);
    SameRequests(s, t);
    SameRefs(s, m, md);
    SameSuits(s, m, md);
    SameRegistry(s, m, md);
    SameOwners(s, m, md);
    SameHands(s, m, md);
    SameWatch(s, m, md);
  }

  lemma SameWatch(s: State, m: nat, md: Media)
    requires NoIdleLeak(s) && m < |s.medias| && Benign(s.medias[m], md)
    ensures NoIdleLeak(s.(medias := s.medias[m := md]))
  {
    var t := s.(medias := s.medias[m := md]);
    assert forall k | 0 <= k < |s.medias| && Abandoned(t.medias[k]) ::
        Abandoned(s.medias[k]) && Deadline(t.medias[k]) == Deadline(s.medias[k]);
  }

  lemma PreemptedKeepsPhases(m: Media)
    requires LastReaderExists(m)
    ensures |Preempted(m).readers| == |m.readers|
    ensures forall k | 0 <= k < |m.readers| ::
              var rd, rd' := m.readers[k], Preempted(m).readers[k];
              rd'.phase == rd.phase && rd'.notify == rd.notify && rd'.postedAt == rd.postedAt
  {
  }

  lemma NewReaderIsBenign(m: Media, notify: bool, from: int, to: int, seek: SeekOutcome)
    requires Good(m) && m.isOpen && Truthful(m, seek)
    ensures Benign(m, CreateReader(m, notify, from, to, seek).0)
  {
    CreateReaderIsGood(m, notify, from, to, seek);
    CreateReaderShape(m, notify, from, to, seek);
    PreemptedKeepsPhases(m);
    NewReaderLeavesWatch(m, CreateReader(m, notify, from, to, seek).0);
  }

  lemma NewReaderLeavesWatch(m: Media, t: Media)
    requires LastReaderExists(m) && t.isOpen == m.isOpen && t.closed == m.closed && t.timeout == m.timeout
    requires || (t.lastReader == m.lastReader && |t.readers| == |m.readers|
                 && forall k | 0 <= k < |m.readers| ::
                      var rd, rd' := m.readers[k], t.readers[k];
                      rd'.phase == rd.phase && rd'.notify == rd.notify && rd'.postedAt == rd.postedAt)
             || (t.lastReader == Some(|m.readers|) && |m.readers| < |t.readers| && t.readers[|m.readers|].phase.Held?)
    ensures Abandoned(t) ==> Abandoned(m) && Deadline(t) == Deadline(m)
  {
  }

  lemma ReadIsBenign(m: Media, r: nat, want: nat)
    requires Good(m) && r < |m.readers|
    ensures Benign(m, ReadChunk(m, r, want).0)
  {
    ReadChunkIsGood(m, r, want);
  }

  lemma ExpiryIsBenign(m: Media, r: nat)
    requires Good(m) && r < |m.readers|
    ensures Benign(m, InPhase(m, r, Expired))
  {
    InPhaseIsGood(m, r, Expired);
  }

  lemma QueryIsBenign(m: Media, what: UserCall)
    requires Good(m) && m.isOpen && (what.Seekable? || what.Size? || what.MimeType?)
    ensures Benign(m, Logged(m, [what]))
  {
    LoggedIsGood(m, [what]);
  }

  lemma ClientOwns(s: State, c: nat, m: nat)
    requires Core(s) && c < |s.clients| && Holds(s.clients[c], m)
    ensures m < |s.medias| && Owned(s, m) && s.medias[m].isOpen && !s.medias[m].destroyed
  {
  }

  // --- one client changes ---

  /** A client's next state: it refers to the same media or none, and asks for no more. */
  predicate Advances(cl: Client, cl': Client) {
    && (cl'.Holding? ==>
          && (cl.Holding? || (cl.Awaiting? && cl.reply == Some(Some(cl'.m))))
          && (cl.Holding? ==> cl'.m == cl.m)
          && cl'.wish == cl.wish && cl'.nextIdAtCall == cl.nextIdAtCall)
    && (cl'.Streaming? ==> cl.Holding?)
    && (cl'.Finished? ==> cl.Holding? || cl.Streaming? || (cl.Awaiting? && cl.reply.Some?))
    && (cl'.Aborted? ==> cl.Awaiting?)
    && !cl'.Awaiting?
  }

  /** The client gives no held reader out of hand. */
  ghost predicate KeepsReaders(s: State, c: nat, cl: Client)
    requires c < |s.clients|
  {
    forall m: nat, r: nat | m < |s.medias| && r < |s.medias[m].readers| && s.medias[m].readers[r].phase.Held? ::
      HasInHand(s.clients[c], m, r) ==> HasInHand(cl, m, r)
  }

  lemma HandsKept(s: State, c: nat, cl: Client)
    requires ReadersInHand(s) && c < |s.clients| && KeepsReaders(s, c, cl)
    ensures ReadersInHand(s.(clients := s.clients[c := cl]))
  {
    var t := s.(clients := s.clients[c := cl]);
    forall m: nat, r: nat | m < |t.medias| && r < |t.medias[m].readers| && t.medias[m].readers[r].phase.Held?
      ensures InSomeHand(t.clients, m, r)
    {
      assert InSomeHand(s.clients, m, r);
      var d :| 0 <= d < |s.clients| && HasInHand(s.clients[d], m, r);
      assert HasInHand(t.clients[d], m, r);
    }
  }

  lemma AdvanceKeepsOwners(s: State, c: nat, cl: Client)
    requires RefsFit(s) && OwnersAreSound(s) && c < |s.clients| && Advances(s.clients[c], cl)
    ensures var t := s.(clients := s.clients[c := cl]); RefsFit(t) && OwnersAreSound(t)
  {
    var t := s.(clients := s.clients[c := cl]);
    assert forall m: nat | Holds(cl, m) :: Holds(s.clients[c], m);
    forall m: nat | m < |t.medias| && Owned(t, m)
      ensures Owned(s, m)
    {
      if HeldByClient(t.clients, m) {
        var d :| 0 <= d < |t.clients| && Holds(t.clients[d], m);
        assert Holds(s.clients[d], m);
      }
    }
  }

  lemma AdvanceKeepsCalls(s: State, c: nat, cl: Client)
    requires Conserved(s) && ClientsSuited(s) && c < |s.clients| && Advances(s.clients[c], cl)
    ensures var t := s.(clients := s.clients[c := cl]); Conserved(t) && ClientsSuited(t)
  {
    var t := s.(clients := s.clients[c := cl]);
    assert forall d: nat, w: bool :: Pending(t, d, w) == Pending(s, d, w);
    assert forall d | 0 <= d < |s.clients| && d != c :: t.clients[d] == s.clients[d];
    assert forall m: nat | Holds(cl, m) :: Holds(s.clients[c], m);
  }

  lemma AdvanceKeepsMedias(s: State, clients: seq<Client>)
    requires MediasGood(s) && RegistryExact(s) && KeysIncrease(s) && NoIdleLeak(s)
    ensures var t := s.(clients := clients);
            MediasGood(t) && RegistryExact(t) && KeysIncrease(t) && NoIdleLeak(t)
  {
  }

  /** The client's new state owns no more than the old one and is counted alike. */
  lemma ClientKeeps(s: State, c: nat, cl: Client)
    requires Core(s) && c < |s.clients|
    requires Advances(s.clients[c], cl)
    requires KeepsReaders(s, c, cl)
    ensures Core(s.(clients := s.clients[c := cl]))
  {
    AdvanceKeepsOwners(s, c, cl);
    AdvanceKeepsCalls(s, c, cl);
    AdvanceKeepsMedias(s, s.clients[c := cl]);
    HandsKept(s, c, cl);
  }

  // --- a request message is handled ---

  /** The call whose message is being handled still waits, or gave up; it has no other message. */
  lemma HandledCall(s: State, c: nat)
    requires Core(s) && s.handling.Some? && Cost(s.handling.value, c, false) == 1
    ensures c < |s.clients|
    ensures s.clients[c].Aborted? || (s.clients[c].Awaiting? && s.clients[c].reply.None?)
    ensures Pending(s, c, false) == 1 && Total(s.queue, c, false) == 0
  {
  }

  lemma AnswerKeepsClients(s: State, c: nat, media: Option<nat>)
    requires Core(s) && s.handling.Some? && Cost(s.handling.value, c, false) == 1
    requires c < |s.clients| && s.clients[c].Awaiting? && media.Some? ==>
               media.value < |s.medias| && Suits(s.medias[media.value], s.clients[c].wish, s.clients[c].nextIdAtCall)
    ensures c < |s.clients|
    ensures var t := Answer(s, c, media).(handling := None); Conserved(t) && ClientsSuited(t)
  {
    HandledCall(s, c);
    var t := Answer(s, c, media).(handling := None);
    assert forall d | 0 <= d < |s.clients| && d != c :: t.clients[d] == s.clients[d];
    forall d: nat
      ensures Pending(t, d, false) == Pending(s, d, false) - (if d == c then 1 else 0)
    {
    }
  }

  lemma AnswerKeepsOwners(s: State, c: nat, media: Option<nat>)
    requires Core(s) && s.handling.Some? && Cost(s.handling.value, c, false) == 1 && c < |s.clients|
    requires media.Some? ==>
               media.value < |s.medias| && s.medias[media.value].isOpen && !s.medias[media.value].destroyed
    ensures var t := Answer(s, c, media).(handling := None); RefsFit(t) && OwnersAreSound(t)
  {
    var t := Answer(s, c, media).(handling := None);
    assert forall d | 0 <= d < |s.clients| && d != c :: t.clients[d] == s.clients[d];
    forall m: nat | m < |t.medias| && Owned(t, m)
      ensures Owned(s, m) || media == Some(m)
    {
      if HeldByClient(t.clients, m) {
        var d :| 0 <= d < |t.clients| && Holds(t.clients[d], m);
        assert Holds(s.clients[d], m) || media == Some(m);
      }
    }
  }

  lemma AnswerKeeps(s: State, c: nat, media: Option<nat>)
    requires Core(s) && s.handling.Some? && Cost(s.handling.value, c, false) == 1
    requires media.Some? ==>
               media.value < |s.medias| && s.medias[media.value].isOpen && !s.medias[media.value].destroyed
    requires c < |s.clients| && s.clients[c].Awaiting? && media.Some? ==>
               Suits(s.medias[media.value], s.clients[c].wish, s.clients[c].nextIdAtCall)
    ensures c < |s.clients| && Core(Answer(s, c, media).(handling := None))
  {
    HandledCall(s, c);
    AnswerKeepsClients(s, c, media);
    AnswerKeepsOwners(s, c, media);
    var u := Answer(s, c, media);
    if s.clients[c].Awaiting? {
      HandsKept(s, c, u.clients[c]);
    }
    var t := u.(handling := None);
    assert ReadersInHand(t);
    assert NoIdleLeak(t);
  }

  lemma RepostKeeps(s: State, c: nat)
    requires Core(s) && s.looperAlive && s.handling.Some? && Cost(s.handling.value, c, false) == 1
    ensures Core(PostMsg(s, Create(c), 0).(handling := None))
  {
    HandledCall(s, c);
    PostFacts(s, Create(c), 0);
    var t := PostMsg(s, Create(c), 0).(handling := None);
    forall d: nat
      ensures Pending(t, d, false) == Pending(s, d, false)
    {
    }
    assert Conserved(t);
    forall m: nat | m < |t.medias| && Owned(t, m)
      ensures Owned(s, m)
    {
    }
    assert NoIdleLeak(t);
  }

  lemma TouchKeeps(s: State, id: int)
    requires Core(s)
    ensures Core(s.(registry := s.registry[id := if id in s.registry then s.registry[id] else None]))
  {
    var t := s.(registry := s.registry[id := if id in s.registry then s.registry[id] else None]);
    assert forall c: nat, w: bool :: Pending(t, c, w) == Pending(s, c, w);
    assert Conserved(t);
    forall m: nat | m < |t.medias| && Owned(t, m)
      ensures Owned(s, m)
    {
    }
    assert RegistryExact(t);
  }

  lemma GetKeeps(s: State, c: nat, id: int)
    requires Core(s) && s.handling == Some(Get(c, id))
    ensures c < |s.clients| && Core(HandleGet(s, c, id).(handling := None))
  {
    HandledCall(s, c);
    TouchKeeps(s, id);
    var touched := s.(registry := s.registry[id := if id in s.registry then s.registry[id] else None]);
    if Live(s, id).Some? {
      AnswerKeeps(touched, c, Live(s, id));
    } else {
      RepostKeeps(touched, c);
    }
  }

  /** The state with a freshly created media that nobody refers to yet. */
  function Added(s: State, md: Media): State {
    s.(nextId := s.nextId + 1, medias := s.medias + [md],
       registry := if md.isOpen then s.registry[s.nextId + 1 := Some(|s.medias|)] else s.registry)
  }

  lemma AddedIsUnowned(s: State, md: Media)
    requires RefsFit(s) && md.readers == []
    ensures !Owned(Added(s, md), |s.medias|)
  {
    var t := Added(s, md);
    assert !HeldByReader(md);
    assert !Queued(t.queue, WatchDog(|s.medias|)) by {
      assert forall e | e in s.queue :: MsgFits(s, e.msg);
    }
  }

  lemma AddedKeepsOwners(s: State, md: Media)
    requires Core(s) && md.readers == []
    ensures RefsFit(Added(s, md)) && OwnersAreSound(Added(s, md)) && NoIdleLeak(Added(s, md))
  {
    var t := Added(s, md);
    assert forall m | 0 <= m < |s.medias| :: t.medias[m] == s.medias[m];
    AddedIsUnowned(s, md);
    forall m: nat | m < |s.medias| && Owned(t, m)
      ensures Owned(s, m)
    {
    }
  }

  lemma AddedKeepsRegistry(s: State, md: Media)
    requires RegistryExact(s) && KeysIncrease(s) && md.key == s.nextId + 1 && !md.closed && !md.destroyed
    ensures RegistryExact(Added(s, md)) && KeysIncrease(Added(s, md))
  {
    var t := Added(s, md);
    assert forall m | 0 <= m < |s.medias| :: t.medias[m] == s.medias[m];
  }

  lemma AddedKeeps(s: State, md: Media)
    requires Core(s) && Good(md) && md.readers == [] && md.key == s.nextId + 1 && !md.closed && !md.destroyed
    ensures Core(Added(s, md))
  {
    SameRequests(s, Added(s, md));
    AddedKeepsOwners(s, md);
    AddedKeepsRegistry(s, md);
  }

  lemma CreatedKeeps(s: State, c: nat, md: Media)
    requires Core(s) && s.handling == Some(Create(c)) && c < |s.clients|
    requires Good(md) && md.readers == [] && md.key == s.nextId + 1 && !md.closed && !md.destroyed
    ensures Core(Answer(Added(s, md), c, if md.isOpen then Some(|s.medias|) else None).(handling := None))
  {
    AddedKeeps(s, md);
    if s.clients[c].Awaiting? {
      AddedSuits(s, md, c);
    }
    AnswerKeeps(Added(s, md), c, if md.isOpen then Some(|s.medias|) else None);
  }

  lemma CreateKeeps(s: State, c: nat, outcome: Outcome)
    requires Core(s) && s.handling == Some(Create(c))
    ensures c < |s.clients| && Core(HandleCreate(s, c, outcome).(handling := None))
  {
    HandledCall(s, c);
    match outcome
    case NoCreator => AnswerKeeps(s, c, None);
    case NewMedia(content, size, canSeek, timeout, opens) =>
      var md := Opened(s.nextId + 1, content, size, canSeek, timeout, opens);
      OpenedIsGood(s.nextId + 1, content, size, canSeek, timeout, opens);
      CreatedKeeps(s, c, md);
      CreateAdds(s, c, outcome, md);
  }

  lemma CreateAdds(s: State, c: nat, outcome: Outcome, md: Media)
    requires c < |s.clients| && outcome.NewMedia?
    requires md == Opened(s.nextId + 1, outcome.content, outcome.size, outcome.canSeek, outcome.timeout, outcome.opens)
    ensures HandleCreate(s, c, outcome) == Answer(Added(s, md), c, if md.isOpen then Some(|s.medias|) else None)
  {
  }

  lemma AddedSuits(s: State, md: Media, c: nat)
    requires ClientsSuited(s) && c < |s.clients| && s.clients[c].Awaiting? && md.key == s.nextId + 1
    ensures Suits(md, s.clients[c].wish, s.clients[c].nextIdAtCall)
  {
  }

  // --- the watchdog ---

  lemma IdleIsQuiet(md: Media)
    requires Good(md) && IsIdle(md)
    ensures forall r | 0 <= r < |md.readers| :: !md.readers[r].alive
  {
  }

  /** The state once the watchdog has closed m. */
  function Closing(s: State, m: nat): State
    requires m < |s.medias|
  {
    var md := s.medias[m];
    s.(medias := s.medias[m := CloseMedia(md)], registry := s.registry - {md.key}, handling := None)
  }

  lemma ClosingShape(s: State, m: nat)
    requires m < |s.medias|
    ensures var t, md := Closing(s, m), CloseMedia(s.medias[m]);
            && t == s.(medias := t.medias, registry := s.registry - {md.key}, handling := None)
            && |t.medias| == |s.medias| && t.medias[m] == md && md.closed
            && md == s.medias[m].(closed := true, calls := md.calls)
            && (forall k | 0 <= k < |s.medias| && k != m :: t.medias[k] == s.medias[k])
  {
  }

  /** The watchdog's two effects on the registry cancel out: m is closed and unlisted. */
  lemma CloseKeepsRegistry(s: State, m: nat)
    requires RegistryExact(s) && KeysIncrease(s) && m < |s.medias|
    ensures RegistryExact(Closing(s, m)) && KeysIncrease(Closing(s, m))
  {
    ClosingShape(s, m);
    assert forall k | 0 <= k < |s.medias| && k != m :: s.medias[k].key != s.medias[m].key;
  }

  /** Closing or ending a reader gives m no new owner. */
  lemma OwnersAfter(s: State, t: State, m: nat)
    requires OwnersAreSound(s) && m < |s.medias| && Owned(s, m)
    requires |t.medias| == |s.medias| && t.clients == s.clients
    requires forall e | e in t.queue :: e in s.queue || e.msg == WatchDog(m)
    requires t.handling == s.handling || t.handling.None?
    requires forall k | 0 <= k < |s.medias| && k != m :: t.medias[k] == s.medias[k]
    requires t.medias[m].isOpen == s.medias[m].isOpen && t.medias[m].destroyed == s.medias[m].destroyed
    ensures OwnersAreSound(t)
  {
    forall k: nat | k < |t.medias| && Owned(t, k)
      ensures Owned(s, k)
    {
    }
  }

  lemma CloseKeepsClients(s: State, m: nat)
    requires RefsFit(s) && Conserved(s) && ClientsSuited(s) && ReadersInHand(s)
    requires m < |s.medias| && s.handling == Some(WatchDog(m))
    ensures var t := Closing(s, m); RefsFit(t) && Conserved(t) && ClientsSuited(t) && ReadersInHand(t)
  {
    ClosingShape(s, m);
    SameRequests(s, Closing(s, m));
  }

  lemma CloseKeepsWatch(s: State, m: nat)
    requires NoIdleLeak(s) && m < |s.medias| && s.handling == Some(WatchDog(m))
    ensures NoIdleLeak(Closing(s, m))
  {
    ClosingShape(s, m);
  }

  lemma CloseKeeps(s: State, m: nat)
    requires Core(s) && m < |s.medias| && s.handling == Some(WatchDog(m)) && LastReaderExists(s.medias[m])
    requires IsIdle(s.medias[m])
    ensures Core(Closing(s, m))
  {
    assert Owned(s, m);
    IdleIsQuiet(s.medias[m]);
    CloseMediaIsGood(s.medias[m]);
    ClosingShape(s, m);
    OwnersAfter(s, Closing(s, m), m);
    CloseKeepsRegistry(s, m);
    CloseKeepsClients(s, m);
    CloseKeepsWatch(s, m);
  }

  lemma HandledKeeps(s: State)
    requires RefsFit(s) && MediasGood(s) && RegistryExact(s) && KeysIncrease(s) && ClientsSuited(s) && ReadersInHand(s)
    ensures var t := s.(handling := None);
            && RefsFit(t) && MediasGood(t) && RegistryExact(t) && KeysIncrease(t) && ClientsSuited(t)
            && ReadersInHand(t)
  {
  }

  lemma NotAbandoned(s: State, m: nat)
    requires RegistryExact(s) && s.looperAlive && m < |s.medias| && LastReaderExists(s.medias[m])
    requires !IsIdle(s.medias[m]) || s.medias[m].key !in s.registry
    ensures !Abandoned(s.medias[m])
  {
  }

  /** A watchdog that finds its media in use, or unlisted, changes nothing. */
  lemma IgnoredKeeps(s: State, m: nat)
    requires Core(s) && s.handling == Some(WatchDog(m)) && m < |s.medias|
    requires LastReaderExists(s.medias[m]) && (!IsIdle(s.medias[m]) || s.medias[m].key !in s.registry)
    ensures Core(s.(handling := None))
  {
    var t := s.(handling := None);
    assert Owned(s, m);
    NotAbandoned(s, m);
    SameRequests(s, t);
    HandledKeeps(s);
    OwnersAfter(s, t, m);
    WatchDogSpent(s, m);
  }

  /** The watchdog of a media that is in use, or closed, is not missed. */
  lemma WatchDogSpent(s: State, m: nat)
    requires NoIdleLeak(s) && s.handling == Some(WatchDog(m)) && m < |s.medias| && !Abandoned(s.medias[m])
    ensures NoIdleLeak(s.(handling := None))
  {
  }

  lemma WatchDogKeeps(s: State, m: nat)
    requires Core(s) && s.handling == Some(WatchDog(m))
    ensures m < |s.medias| && LastReaderExists(s.medias[m]) && Core(HandleWatchDog(s, m).(handling := None))
  {
    var md := s.medias[m];
    assert Good(md) && Owned(s, m);
    if IsIdle(md) && md.key in s.registry {
      CloseKeeps(s, m);
    } else {
      IgnoredKeeps(s, m);
    }
  }

  // --- a reader ends ---

  lemma EndReaderShape(md: Media, r: nat, now: int)
    requires Good(md) && r < |md.readers| && !md.readers[r].phase.Held? && !md.readers[r].phase.Gone?
    ensures var md' := Destruct(md, r, now);
            && md'.key == md.key && md'.isOpen == md.isOpen && md'.closed == md.closed && md'.destroyed == md.destroyed
            && |md'.readers| == |md.readers|
            && (forall k | 0 <= k < |md.readers| :: md'.readers[k].phase.Held? ==> md.readers[k].phase.Held?)
            && (Abandoned(md') ==> (Abandoned(md) && Deadline(md') == Deadline(md))
                                   || (md.readers[r].phase.Posting?
                                       && Deadline(md') == DueTime(now, md.timeout * 1000)))
  {
  }

  lemma EndReaderIsWatched(s: State, m: nat, r: nat, t: State)
    requires MediasGood(s) && NoIdleLeak(s) && Enabled(s, EndReader(m, r)) && s.looperAlive
    requires t == s.(medias := s.medias[m := Destruct(s.medias[m], r, s.now)], queue := t.queue)
    requires forall x | x in s.queue :: x in t.queue
    requires s.medias[m].readers[r].phase.Posting? ==>
               Event(DueTime(s.now, s.medias[m].timeout * 1000), WatchDog(m)) in t.queue
    ensures NoIdleLeak(t)
  {
    EndReaderShape(s.medias[m], r, s.now);
    forall k: nat | k < |t.medias| && Abandoned(t.medias[k])
      ensures t.handling == Some(WatchDog(k)) || DueBy(t.queue, WatchDog(k), Deadline(t.medias[k]))
    {
      if Abandoned(s.medias[k]) && Deadline(t.medias[k]) == Deadline(s.medias[k]) {
        assert s.handling == Some(WatchDog(k)) || DueBy(s.queue, WatchDog(k), Deadline(s.medias[k]));
      }
    }
  }

  lemma EndReaderKeepsRequests(s: State, m: nat, r: nat, t: State)
    requires Conserved(s) && ClientsSuited(s) && Enabled(s, EndReader(m, r))
    requires t == s.(medias := s.medias[m := Destruct(s.medias[m], r, s.now)], queue := t.queue)
    requires forall x | x in t.queue :: x in s.queue || x.msg == WatchDog(m)
    requires forall c: nat, w: bool :: Pending(t, c, w) == Pending(s, c, w)
    ensures Conserved(t) && ClientsSuited(t)
  {
    assert forall k | 0 <= k < |s.medias| :: t.medias[k].key == s.medias[k].key;
  }

  lemma EndReaderKeepsRefs(s: State, m: nat, r: nat, t: State)
    requires RefsFit(s) && ReadersInHand(s) && MediasGood(s) && Enabled(s, EndReader(m, r))
    requires t == s.(medias := s.medias[m := Destruct(s.medias[m], r, s.now)], queue := t.queue)
    requires forall x | x in t.queue :: x in s.queue || x.msg == WatchDog(m)
    ensures RefsFit(t) && ReadersInHand(t)
  {
    EndReaderShape(s.medias[m], r, s.now);
    SameHands(s, m, Destruct(s.medias[m], r, s.now));
  }

  lemma EndReaderKeepsRegistry(s: State, m: nat, r: nat, t: State)
    requires RegistryExact(s) && KeysIncrease(s) && MediasGood(s) && Enabled(s, EndReader(m, r))
    requires t == s.(medias := s.medias[m := Destruct(s.medias[m], r, s.now)], queue := t.queue)
    ensures RegistryExact(t) && KeysIncrease(t)
  {
    EndReaderShape(s.medias[m], r, s.now);
    assert forall k | 0 <= k < |s.medias| ::
        t.medias[k].key == s.medias[k].key && t.medias[k].isOpen == s.medias[k].isOpen
        && t.medias[k].closed == s.medias[k].closed && t.medias[k].destroyed == s.medias[k].destroyed;
  }

  /** The queue after a part of a destructor, and what it leaves alone. */
  lemma EndReaderQueue(s: State, m: nat, r: nat)
    requires Conserved(s) && Enabled(s, EndReader(m, r))
    ensures var t := Move(s, EndReader(m, r));
            && t == s.(medias := s.medias[m := Destruct(s.medias[m], r, s.now)], queue := t.queue)
            && (forall x | x in t.queue :: x in s.queue || x.msg == WatchDog(m))
            && (forall x | x in s.queue :: x in t.queue)
            && (forall c: nat, w: bool :: Pending(t, c, w) == Pending(s, c, w))
            && (s.looperAlive && s.medias[m].readers[r].phase.Posting? ==>
                  Event(DueTime(s.now, s.medias[m].timeout * 1000), WatchDog(m)) in t.queue)
  {
    var md := s.medias[m];
    var u := s.(medias := s.medias[m := Destruct(md, r, s.now)]);
    SameRequests(s, u);
    if md.readers[r].phase.Posting? && s.looperAlive {
      PostFacts(u, WatchDog(m), md.timeout * 1000);
    }
  }

  lemma EndReaderKeepsMedias(s: State, m: nat, r: nat, t: State)
    requires MediasGood(s) && Enabled(s, EndReader(m, r))
    requires t.medias == s.medias[m := Destruct(s.medias[m], r, s.now)]
    ensures MediasGood(t)
    ensures t.medias[m].isOpen == s.medias[m].isOpen && t.medias[m].destroyed == s.medias[m].destroyed
  {
    DestructIsGood(s.medias[m], r, s.now);
    EndReaderShape(s.medias[m], r, s.now);
  }

  lemma EndReaderKeeps(s: State, m: nat, r: nat)
    requires Inv(s) && Enabled(s, EndReader(m, r))
    ensures Core(Move(s, EndReader(m, r)))
  {
    var t := Move(s, EndReader(m, r));
    assert Owned(s, m) by {
      assert HeldByReader(s.medias[m]);
    }
    EndReaderQueue(s, m, r);
    EndReaderKeepsMedias(s, m, r, t);
    EndReaderKeepsRequests(s, m, r, t);
    EndReaderKeepsRefs(s, m, r, t);
    OwnersAfter(s, t, m);
    EndReaderKeepsRegistry(s, m, r, t);
    if s.looperAlive {
      EndReaderIsWatched(s, m, r, t);
    }
  }

  lemma TeardownKeeps(s: State)
    requires Inv(s) && Enabled(s, Teardown)
    ensures Core(Move(s, Teardown))
  {
    var t := Move(s, Teardown);
    forall c: nat ensures Pending(t, c, false) == 0 {
    }
    forall m: nat | m < |t.medias| && Owned(t, m)
      ensures Owned(s, m)
    {
    }
  }

  lemma HandleKeeps(s: State, outcome: Outcome)
    requires Inv(s) && Enabled(s, Handle(outcome))
    ensures Core(Move(s, Handle(outcome)))
  {
    match s.handling.value
    case Get(c, id) => GetKeeps(s, c, id);
    case Create(c) => CreateKeeps(s, c, outcome);
    case WatchDog(m) => WatchDogKeeps(s, m);
  }

  lemma ReturnedAdvances(cl: Client)
    requires cl.Holding?
    ensures Advances(cl, Returned(cl))
    ensures forall m: nat, r: nat | HasInHand(cl, m, r) :: HasInHand(Returned(cl), m, r)
  {
  }

  lemma ReceivedAdvances(cl: Client)
    requires cl.Awaiting? && cl.reply.Some?
    ensures Advances(cl, Received(cl))
  {
  }

  lemma ClientStepKeeps(s: State, step: Step)
    requires Inv(s) && Enabled(s, step) && (step.Receive? || step.Abort? || step.EndHandle?)
    ensures Core(Move(s, step))
  {
    match step
    case Receive(c) =>
      ReceivedAdvances(s.clients[c]);
      ClientKeeps(s, c, Received(s.clients[c]));
    case Abort(c) => ClientKeeps(s, c, Aborted);
    case EndHandle(c) =>
      ReturnedAdvances(s.clients[c]);
      ClientKeeps(s, c, Returned(s.clients[c]));
  }

  /** The client's part of a step with the media in its hand. */
  function Staged(s: State, c: nat, stage: Stage): State
    requires c < |s.clients| && s.clients[c].Holding?
  {
    s.(clients := s.clients[c := s.clients[c].(stage := stage)])
  }

  lemma StageKeeps(s: State, c: nat, stage: Stage)
    requires Core(s) && c < |s.clients| && s.clients[c].Holding?
    requires StageReader(s.clients[c].stage).None? || StageReader(stage) == StageReader(s.clients[c].stage)
    ensures var m, u := s.clients[c].m, Staged(s, c, stage);
            Core(u) && m < |s.medias| && u.medias == s.medias && Owned(u, m) && Good(s.medias[m]) && s.medias[m].isOpen
  {
    var cl, u := s.clients[c], Staged(s, c, stage);
    ClientKeeps(s, c, cl.(stage := stage));
    assert Holds(u.clients[c], cl.m);
    ClientOwns(u, c, cl.m);
  }

  lemma LoggedKeeps(s: State, m: nat, what: UserCall)
    requires Core(s) && m < |s.medias| && Owned(s, m) && s.medias[m].isOpen
    requires what.Seekable? || what.Size? || what.MimeType?
    ensures Core(s.(medias := s.medias[m := Logged(s.medias[m], [what])]))
  {
    QueryIsBenign(s.medias[m], what);
    MediaKeeps(s, m, Logged(s.medias[m], [what]));
  }

  lemma QueryKeeps(s: State, c: nat)
    requires Inv(s) && Enabled(s, Query(c))
    ensures Core(Move(s, Query(c)))
  {
    var cl := s.clients[c];
    var stage := NextStage(cl.stage, s.medias[cl.m].canSeek);
    StageKeeps(s, c, stage);
    LoggedKeeps(Staged(s, c, stage), cl.m, StageCall(cl.stage).value);
  }

  /** Once the client has the new reader in hand, all held readers are in hand. */
  lemma NewReaderInHand(s: State, c: nat, m: nat, notify: bool, from: int, to: int, seek: SeekOutcome)
    requires ReadersInHand(s) && c < |s.clients| && m < |s.medias| && LastReaderExists(s.medias[m])
    requires var r := CreateReader(s.medias[m], notify, from, to, seek).1;
             r.Some? ==> HasInHand(s.clients[c], m, r.value)
    ensures var md := CreateReader(s.medias[m], notify, from, to, seek).0;
            forall k: nat | k < |md.readers| && md.readers[k].phase.Held? :: InSomeHand(s.clients, m, k)
  {
    CreateReaderShape(s.medias[m], notify, from, to, seek);
    var (md, r) := CreateReader(s.medias[m], notify, from, to, seek);
    forall k: nat | k < |md.readers| && md.readers[k].phase.Held?
      ensures InSomeHand(s.clients, m, k)
    {
      if k < |s.medias[m].readers| {
        assert md.readers[k] == Preempted(s.medias[m]).readers[k];
        assert s.medias[m].readers[k].phase.Held?;
      }
    }
  }

  lemma NewReaderKeeps(s: State, c: nat, notify: bool, from: int, to: int, seek: SeekOutcome)
    requires Inv(s) && Enabled(s, NewReader(c, notify, from, to, seek))
    ensures Core(Move(s, NewReader(c, notify, from, to, seek)))
  {
    var m, stage := s.clients[c].m, Served(CreateReader(s.medias[s.clients[c].m], notify, from, to, seek).1);
    StageKeeps(s, c, stage);
    MadeKeeps(Staged(s, c, stage), c, m, notify, from, to, seek);
  }

  lemma MadeKeeps(s: State, c: nat, m: nat, notify: bool, from: int, to: int, seek: SeekOutcome)
    requires Core(s) && c < |s.clients| && m < |s.medias| && Owned(s, m)
    requires Good(s.medias[m]) && s.medias[m].isOpen && Truthful(s.medias[m], seek)
    requires var r := CreateReader(s.medias[m], notify, from, to, seek).1;
             r.Some? ==> HasInHand(s.clients[c], m, r.value)
    ensures Core(s.(medias := s.medias[m := CreateReader(s.medias[m], notify, from, to, seek).0]))
  {
    NewReaderIsBenign(s.medias[m], notify, from, to, seek);
    NewReaderInHand(s, c, m, notify, from, to, seek);
    MediaKeeps(s, m, CreateReader(s.medias[m], notify, from, to, seek).0);
  }

  lemma ReadKeeps(s: State, c: nat, want: nat)
    requires Inv(s) && Enabled(s, ReadFrom(c, want))
    ensures Core(Move(s, ReadFrom(c, want)))
  {
    var cl := s.clients[c];
    assert HeldByReader(s.medias[cl.m]) by {
      assert !s.medias[cl.m].readers[cl.r].phase.Gone?;
    }
    ReadIsBenign(s.medias[cl.m], cl.r, want);
    MediaKeeps(s, cl.m, ReadChunk(s.medias[cl.m], cl.r, want).0);
  }

  lemma DropKeeps(s: State, c: nat)
    requires Inv(s) && Enabled(s, DropReader(c))
    ensures Core(Move(s, DropReader(c)))
  {
    var cl := s.clients[c];
    var md := InPhase(s.medias[cl.m], cl.r, Expired);
    assert HeldByReader(s.medias[cl.m]) by {
      assert !s.medias[cl.m].readers[cl.r].phase.Gone?;
    }
    ExpiryIsBenign(s.medias[cl.m], cl.r);
    MediaKeeps(s, cl.m, md);
    ClientKeeps(s.(medias := s.medias[cl.m := md]), c, Finished);
  }

  lemma QuietStepKeeps(s: State, t: State)
    requires Inv(s)
    requires t == s.(now := t.now, run := t.run) && (t.run ==> s.run)
    ensures Core(t)
  {
    forall c: nat ensures Pending(t, c, false) == Pending(s, c, false) {
    }
    forall m: nat | m < |t.medias| && Owned(t, m)
      ensures Owned(s, m)
    {
    }
  }

  lemma MoveKeeps(s: State, step: Step)
    requires Inv(s) && Enabled(s, step)
    ensures Core(Move(s, step))
  {
    match step {
      case Tick(_) => QuietStepKeeps(s, Move(s, step));
      case Stop => QuietStepKeeps(s, Move(s, step));
      case Call(wish) => CallKeeps(s, wish);
      case Pop => PopKeeps(s);
      case Handle(outcome) => HandleKeeps(s, outcome);
      case Receive(_) => ClientStepKeeps(s, step);
      case Abort(_) => ClientStepKeeps(s, step);
      case EndHandle(_) => ClientStepKeeps(s, step);
      case Query(c) => QueryKeeps(s, c);
      case NewReader(c, notify, from, to, seek) => NewReaderKeeps(s, c, notify, from, to, seek);
      case ReadFrom(c, want) => ReadKeeps(s, c, want);
      case DropReader(c) => DropKeeps(s, c);
      case EndReader(m, r) => EndReaderKeeps(s, m, r);
      case Teardown => TeardownKeeps(s);
    }
  }

  lemma StepKeeps(s: State, step: Step)
    requires Inv(s) && Enabled(s, step)
    ensures Inv(Apply(s, step))
  {
    MoveKeeps(s, step);
    CollectKeeps(Move(s, step));
  }

  lemma {:induction false} InvExec(s: State, steps: seq<Step>)
    requires Inv(s) && Legal(s, steps)
    ensures Inv(Exec(s, steps))
    decreases |steps|
  {
    if steps != [] {
      StepKeeps(s, steps[0]);
      InvExec(Apply(s, steps[0]), steps[1..]);
    }
  }
}
