/** The timed queue of `ALooper` (src/aloop.cpp): due times, the insertion scan of
    `post` and the critical section of `loop`. */
module EventQueue {
  import opened Prelude

  datatype Event<+M> = Event(when: int, msg: M)

  /** What the locked part of `loop` decides to do. */
  datatype Decision<+M> = Leave | WaitForever | WaitUntil(deadline: int) | Deliver(event: Event<M>)

  ghost predicate SortedByTime<M>(es: seq<Event<M>>) {
    forall i, j | 0 <= i < j < |es| :: es[i].when <= es[j].when
  }

  /** The events due at exactly t, in their order of appearance. */
  function AtTime<M>(es: seq<Event<M>>, t: int): seq<Event<M>> {
    if es == [] then [] else (if es[0].when == t then [es[0]] else []) + AtTime(es[1..], t)
  }

  /** out is posts sorted by due time, equal times kept in posting order. */
  ghost predicate IsStableSort<M>(out: seq<Event<M>>, posts: seq<Event<M>>) {
    SortedByTime(out) && forall t :: AtTime(out, t) == AtTime(posts, t)
  }

  /** The queue after the scan-and-insert of `post`. */
  function Insert<M>(q: seq<Event<M>>, e: Event<M>): seq<Event<M>> {
    if q == [] || q[0].when > e.when then [e] + q else [q[0]] + Insert(q[1..], e)
  }

  /** The due time `post` computes. */
  function DueTime(now: int, delayUs: int): int {
    if delayUs > 0 then now + delayUs else now
  }

  function Decide<M>(run: bool, q: seq<Event<M>>, now: int): Decision<M> {
    if !run then Leave
    else if q == [] then WaitForever
    else if q[0].when > now then WaitUntil(q[0].when)
    else Deliver(q[0])
  }

  // ---------- the specification means what it says ----------

  lemma Head<T>(a: seq<T>, b: seq<T>)
    requires a != []
    ensures (a + b)[0] == a[0] && (a + b)[1..] == a[1..] + b
  {
  }

  lemma AtTimeCons<M>(es: seq<Event<M>>, t: int)
    requires es != []
    ensures AtTime(es, t) == (if es[0].when == t then [es[0]] else []) + AtTime(es[1..], t)
  {
  }

  lemma {:induction false} AtTimeAppend<M>(a: seq<Event<M>>, b: seq<Event<M>>, t: int)
    ensures AtTime(a + b, t) == AtTime(a, t) + AtTime(b, t)
  {
    if a == [] {
      assert a + b == b;
    } else {
      AtTimeAppend(a[1..], b, t);
      AtTimeCons(a, t);
      AtTimeCons(a + b, t);
      Head(a, b);
      Assoc(if a[0].when == t then [a[0]] else [], AtTime(a[1..], t), AtTime(b, t));
    }
  }

  lemma {:induction false} AtTimeCounts<M>(es: seq<Event<M>>, e: Event<M>)
    ensures multiset(es)[e] == multiset(AtTime(es, e.when))[e]
  {
    if es != [] {
      assert es == [es[0]] + es[1..];
      AtTimeCounts(es[1..], e);
    }
  }

  /** A stable sort is a permutation of the posts ... */
  lemma StableSortIsPermutation<M>(out: seq<Event<M>>, posts: seq<Event<M>>)
    requires IsStableSort(out, posts)
    ensures multiset(out) == multiset(posts)
  {
    forall e: Event<M>
      ensures multiset(out)[e] == multiset(posts)[e]
    {
      AtTimeCounts(out, e);
      AtTimeCounts(posts, e);
    }
  }

  lemma {:induction false} AtTimeNonEmpty<M>(es: seq<Event<M>>, i: nat)
    requires i < |es|
    ensures AtTime(es, es[i].when) != []
  {
    if i > 0 {
      AtTimeNonEmpty(es[1..], i - 1);
    }
  }

  lemma {:induction false} AtTimeMember<M>(es: seq<Event<M>>, t: int) returns (i: nat)
    requires AtTime(es, t) != []
    ensures i < |es| && es[i].when == t
  {
    if es[0].when == t {
      i := 0;
    } else {
      i := AtTimeMember(es[1..], t);
      i := i + 1;
    }
  }

  /** ... and there is only one. */
  lemma {:induction false} StableSortIsUnique<M>(a: seq<Event<M>>, b: seq<Event<M>>, posts: seq<Event<M>>)
    requires IsStableSort(a, posts) && IsStableSort(b, posts)
    ensures a == b
  {
    SameTimesSameOrder(a, b);
  }

  lemma AtTimeTail<M>(es: seq<Event<M>>, t: int)
    requires es != []
    ensures es[0].when == t ==> AtTime(es, t) != [] && AtTime(es, t)[1..] == AtTime(es[1..], t)
    ensures es[0].when != t ==> AtTime(es, t) == AtTime(es[1..], t)
  {
  }

  lemma {:induction false} SameTimesSameOrder<M>(a: seq<Event<M>>, b: seq<Event<M>>)
    requires SortedByTime(a) && SortedByTime(b)
    requires forall t :: AtTime(a, t) == AtTime(b, t)
    ensures a == b
  {
    if a == [] {
    } else {
      AtTimeNonEmpty(a, 0);
      var i := AtTimeMember(b, a[0].when);
      AtTimeNonEmpty(b, 0);
      var j := AtTimeMember(a, b[0].when);
      assert a[0].when == b[0].when;
      assert AtTime(a, a[0].when)[0] == AtTime(b, a[0].when)[0];
      forall t
        ensures AtTime(a[1..], t) == AtTime(b[1..], t)
      {
        AtTimeTail(a, t);
        AtTimeTail(b, t);
        assert AtTime(a, t) == AtTime(b, t);
      }
      SameTimesSameOrder(a[1..], b[1..]);
    }
  }

  // ---------- insertion ----------

  lemma {:induction false} LaterThan<M>(q: seq<Event<M>>, t: int)
    requires forall i | 0 <= i < |q| :: q[i].when > t
    ensures AtTime(q, t) == []
  {
    if q != [] {
      LaterThan(q[1..], t);
    }
  }

  lemma {:induction false} InsertMembers<M>(q: seq<Event<M>>, e: Event<M>, x: Event<M>)
    ensures multiset(Insert(q, e)) == multiset(q) + multiset{e}
    ensures x in Insert(q, e) <==> x == e || x in q
  {
    if q == [] || q[0].when > e.when {
    } else {
      InsertMembers(q[1..], e, x);
      assert q == [q[0]] + q[1..];
      assert Insert(q, e) == [q[0]] + Insert(q[1..], e);
    }
    assert x in multiset(Insert(q, e)) <==> x in multiset(q) + multiset{e};
  }

  lemma InsertElements<M(!new)>(q: seq<Event<M>>, e: Event<M>, r: seq<Event<M>>)
    requires r == Insert(q, e)
    ensures forall x :: x in r <==> x == e || x in q
  {
    forall x
      ensures x in r <==> x == e || x in q
    {
      InsertMembers(q, e, x);
    }
  }

  lemma {:induction false} InsertSorted<M>(q: seq<Event<M>>, e: Event<M>)
    requires SortedByTime(q)
    ensures SortedByTime(Insert(q, e))
  {
    if q == [] || q[0].when > e.when {
    } else {
      InsertSorted(q[1..], e);
      var tail := Insert(q[1..], e);
      forall j | 0 <= j < |tail|
        ensures q[0].when <= tail[j].when
      {
        InsertMembers(q[1..], e, tail[j]);
      }
    }
  }

  lemma {:induction false} InsertAtTime<M>(q: seq<Event<M>>, e: Event<M>, t: int)
    requires SortedByTime(q)
    ensures AtTime(Insert(q, e), t) == AtTime(q + [e], t)
  {
    AtTimeAppend(q, [e], t);
    if q == [] {
    } else if q[0].when > e.when {
      AtTimeAppend([e], q, t);
      if t == e.when {
        LaterThan(q, t);
      }
    } else {
      InsertAtTime(q[1..], e, t);
      AtTimeAppend(q[1..], [e], t);
      assert AtTime(Insert(q, e), t) == (if q[0].when == t then [q[0]] else []) + AtTime(Insert(q[1..], e), t) by {
        assert Insert(q, e)[1..] == Insert(q[1..], e);
      }
    }
  }

  /** Inserting keeps a queue the stable sort of everything posted so far. */
  lemma InsertKeepsStableSort<M>(out: seq<Event<M>>, posts: seq<Event<M>>, e: Event<M>)
    requires IsStableSort(out, posts)
    ensures IsStableSort(Insert(out, e), posts + [e])
  {
    InsertSorted(out, e);
    forall t
      ensures AtTime(Insert(out, e), t) == AtTime(posts + [e], t)
    {
      InsertAtTime(out, e, t);
      AtTimeAppend(out, [e], t);
      AtTimeAppend(posts, [e], t);
    }
  }

  /** Events that are no later than e do not take part in the scan. */
  lemma {:induction false} InsertAfterPrefix<M>(prefix: seq<Event<M>>, q: seq<Event<M>>, e: Event<M>)
    requires forall i | 0 <= i < |prefix| :: prefix[i].when <= e.when
    ensures Insert(prefix + q, e) == prefix + Insert(q, e)
  {
    if prefix == [] {
      assert prefix + q == q;
    } else {
      assert (prefix + q)[1..] == prefix[1..] + q;
      InsertAfterPrefix(prefix[1..], q, e);
      assert prefix == [prefix[0]] + prefix[1..];
    }
  }

  /** Inserting where the scan of `post` stops is the stable insertion. */
  lemma ScanInserts<M>(q: seq<Event<M>>, it: nat, e: Event<M>)
    requires SortedByTime(q) && it <= |q|
    requires (forall i | 0 <= i < it :: q[i].when <= e.when) && (it < |q| ==> q[it].when > e.when)
    ensures q[..it] + [e] + q[it..] == Insert(q, e)
    ensures IsStableSort(Insert(q, e), q + [e])
  {
    assert q == q[..it] + q[it..];
    InsertAfterPrefix(q[..it], q[it..], e);
    InsertKeepsStableSort(q, q, e);
  }

  /** The lock-protected state of the looper. The clock is a parameter of every
      critical section that samples it. */
  class ALooper<M> {
    var mRun: bool
    var mEventQueue: seq<Event<M>>

    constructor ()
      ensures !mRun && mEventQueue == []
    {
      mRun := false;
      mEventQueue := [];
    }

    /** Returns whether the queue's condition variable is notified. */
    method Post(msg: M, delayUs: int, nowUs: int) returns (notified: bool)
      requires SortedByTime(mEventQueue)
      modifies this`mEventQueue
      ensures mEventQueue == Insert(old(mEventQueue), Event(DueTime(nowUs, delayUs), msg))
      ensures IsStableSort(mEventQueue, old(mEventQueue) + [Event(DueTime(nowUs, delayUs), msg)])
      ensures notified <==> old(mEventQueue) == [] || old(mEventQueue)[0].when > DueTime(nowUs, delayUs)
    {
      var whenUs: int;
      if delayUs > 0 {
        whenUs := nowUs + delayUs;
      } else {
        whenUs := nowUs;
      }
      var it := 0;
      while it != |mEventQueue| && mEventQueue[it].when <= whenUs
        invariant 0 <= it <= |mEventQueue|
        invariant forall i | 0 <= i < it :: mEventQueue[i].when <= whenUs
        decreases |mEventQueue| - it
      {
        it := it + 1;
      }
      var event := Event(whenUs, msg);
      notified := it == 0;
      ScanInserts(mEventQueue, it, event);
      mEventQueue := mEventQueue[..it] + [event] + mEventQueue[it..];
    }

    /** The section of `loop` under mLock: only a due event leaves the queue. */
    method LoopSection(nowUs: int) returns (d: Decision<M>)
      modifies this`mEventQueue
      ensures d == Decide(mRun, old(mEventQueue), nowUs)
      ensures d.Deliver? ==> d.event.when <= nowUs && [d.event] + mEventQueue == old(mEventQueue)
      ensures !d.Deliver? ==> mEventQueue == old(mEventQueue)
    {
      if !mRun {
        return Leave;
      }
      if mEventQueue == [] {
        return WaitForever;
      }
      var whenUs := mEventQueue[0].when;
      if whenUs > nowUs {
        return WaitUntil(whenUs);
      }
      d := Deliver(mEventQueue[0]);
      mEventQueue := mEventQueue[1..];
    }

    /** The first section of `stop`; false is INVALID_OPERATION. */
    method ClearRun() returns (ok: bool)
      modifies this`mRun
      ensures ok == old(mRun) && !mRun
    {
      if !mRun {
        return false;
      }
      mRun := false;
      return true;
    }
  }
}
