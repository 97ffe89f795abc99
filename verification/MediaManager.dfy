/** `MediaManager::onMessageReceived` (src/media_manager.cpp), proved against the
    session model. */
module MediaManagers {
  import opened Prelude
  import opened EventQueue
  import opened MediaModel
  import opened Sessions

  ghost function Views(medias: seq<ReadMedia>): (views: seq<Media>)
    reads medias
    ensures |views| == |medias| && forall i | 0 <= i < |views| :: views[i] == medias[i].View()
  {
    seq(|medias|, i requires 0 <= i < |medias| reads medias => medias[i].View())
  }

  lemma OneMore(before: seq<Media>, after: seq<Media>, md: Media)
    requires |after| == |before| + 1 && after[|before|] == md
    requires forall i | 0 <= i < |before| :: after[i] == before[i]
    ensures after == before + [md]
  {
  }

  lemma OneChanged(before: seq<Media>, after: seq<Media>, m: nat, md: Media)
    requires m < |before| == |after| && after[m] == md
    requires forall i | 0 <= i < |before| && i != m :: after[i] == before[i]
    ensures after == before[m := md]
  {
  }

  ghost predicate Distinct(medias: seq<ReadMedia>) {
    forall i, j | 0 <= i < j < |medias| :: medias[i] != medias[j]
  }

  /** The manager with the looper it runs on and the calls that wait for it. */
  class MediaManager {
    var mMedias: map<int, Option<nat>>
    var mNextId: int
    var looper: ALooper<Msg>
    var looperAlive: bool
    var now: int
    var clients: seq<Client>
    var medias: seq<ReadMedia>                       // every media made, the live ones among them

    ghost function View(): State
      reads this, looper, medias
    {
      State(now, looper.mRun, looperAlive, looper.mEventQueue, None, clients, mMedias, mNextId, Views(medias))
    }

    constructor (now: int)
      ensures View() == Init(now).(run := false) && fresh(looper) && medias == []
    {
      mMedias, mNextId, looperAlive, this.now, clients, medias := map[], 0, true, now, [], [];
      looper := new ALooper();
    }

    /** senderAwaitsResponse and postReply. */
    method PostReply(c: nat, media: Option<nat>)
      requires c < |clients|
      modifies this`clients
      ensures View() == Answer(old(View()), c, media)
    {
      if clients[c].Awaiting? {
        clients := clients[c := clients[c].(reply := Some(media))];
      }
    }

    /** `mMedias[id].lock()`: looks the entry up and inserts a null one if there is none. */
    method Lock(id: int) returns (media: Option<nat>)
      modifies this`mMedias
      ensures media == Live(old(View()), id)
      ensures View() == old(View()).(registry :=
                          old(mMedias)[id := if id in old(mMedias) then old(mMedias)[id] else None])
    {
      if id !in mMedias {
        mMedias := mMedias[id := None];
      } else {
        assert mMedias == mMedias[id := mMedias[id]];
      }
      media := mMedias[id];
      if media.Some? && (media.value >= |medias| || medias[media.value].mGone) {
        media := None;
      }
    }

    /** The watchdog's part: the media is asked whether it is idle. */
    method OnWatchDog(m: nat)
      requires m < |medias| && Distinct(medias) && LastReaderExists(medias[m].View())
      modifies this`mMedias, medias[m]
      ensures var md := old(medias[m].View());
              var closes := IsIdle(md) && md.key in old(mMedias);
              && Views(medias) == old(Views(medias))[m := if closes then CloseMedia(md) else md]
              && mMedias == if closes then old(mMedias) - {md.key} else old(mMedias)
    {
      var media := medias[m];
      ghost var before := Views(medias);
      var idle := media.isIdle();
      if idle && media.mId in mMedias {
        media.close();
        mMedias := mMedias - {media.mId};
      }
      OneChanged(before, Views(medias), m, media.View());
    }

    /** The factory made a media: it gets the next id, is opened, and is listed if that worked. */
    method AddMedia(content: seq<byte>, size: int, canSeek: bool, timeout: int, opens: bool)
      returns (answer: Option<nat>)
      requires Distinct(medias)
      modifies this`mMedias, this`mNextId, this`medias
      ensures Distinct(medias) && old(medias) <= medias && forall i | |old(medias)| <= i < |medias| :: fresh(medias[i])
      ensures mNextId == old(mNextId) + 1
      ensures Views(medias) == old(Views(medias)) + [Opened(mNextId, content, size, canSeek, timeout, opens)]
      ensures answer == if opens then Some(|old(medias)|) else None
      ensures mMedias == if opens then old(mMedias)[mNextId := answer] else old(mMedias)
    {
      ghost var before := Views(medias);
      mNextId := mNextId + 1;
      var id := mNextId;
      var media := new ReadMedia(id, content, size, canSeek, timeout, opens);
      medias := medias + [media];
      OneMore(before, Views(medias), media.View());
      answer := None;
      if media.mOpened {
        answer := Some(|medias| - 1);
        mMedias := mMedias[id := answer];
      }
    }

    /** The create request's part. */
    method OnCreate(c: nat, outcome: Outcome)
      requires c < |clients| && Distinct(medias)
      modifies this`mMedias, this`mNextId, this`clients, this`medias
      ensures Distinct(medias) && old(medias) <= medias && forall i | |old(medias)| <= i < |medias| :: fresh(medias[i])
      ensures View() == HandleCreate(old(View()), c, outcome)
    {
      var answer: Option<nat> := None;
      match outcome {
        case NoCreator =>
        case NewMedia(content, size, canSeek, timeout, opens) =>
          answer := AddMedia(content, size, canSeek, timeout, opens);
      }
      PostReply(c, answer);
    }

    method OnMessageReceived(msg: Msg, outcome: Outcome)
      requires CanHandle(View(), msg) && SortedByTime(looper.mEventQueue) && Distinct(medias)
      modifies this`mMedias, this`mNextId, this`clients, this`medias, looper, medias
      ensures looper == old(looper) && SortedByTime(looper.mEventQueue)
      ensures Distinct(medias) && old(medias) <= medias && forall i | |old(medias)| <= i < |medias| :: fresh(medias[i])
      ensures View() == HandleMsg(old(View()), msg, outcome)
    {
      match msg
      case WatchDog(m) => OnWatchDog(m);
      case Create(c) => OnCreate(c, outcome);
      case Get(c, id) =>
        var media := Lock(id);
        if media.Some? {
          PostReply(c, media);
        } else if looperAlive {
          var notified := looper.Post(Create(c), 0, now);
          InsertSorted(old(looper.mEventQueue), Event(now, Create(c)));
        }
    }
  }
}
