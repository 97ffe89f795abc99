/** The two models of a request's handler agree: the stages of a session's request
    (src/http_server.cpp:84-178) make the user calls of the response that is computed. */
module HandlerCalls {
  import opened Prelude
  import opened MediaModel
  import Sessions
  import Responses

  /** How many calls a stage can still make without creating a reader. */
  function Ahead(stage: Sessions.Stage): nat {
    match stage
    case Greeting => 1
    case Typing(_) => 4
    case Probing(_) => 3
    case Sizing(_) => 2
    case Ranging(_) => 1
    case _ => 0
  }

  /** The calls from a stage on, up to createReader or to the end. */
  function CallsFrom(stage: Sessions.Stage, canSeek: bool): seq<UserCall>
    decreases Ahead(stage)
  {
    match Sessions.StageCall(stage)
    case None => []
    case Some(call) => [call] + CallsFrom(Sessions.NextStage(stage, canSeek), canSeek)
  }

  /** A request greets its media, creates a reader, and then asks what its response needs. */
  lemma StagesAgree(m: Media, from: int, to: int, seek: SeekOutcome)
    requires Responses.Consistent(m) && Truthful(m, seek)
    ensures CallsFrom(Sessions.Greeting, m.canSeek) == [Seekable]
    ensures Sessions.NextStage(Sessions.Greeting, m.canSeek) == Sessions.Creating
    ensures var (t, r) := CreateReader(m, true, from, to, seek);
            t.calls + CallsFrom(Sessions.Served(r), m.canSeek) == m.calls + Responses.RequestCalls(m, from, to, seek)
  {
    var (t, r) := CreateReader(m, true, from, to, seek);
    Responses.GrantedReader(m, from, to, seek);
    Responses.AllCalls(m, from, to, seek);
    StageCalls(r, m.canSeek);
    assert r.None? ==> t.calls + [] == t.calls;
  }

  lemma StageCalls(r: Option<nat>, canSeek: bool)
    ensures CallsFrom(Sessions.Served(r), canSeek) == if r.Some? then Responses.CallsAfter(canSeek) else []
  {
    if r.Some? {
      assert CallsFrom(Sessions.Answered(r), canSeek) == [];
      var last := CallsFrom(Sessions.Ranging(r.value), canSeek);
      assert last == [Size];
      assert CallsFrom(Sessions.Sizing(r.value), canSeek) == [Size] + last;
      var probing := CallsFrom(Sessions.Probing(r.value), canSeek);
      assert probing == if canSeek then [Seekable] + ([Size] + last) else [Seekable];
      assert CallsFrom(Sessions.Typing(r.value), canSeek) == [MimeType] + probing;
    }
  }
}
