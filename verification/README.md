# xport: verification models

xport serves user-defined media over HTTP. This project models its message looper, its
media sessions, its byte-exact streaming and the text codecs of its HTTP library, and
proves what they promise. `dafny verify dfyconfig.toml` checks everything.

## How it is organised

| file | what it models |
|---|---|
| `Prelude.dfy`, `Numerals.dfy` | shared vocabulary; numbers in base 10 and 16 |
| `EventQueue.dfy` | the timed event queue of `ALooper`, refined to a stable sort |
| `LooperProtocol.dfy`, `LooperProgress.dfy` | looper thread, posters, awaiters and the stopper as a transition system; what each of them can count on |
| `MessageTable.dfy` | the item table of `AMessage`, with every heap allocation accounted for |
| `MediaModel.dfy` | one media and its readers: clamping, pre-emption, shared cursor, close |
| `Sessions.dfy` | media sessions on the looper: requests, watchdogs, owners, the id map |
| `SessionTheorems.dfy` | what the session model guarantees over whole runs |
| `AnsweredCalls.dfy`, `SessionAnswers.dfy` | that a waiting call is answered, and with what |
| `SessionRequests.dfy` | that a request reads its media and comes to its end |
| `IdleTimeouts.dfy`, `IdleExample.dfy` | when an idle media is closed |
| `AfterClose.dfy`, `AfterCloseExample.dfy` | when a user method is called after `close` |
| `MediaManager.dfy` | `MediaManager::onMessageReceived` on its media objects, proved against the session model |
| `Chunked.dfy`, `ChunkedErrors.dfy` | chunked framing: the writer, the reader with its 16-byte line buffer, and what it makes of cut or malformed streams |
| `RangeStreaming.dfy` | Range headers, `HttpStreamCB` and the body loop |
| `Responses.dfy`, `HandlerCalls.dfy` | from a Range header to the bytes on the wire, and what a client reads back; the session model makes the same user calls |
| `Decrypt.dfy`, `DecryptServing.dfy` | the XOR-encrypted sample media, on its own and behind the server |
| `UrlCodec.dfy`, `UrlLaws.dfy` | URL encoding |
| `Query.dfy`, `QueryExactly.dfy`, `QueryLaws.dfy` | query texts |
| `Multipart.dfy`, `MultipartExactly.dfy`, `FormHeaders.dfy`, `FormData.dfy` | multipart bodies: slices, what is accepted, header patterns, and form fields through all of it |
| `Multimap.dfy` | `std::multimap` with string keys |

Code that updates state is a class or a loop proved against a specification function;
the theorems are then lemmas about that function, or about every run of a transition
system. Threads are modelled by atomic steps: one per critical section, with the state
between two sections ("saw no reply", "parked", "media in hand but no reader yet") kept
explicit. `stop` is four steps, and so is `~Reader`: weak pointers to the reader expire when
its last reference goes, then the destructor asks for the timeout, asks for the delay,
posts the watchdog, and lets go of the media. A request goes through its user calls one by
one up to its return, and then keeps only the reader. Shared ownership is explicit too: a
media is owned by readers up to the end of their destructors, queued or handled watchdog
messages, and calls that have it in hand or in their reply; when the last owner goes, its
destructor closes it.

## What does not hold of the code

Where code and documentation disagree the models follow the code, and say exactly when
the documented behaviour is met:

* `src/imedia.h:30-33` promises that nothing is called on a media after `close`. The weak
  pointer that decides idleness points to the last reader only, expires before `~Reader`
  starts, and `~Reader` calls `idleTimeout()`. So a watchdog may close a media while a
  request has it in hand and is not done with it, while a pre-empted reader is still held,
  or while a destructor has still to ask. These late closes, and no others, break the
  promise (`LateCloseExactly`). Two runs in which no request holds the media are
  `PreemptedReaderOutlivesClose` and `DyingReaderOutlivesClose`; in the second one not even
  a reader is held.
* `src/imedia.h:63-68` promises that a media is closed when nobody has read it for idleTimeout. Each
  reader's destructor posts a watchdog, and a watchdog closes any media it finds idle, so an
  older reader's watchdog may come before the last reader has been gone for that long. That is
  the only way to close early: some reader has always been gone for the whole timeout
  (`NeverClosedEarly`), and if it was not the last one, it was an earlier one
  (`EarlyCloseIsOlder`). `OlderWatchDogClosesEarly` is a run in which a media with a timeout of
  1000 us is closed 1 us after its last reader has gone. A media with a negative timeout is
  closed exactly when its last owner goes, as documented (`NegativeTimeout`).
* `src/http_stream_cb.cpp:12` takes a range that ends at byte 0 for an unbounded one. A range
  is delivered exactly if and only if it ends after byte 0 or the media has one byte
  (`ServeHeader`); `FirstByteExample` is `bytes=0-0` on two bytes, announced as one byte and
  sent as two.
* `createReader` clamps both ends of a range. Section 2.1 of RFC 7233 asks to ignore a range
  whose ends are in reverse order, and calls one that starts behind the media unsatisfiable;
  the code answers 416 and the last byte. It agrees with the RFC on exactly the other ranges
  (`ClampedExactly`).
* `EncryptedMedia::open` rewinds the file but not `mKeyOffset`. Reads are right exactly if
  the key, moved by what was left over, agrees on the bytes read (`ReadExactly`, `Replay`).
* `AMessage::dup` copies the holder pointer of object items; with at least one of them
  both destructors free it (`DestroyBoth`).
* `read_content_chunked` converts chunk sizes with `stoi`, which throws from 2^31 on
  (`RoundTrip`). When the line behind a chunk is not CRLF, it drops that chunk and still
  returns true (`JunkBehindChunk`). So a stream that is cut off is reported as a failure except
  if the cut is between the CR and the LF behind a chunk: then that chunk and all that follow
  are missing, and the result is success (`TruncatedExactly`).
* URL encoding leaves `%` alone and stops at NUL, so a text survives exactly if it has no
  NUL and no `%` that already reads as an escape (`UrlRoundTrip`). Query texts inherit this,
  and keys are not encoded at all (`QueryRoundTripExactly`).
* A multipart content survives exactly if, with its delimiter behind it, the delimiter is first
  found at the content's end (`MultipartRoundTrip`). For boundaries without CR these are the
  contents that lack the delimiter (`PlainBoundary`). A boundary with CR can overlap itself, and
  then a content that lacks the delimiter is cut short (`OverlappingBoundary`); the header pattern
  of src/httplib.h:827 never delivers such a boundary, so this takes a direct call.
* The name and filename of a form field are printed and read without escaping. They come back
  exactly if they are free of CR and LF and no shorter name leads to a match of the lazy pattern
  (`HeadersExactly`, `FormRoundTripExactly`); `QuotedName` is a name that comes back as a shorter
  one with a filename.

## Model

| member | source | states |
|---|---|---|
| `EventQueue.ALooper.Post` | src/aloop.cpp:281-305 | a post makes the queue the stable insertion of its event, and notifies exactly if the event becomes the head |
| `EventQueue.ALooper.LoopSection` | src/aloop.cpp:342-369 | nothing leaves the queue before its due time; otherwise the thread leaves, waits forever, or waits until the head's due time |
| `EventQueue.ALooper.ClearRun` | src/aloop.cpp:238-247 | the first section of stop clears mRun, or fails on a looper that does not run |
| `EventQueue.ScanInserts` | src/aloop.cpp:291-304 | inserting where the scan stops gives a stable sort of the old events followed by the new one |
| `EventQueue.InsertKeepsStableSort` | src/aloop.cpp:291-304 | a queue that is a stable sort of the posts stays one when a post is added at the end |
| `EventQueue.StableSortIsUnique` | src/aloop.cpp:304 | order by due time, ties in post order, leaves only one possible delivery order |
| `EventQueue.StableSortIsPermutation` | src/aloop.cpp:304 | a stable sort loses and invents no event |
| `LooperProtocol.AReplyToken.SetReply` | src/aloop.cpp:69-78 | a token takes exactly one reply; a second one is refused and changes nothing |
| `LooperProtocol.AReplyToken.RetrieveReply` | src/aloop.cpp:61-67 | yields the reply if there is one, leaves the caller's variable alone otherwise |
| `LooperProtocol.GlobalOrdering` | src/aloop.cpp:281-379 | in every run, the events delivered so far followed by the queue are the stable sort by due time of all posts, and none was delivered early |
| `LooperProtocol.PostKeepsOrder` | src/aloop.cpp:281-305 | a post cannot get in front of anything delivered, because the clock is monotone |
| `LooperProtocol.NeverOversleeps` | src/aloop.cpp:234-249 | in every run a parked, unsignalled looper waits for exactly the head's due time, or without deadline on an empty queue; once stop has notified, it is not parked |
| `LooperProtocol.QueueInvStep` | src/aloop.cpp:342-379 | every single step of any thread keeps order, promptness and wake-up |
| `LooperProtocol.NoReplyIsLost` | src/aloop.cpp:314-338 | in every run a waiting awaiter has no reply and either the looper runs or stop has still to notify; one reply per token; OK returns that reply |
| `LooperProtocol.ReplyInvStep` | src/aloop.cpp:314-338 | every single step of any thread keeps the reply protocol's invariant |
| `LooperProtocol.DueHeadIsDelivered` | src/aloop.cpp:342-379 | from any reachable state a due head is delivered by at most four steps of the looper thread, without a spurious wake-up |
| `LooperProtocol.StoppedAwaiterReturns` | src/aloop.cpp:249-253 | after stop has notified, every awaiter, whoever holds the lock, is at most three steps of awaiters from its return, with its reply or with -ENOENT |
| `LooperProgress.ReturnsExactly` | src/aloop.cpp:314-327 | in every run an awaiter returns -ENOENT exactly if it looks at mRun while mRun is false, and OK exactly if it looks for a reply that is there, with the first reply; no step takes a return back |
| `LooperProgress.RunningAwaiterWaits` | src/aloop.cpp:314-338 | from any reachable state of a running looper an awaiter without a reply is at most five steps of awaiters from waiting, whoever holds the lock, and a reply posted then brings it back with exactly that reply |
| `LooperProgress.ReplyIsFetched` | src/aloop.cpp:318 | a reply that is there is fetched by the awaiter's own next step once the lock is free |
| `LooperProgress.PostIsDue` | src/aloop.cpp:281-305 | a message posted with a delay is due that much later, without one at once, and wakes a parked looper exactly if the time to get up changes |
| `LooperProgress.LooksAtQueue` | src/aloop.cpp:342-369 | in every run the looper takes the head if it is due, and otherwise sleeps until it is, or without limit if there is none; nothing else changes |
| `LooperProgress.NothingAfterStop` | src/aloop.cpp:345-349 | once mRun is cleared nothing more is ever delivered |
| `LooperProgress.StopReturns` | src/aloop.cpp:234-265 | from any reachable state in which stop has cleared mRun, it returns by a plan of at most six steps, two of them of the looper thread, which delivers nothing more |
| `MessageTable.AMessage.FindItemIndex` | src/aloop.cpp:644-655 | finds the item of that name, or the end if there is none |
| `MessageTable.AMessage.FreeItemValue` | src/aloop.cpp:616-631 | frees exactly the value of string and object items, once |
| `MessageTable.AMessage.AllocateItem` | src/aloop.cpp:598-614 | reuses the slot of that name, freeing its value, or appends a slot with a fresh name |
| `MessageTable.AMessage.Store` | src/aloop.cpp:436-443 | the table becomes the old map with this name overwritten in place or appended, and no allocation gets lost |
| `MessageTable.AMessage.SetScalar` | src/aloop.cpp:436-459 | the typed setters put the entry into the insertion-ordered map |
| `MessageTable.AMessage.SetOnHeap` | src/aloop.cpp:461-480 | setString and setObject likewise, with the new value on the heap |
| `MessageTable.AMessage.FindItem` | src/aloop.cpp:445-452 | a typed find answers exactly if the entry of that name has that type |
| `MessageTable.AMessage.Clear` | src/aloop.cpp:426-434 | empties the table and frees everything it owned, once |
| `MessageTable.AMessage.Dup` | src/aloop.cpp:560-585 | the copy has the same entries, owns fresh names and strings, and shares the object holders |
| `MessageTable.PutDistinct` | src/aloop.cpp:598-614 | names stay distinct, and the table grows by at most one entry |
| `MessageTable.FindIsLastSet` | src/aloop.cpp:633-655 | after any run of sets and clears, find returns the last value set under that name since the last clear, if its type fits |
| `MessageTable.Lifetime` | src/aloop.cpp:587-589 | for any run of sets and clears, find answers for the last set, and after the destructor every allocation was freed exactly once |
| `MessageTable.DestroyBoth` | src/aloop.cpp:577-580 | a message and its dup free every allocation exactly once if and only if the message holds no object |
| `MediaModel.ReadMedia.createReader` | src/read_media.cpp:22-77 | pre-empts the last reader, clamps the range, seeks and creates a reader, or fails with the same user calls made, as CreateReader says |
| `MediaModel.ReadMedia.position` | src/read_media.cpp:35-65 | the clamped start is sought and the range begins where the seek landed; an empty media is not sought |
| `MediaModel.ReadMedia.read` | src/read_media.cpp:116-124 | a dead reader gets nothing and does not touch the media; a live one moves the shared cursor |
| `MediaModel.ReadMedia.expire` | src/read_media.cpp:79-81 | when its last reference goes, a reader is expired but its destructor is still to come |
| `MediaModel.ReadMedia.endReader` | src/read_media.cpp:126-132 | the whole destructor asks for idleTimeout, and a second time if it posts a watchdog |
| `MediaModel.DestructedBySteps` | src/read_media.cpp:126-132 | the whole destructor is the sequence of its steps, two or four of them |
| `MediaModel.ReadMedia.isIdle` | src/read_media.cpp:79-81 | idle means that no reader was made yet, or the last one has expired |
| `MediaModel.ReadMedia.close` | src/read_media.cpp:92-98 | closes the user's media the first time only |
| `MediaModel.ReadMedia.destroy` | src/read_media.cpp:16-20 | closes a media that was opened and not closed yet |
| `MediaModel.ClampExactly` | src/read_media.cpp:35-50 | any start is moved to the nearest position of the media, and an end that is none of them to the last one |
| `MediaModel.CreateReaderShape` | src/read_media.cpp:35-76 | a reader that is created is the last one, alive and alone, with a clamped range; the others keep what they got |
| `MediaModel.CreateReaderIsGood` | src/read_media.cpp:22-77 | creating a reader keeps lifecycle, single live reader and isolation |
| `MediaModel.ReadChunkIsGood` | src/read_media.cpp:116-124 | each reader's output stays a contiguous stretch of the content from its own from() |
| `MediaModel.DestructIsGood` | src/read_media.cpp:126-132 | every step of a reader's destructor keeps the media's invariants |
| `MediaModel.CloseMediaIsGood` | src/read_media.cpp:92-98 | closing a media without a live reader keeps its invariants |
| `MediaModel.DestroyIsGood` | src/read_media.cpp:16-20 | the destructor closes an open media that was not closed yet, and only then |
| `MediaManagers.MediaManager.OnMessageReceived` | src/media_manager.cpp:89-154 | the handler moves map, ids, replies, media objects and queue exactly as the session model's step does |
| `MediaManagers.MediaManager.OnWatchDog` | src/media_manager.cpp:92-101 | an idle listed media is closed and unlisted; any other is left alone |
| `MediaManagers.MediaManager.OnCreate` | src/media_manager.cpp:103-128 | a media that was made gets the next id, is listed and handed out if it opened, and the call is answered in any case |
| `MediaManagers.MediaManager.Lock` | src/media_manager.cpp:134 | looking up an unknown id leaves a null entry behind; an entry whose media is gone is as good as none |
| `MediaManagers.MediaManager.PostReply` | src/media_manager.cpp:123-126 | answers the call that still waits, and nobody else |
| `Sessions.StepKeeps` | src/media_manager.cpp:89-154 | every step of any client, reader, looper or clock keeps the session invariant |
| `Sessions.MoveKeeps` | src/media_manager.cpp:89-154 | the same before reference counts are settled |
| `Sessions.CollectKeeps` | src/read_media.cpp:16-20 | destroying the media that lost their last owner keeps the invariant, and leaves an owner for every other |
| `Sessions.WatchDogKeeps` | src/media_manager.cpp:92-101 | handling a watchdog, closing or not, keeps the invariant |
| `Sessions.CreateKeeps` | src/media_manager.cpp:103-128 | handling a create request keeps the invariant, whether it finds no creator, fails to open, or opens |
| `Sessions.GetKeeps` | src/media_manager.cpp:130-149 | handling a get request keeps the invariant, whether answered or re-posted as a create |
| `SessionTheorems.RequestConservation` | src/media_manager.cpp:103-149 | in every reachable state a waiting call has exactly one message or a reply, an answered call has no message left |
| `SessionTheorems.HandlingMakesProgress` | src/media_manager.cpp:136-146 | each delivery lowers the weight (get 2, create 1) of its call, which is answered exactly when the weight is 0 |
| `AnsweredCalls.WaitingCallIsAnswered` | src/media_manager.cpp:96-146 | from any reachable state of a running looper a waiting call is answered by this plan: time passes until all that is queued is due, the looper ends what it is at, and then handles at most 2n+1 messages, with n queued at first, whatever the factory answers |
| `SessionTheorems.MediaLifecycle` | src/imedia.h:24-33 | in every run open comes first and once, nothing follows a failed open, close comes at most once, and has come when nobody owns the media |
| `SessionTheorems.ReaderIsolation` | src/read_media.cpp:22-77 | for any interleaving only the last reader created is alive, and each reader's output is a contiguous stretch of the content from its from() |
| `Sessions.EndReaderKeeps` | src/read_media.cpp:126-132 | every step of a destructor, the post among them, keeps the invariant |
| `SessionTheorems.IdleMediaIsWatched` | src/read_media.cpp:126-132 | an idle open media that had a reader has a watchdog on its way: its last reader is still to post it, or it is handled, or it is queued and due by the time of the post plus the timeout |
| `SessionTheorems.DyingReaderPosts` | src/read_media.cpp:126-132 | from any reachable state a dying reader is at most three steps of its own from having queued its watchdog, due by now plus the timeout |
| `SessionTheorems.IdlenessEndsInClose` | src/media_manager.cpp:92-101 | such a media is closed once everything due by its deadline is handled |
| `SessionTheorems.MoveCloses` | src/media_manager.cpp:92-101 | only a watchdog that finds its media idle closes it; otherwise its last owner must go |
| `SessionTheorems.ClosingIsSafe` | src/media_manager.cpp:92-101 | the step that closes a media leaves no live reader of it, and a user read after close is by a reader created after the close |
| `SessionTheorems.SessionIdentity` | src/media_manager.cpp:130-146 | a call holds the media it asked for or one with an id newer than the call; the live map entries are exactly the open, unclosed media under their own keys |
| `SessionTheorems.AnswerIsLive` | src/media_manager.cpp:110-142 | a get is answered with the live media registered under that id, a create with the newest id; both open and unclosed |
| `SessionAnswers.GetExactly` | src/media_manager.cpp:130-146 | in every reachable state a get is answered with the media its id stands for if there is one that is not destroyed, however idle, and nothing is posted; without one, and only then, a create due now is queued behind all that is due; neither makes a media |
| `SessionAnswers.CreateExactly` | src/media_manager.cpp:103-128 | a create makes one media under the next id, lists it and answers with it exactly if the creator has one that opens; otherwise the answer is null and the list is unchanged |
| `SessionAnswers.ReturningClient` | src/media_manager.cpp:130-146 | in any run, a call with the id of a listed media gets this media and no other, and never null, as long as the media stays listed |
| `SessionAnswers.WatchDogExactly` | src/media_manager.cpp:92-101 | a watchdog closes and unlists its media exactly if it is idle and listed, and otherwise changes nothing |
| `SessionRequests.StreamReads` | src/read_media.cpp:116-124 | in every reachable state, a read by the live reader gets more of the content unless it is at the end, and what the reader has stays a stretch from its own start; a pre-empted reader gets nothing |
| `SessionRequests.ReachableHands` | src/http_stream_cb.cpp:11-13 | in every run, a reader that a request has in hand is held, and by this request alone |
| `SessionRequests.RequestEnds` | src/http_server.cpp:84-183 | from any reachable state, a request that has its media or reader in hand comes to its end by at most eight steps of its own |
| `SessionRequests.StopFreesCallers` | src/aloop.cpp:318-324 | a call without an answer gives up right after stop has cleared mRun |
| `SessionRequests.TeardownCloses` | src/read_media.cpp:16-20 | when manager and looper go, nothing is listed or queued, and every media that no request has in hand is closed |
| `IdleTimeouts.NeverClosedEarly` | src/read_media.cpp:126-132 | in every run, a media that is closed although it has owners has a timeout that is not negative, and some reader of it has been gone for that long |
| `IdleTimeouts.NegativeTimeout` | src/imedia.h:63-68 | a media with a negative timeout is closed exactly when nobody owns it any more |
| `IdleTimeouts.EarlyCloseIsOlder` | src/media_manager.cpp:95-99 | a watchdog that comes before the last reader has been gone for the timeout is due for an earlier reader |
| `IdleExample.OlderWatchDogClosesEarly` | src/media_manager.cpp:95-99 | a reachable run in which a media with a timeout of 1000 us is closed 1 us after its last reader has gone |
| `AfterClose.LateCloseExactly` | src/imedia.h:30-33 | while no close was late, nothing is called after close; a further step makes such a call possible if and only if it is a late close: one of a media on which a request or a reader's destructor has still a call to make |
| `AfterClose.QuietRun` | src/imedia.h:30-33 | a run without a late close never calls a user method after close |
| `AfterClose.ReaderEndIsLoud` | src/read_media.cpp:126-132 | the destructor of a reader of a closed media calls idleTimeout on it |
| `AfterClose.HandleIsLoud` | src/http_server.cpp:94-178 | whatever step a request takes next that has a closed media in hand and is not done with it, for any range and seek: the step calls the media |
| `AfterClose.UnusedIsUntouched` | src/http_server.cpp:154-159 | nobody calls a closed media that is not in use; a request that got 416 counts as done with it |
| `AfterCloseExample.PreemptedReaderOutlivesClose` | src/read_media.cpp:79-81 | a reachable run in which no request holds the media when it is closed, and a pre-empted reader calls it afterwards |
| `AfterCloseExample.DyingReaderOutlivesClose` | src/read_media.cpp:126-132 | a reachable run in which neither a request holds the media nor a reader is held when it is closed, and the destructor of the last reader calls it afterwards |
| `RangeStreaming.RangeHeaderReads` | src/http_server.cpp:112-143 | getRange inverts the printed Range header for all numbers that stoi accepts, and throws for exactly the others |
| `RangeStreaming.NoRange` | src/http_server.cpp:112-121 | a header without a range anywhere, as the missing one, asks for the whole media: 0 and -1 |
| `RangeStreaming.FirstRange` | src/http_server.cpp:116-121 | otherwise the first range in the header counts, whatever stands in front of it |
| `RangeStreaming.FrontExactly` | src/http_server.cpp:116 | the pattern matches exactly where `bytes=`, digits and a dash stand |
| `RangeStreaming.RangeLimits` | src/http_server.cpp:124-139 | the largest position that is taken is 2147483647 |
| `RangeStreaming.HttpStreamCB.read` | src/http_stream_cb.cpp:15-32 | past the limit it drops its reader and returns nothing; otherwise one user read, cut to what is left of the range |
| `RangeStreaming.HttpStreamCB.constructor` | src/http_stream_cb.cpp:11-13 | the limit is the size of the reader's range, or the unsigned -1 if that range does not end after byte 0 |
| `RangeStreaming.SendChunk` | src/http_stream_cb.cpp:22-31 | one callback returns the next piece of the reader's content, never past the range, and nothing only at its end |
| `RangeStreaming.CallBack` | src/http_stream_cb.cpp:15-32 | the same across a pre-emption by another request |
| `RangeStreaming.SendRound` | src/httplib.h:1656-1664 | one round of the body loop sends the next piece, framed if chunked |
| `RangeStreaming.DataLoop` | src/httplib.h:1653-1665 | the loop sends a stretch of the content and calls the callback only while it has a reader |
| `RangeStreaming.WriteBody` | src/httplib.h:1649-1666 | the body is a prefix of the reader's range, all of it if no other request intrudes, whatever sizes the reads return; then exactly some k reads are made of the user's media, long enough for the body |
| `Responses.makeMediaResponse` | src/http_server.cpp:145-183 | however the user's seek goes: 416 exactly if there is no reader, else 206 with length and range of the reader, or 200 for a stream |
| `Responses.fillIn` | src/http_server.cpp:161-182 | status, length and range headers, and the user calls made for them |
| `Responses.answer` | src/http_server.cpp:158-182 | with a reader: a callback on it, status, headers and user calls |
| `Responses.Serve` | src/http_server.cpp:145-183 | what a client gets: 0 <= from <= to < n, Content-Length to-from+1, and an undisturbed body that equals content[from..to] if and only if to > 0 or n = 1; a stream is chunked and complete; the user calls of an undisturbed response are those of the handler and then the reads |
| `Responses.ServeHeader` | src/http_server.cpp:112-183 | the same from the Range header itself: positions beyond 2^31-1 throw, the others are clamped, and the bytes of the clamped range are sent |
| `Responses.ServeText` | src/http_server.cpp:112-183 | for whatever stands in the Range header: nothing but an exception if a position is too large, else the clamped range of the media, with the user calls made for it |
| `Responses.ServeWhole` | src/http_server.cpp:112-183 | a request without a range gets 206 with 0 to n-1 and the whole content, or 416 if the media is empty |
| `HandlerCalls.StagesAgree` | src/http_server.cpp:84-183 | the stages of a session's request make exactly the user calls of the response: one for the log, those of createReader, and those for the headers |
| `Responses.ClampedExactly` | src/read_media.cpp:35-50 | the clamped range is the one that section 2.1 of RFC 7233 defines if and only if its ends are in order and the first one is inside the media, or the media is empty |
| `Responses.FirstByteExample` | src/http_stream_cb.cpp:12 | bytes=0-0 on two bytes: Content-Length is 1 and both bytes are sent |
| `Responses.StreamAndRead` | src/httplib.h:891-924 | a client that decodes an undisturbed stream response gets the content and nothing is left over if and only if every chunk is below 2^31 bytes; otherwise its decoder throws |
| `Chunked.from_i_to_hex` | src/httplib.h:1030-1038 | prints the base-16 numeral |
| `Numerals.NumeralReads` | src/httplib.h:1030-1038 | reading a printed number gives it back, in any base up to 16 |
| `Chunked.StoiOfHex` | src/httplib.h:899 | stoi in base 16 reads a printed size back if it is below 2^31, and throws otherwise |
| `Chunked.StreamLineReader.append` | src/httplib.h:502-513 | the two-stage buffer behaves as a plain append of one byte |
| `Chunked.StreamLineReader.getline` | src/httplib.h:475-499 | the line buffer holds the bytes up to the line feed or the end of the stream |
| `Chunked.StreamLineReader.CString` | src/httplib.h:459-465 | what callers of ptr() see: the line up to its first NUL |
| `Chunked.read_content_with_length` | src/httplib.h:848-864 | reads exactly len bytes however they arrive, or fails exactly if the stream ends first |
| `Chunked.read_content_chunked` | src/httplib.h:891-924 | result, body and rest of the stream are those of the decoder on values, under arbitrary partial reads |
| `Chunked.OneChunk` | src/httplib.h:901-916 | decoding peels off one emitted chunk, or throws for a size of 2^31 or more |
| `Chunked.RoundTrip` | src/httplib.h:1650-1665 | for any list of non-empty chunks, decoding what was emitted gives their concatenation and consumes exactly that, if and only if every size is below 2^31; otherwise it throws |
| `ChunkedErrors.TruncatedExactly` | src/httplib.h:891-924 | for any chunks and any cut: the chunks that arrived whole are delivered, and the reader fails, unless the cut is between CR and LF behind a chunk, when it succeeds with that chunk missing |
| `ChunkedErrors.JunkBehindChunk` | src/httplib.h:908-910 | behind a chunk, any line but the empty one makes the reader drop the chunk, leave the rest, and succeed |
| `ChunkedErrors.JunkBehindLast` | src/httplib.h:919-922 | behind the last chunk, any line but the empty one makes it fail |
| `ChunkedErrors.NegativeSize` | src/httplib.h:901-919 | a negative size ends the body, successfully |
| `ChunkedErrors.NoSize` | src/httplib.h:899 | a size line that does not begin with a number makes stoi throw |
| `ChunkedErrors.NegativeReads` | src/httplib.h:899 | stoi reads negative numbers down to -2147483648 |
| `ChunkedErrors.SpaceIsSkipped` | src/httplib.h:899 | stoi skips the six white-space characters |
| `ChunkedErrors.SignIsSkipped` | src/httplib.h:899 | and a plus sign |
| `ChunkedErrors.PrefixIsSkipped` | src/httplib.h:899 | and 0x in front of a digit |
| `ChunkedErrors.BareZero` | src/httplib.h:899 | while 0x without a digit behind it reads as zero |
| `ChunkedErrors.SizeLimits` | src/httplib.h:899 | the largest size that is taken is 2147483647 |
| `ChunkedErrors.OneChunkOnWire` | src/httplib.h:1656-1664 | a chunk as it looks on the wire, with its size in lower case |
| `Decrypt.Encrypt` | example/decrypt.cpp:115-137 | the 8-byte buffered copy writes the key and then the XOR with the repeated key |
| `Decrypt.EncryptedBits` | example/decrypt.cpp:128-136 | behind the 8 bytes of the key, a bit of the file is set exactly if one of the plaintext's bit and the bit of the key byte modulo 8 is |
| `Decrypt.ReadBits` | example/decrypt.cpp:48-67 | a read returns up to 4096 bytes, each bit set exactly if one of the raw file's bit and the bit of its key byte is |
| `Decrypt.PlainOfEncrypted` | example/decrypt.cpp:115-137 | the plaintext of an encrypted file is what was encrypted, and sizes agree |
| `Decrypt.EncryptedMedia.open` | example/decrypt.cpp:25-42 | succeeds exactly for files that hold a key, rewinds, and leaves the key offset |
| `Decrypt.EncryptedMedia.decrypt` | example/decrypt.cpp:48-57 | XORs the buffer in place and advances the key offset by its length modulo 8 |
| `Decrypt.EncryptedMedia.read` | example/decrypt.cpp:58-68 | returns the decrypted unit at the cursor and moves both offsets by its length |
| `Decrypt.EncryptedMedia.seek` | example/decrypt.cpp:69-73 | puts position and key offset in step, and returns the offset; a negative offset is answered with a negative position |
| `Decrypt.ReadInStep` | example/decrypt.cpp:58-68 | with the key offset equal to the position modulo 8, a read is the plaintext at that position |
| `Decrypt.ReadExactly` | example/decrypt.cpp:25-42 | with the key moved by some skew, a read is the plaintext if and only if the moved key agrees on the bytes read |
| `Decrypt.Replay` | example/decrypt.cpp:16-77 | for any sequence of opens, seeks and reads on an encrypted file, size is the plaintext length and all reads are the plaintext if and only if no read is thrown off by an earlier open |
| `Decrypt.AlignedIsUnskewed` | example/decrypt.cpp:20-42 | opening again at multiples of the key length throws no read off |
| `Decrypt.ReopenExample` | example/decrypt.cpp:25-42 | a one-byte file that is opened twice and read wrongly the second time |
| `DecryptServing.CallCorresponds` | example/decrypt.cpp:58-73 | with the key offset in step, a seek or read on an encrypted file returns what it would on the plaintext, and leaves the offset in step |
| `DecryptServing.FileCorresponds` | example/decrypt.cpp:58-73 | any run of calls on an encrypted file returns the bytes that its plaintext would return |
| `DecryptServing.Replay` | example/decrypt.cpp:58-73 | the encrypted media, called through its seek and read, returns for any run of calls what its file holds there, decrypted |
| `DecryptServing.BodyOfCalls` | example/decrypt.cpp:58-73 | after one seek, k reads return the plaintext from there on, so what they return begins with every body that is no longer |
| `DecryptServing.ServeEncrypted` | example/decrypt.cpp:58-73 | a Range request on an encrypted file gets that range of the plaintext, if and only if it ends after byte 0 or the file has one byte; the calls made for it are listed, and carried out on the encrypted file itself they return the bytes sent, cut at the end of the range |
| `UrlCodec.from_hex_to_i` | src/httplib.h:1013-1028 | accepts exactly a run of count hex digits and returns its value |
| `UrlCodec.to_utf8` | src/httplib.h:1040-1070 | writes the bytes of the specified form and their number |
| `UrlCodec.Utf8IsUnique` | src/httplib.h:1040-1070 | a byte string is well-formed for a code point (section 4 of RFC 3629) if and only if to_utf8 produces it; surrogates and numbers beyond 10FFFF produce nothing |
| `UrlCodec.encode_url` | src/httplib.h:968-997 | the loop computes the encoding of the text up to its first NUL |
| `UrlCodec.decode_url` | src/httplib.h:1072-1106 | the loop computes the decoding, whatever the input |
| `UrlCodec.Decode` | src/httplib.h:1072-1106 | decoding never makes a text longer |
| `UrlCodec.UrlRoundTrip` | src/httplib.h:968-1106 | decoding undoes encoding if and only if the text has no NUL and no '%' that reads as an escape |
| `UrlCodec.RoundTripLength` | src/httplib.h:968-1106 | a text that does not survive comes back shorter |
| `UrlCodec.UnicodeEscape` | src/httplib.h:1077-1084 | a %u escape decodes to the well-formed UTF-8 of its number, a surrogate to nothing |
| `UrlLaws.PlainDecodes` | src/httplib.h:1098-1102 | a text without '%' keeps its length; each byte stands for itself, a '+' for a space |
| `UrlLaws.PlainThenRest` | src/httplib.h:1072-1106 | what stands in front of the first '%' has no influence on what follows |
| `UrlLaws.PlusInText` | src/httplib.h:1098-1099 | a '+' is a space wherever it stands outside of an escape |
| `UrlLaws.HexEscape` | src/httplib.h:1088-1093 | '%' and two hex digits are the byte of that value |
| `UrlLaws.LonePercent` | src/httplib.h:1076-1102 | any other '%' stands for itself |
| `UrlLaws.EncodeAppend` | src/httplib.h:968-997 | encoding works byte by byte up to the first NUL |
| `UrlLaws.NulEnds` | src/httplib.h:971 | nothing is written of a NUL or behind it |
| `UrlLaws.UntouchedEncodes` | src/httplib.h:981-991 | bytes below 0x80 other than the eight special characters and NUL are written as they are |
| `UrlLaws.EscapeEncodes` | src/httplib.h:972-988 | a special character, or a byte from 0x80 on, is written as '%' and two upper-case hex digits of its value |
| `Query.split` | src/httplib.h:436-449 | the index loop hands out the pieces between separators, none for an empty text |
| `Query.SplitJoin` | src/httplib.h:436-449 | splitting undoes joining |
| `Query.JoinSplit` | src/httplib.h:436-449 | joining undoes splitting, and no piece holds the separator |
| `Query.parse_query_text` | src/httplib.h:1108-1121 | the nested splits fill the multimap as specified |
| `Query.PostQuery` | src/httplib.h:2139-2146 | the loop prints the parameters joined by '&' |
| `Query.PairReads` | src/httplib.h:1112-1119 | a printable parameter reads back as itself |
| `Query.EmptyKeyIsLost` | src/httplib.h:1112-1119 | with an empty key the encoded value becomes the key |
| `QueryExactly.QueryRoundTripExactly` | src/httplib.h:1108-1121 | parsing what was printed returns the same multimap if and only if every parameter is printable or entirely empty |
| `QueryExactly.NoStrayAmpersand` | src/httplib.h:1108-1121 | a '&' in a key or value makes too many parameters |
| `QueryExactly.PairShrinks` | src/httplib.h:1112-1119 | a parameter that does not survive comes back with a shorter value |
| `QueryLaws.KeyAndValue` | src/httplib.h:1112-1119 | the first piece that is not empty is the key and the last piece behind it the value; without a key there is no value |
| `QueryLaws.OneParameter` | src/httplib.h:1108-1121 | key=value gives one parameter with the value decoded and the key as it stands |
| `QueryLaws.PlainValue` | src/httplib.h:1108-1121 | a value without '%' comes byte by byte, a '+' as a space |
| `QueryLaws.PlusInValue` | src/httplib.h:1108-1121 | a '+' in a value is a space, whatever follows it |
| `QueryLaws.ParseIsStable` | src/httplib.h:1108-1121 | for any text, parameters come ordered by key, and under each key are the values in the order of the text |
| `Multipart.find` | src/httplib.h:1146 | the first occurrence at or behind a position, if there is one |
| `Multipart.readHeaders` | src/httplib.h:1156-1179 | the inner loop reads header lines up to the empty one, and knows of the part what both patterns say of these lines |
| `Multipart.parse_multipart_formdata` | src/httplib.h:1132-1203 | the nested loops terminate and fill the multimap with the files of the parser on positions, including those kept when a later part is malformed |
| `Multipart.SlicesAreSound` | src/httplib.h:1132-1203 | for any body whatever, the files are in-bounds, ordered, disjoint slices without the delimiter, each in front of one |
| `Multipart.FoundExactly` | src/httplib.h:1183 | a delimiter is the first one behind a position exactly if the text between is ended by it, whatever stands around |
| `Multipart.NoOverlap` | src/httplib.h:1183 | a delimiter whose first byte does not come back is found behind exactly the texts that lack it |
| `Multipart.PartRead` | src/httplib.h:1152-1199 | parsing peels off one rendered part (section 5.1.1 of RFC 2046) |
| `Multipart.MultipartRoundTrip` | src/httplib.h:1132-1203 | for every boundary, parsing undoes rendering if and only if every content is ended by its delimiter and not earlier, and header lines are non-empty single lines |
| `Multipart.PlainBoundary` | src/httplib.h:1183 | for a boundary without CR these are the contents that lack the delimiter |
| `Multipart.OverlappingBoundary` | src/httplib.h:1183 | with a CR in the boundary a content that lacks the delimiter is cut short |
| `MultipartExactly.AcceptedExactly` | src/httplib.h:1132-1203 | a body is accepted if and only if it consists of an opening line and whole parts, whatever else stands on the boundary lines, and then the files are those parts |
| `FormHeaders.BeginsExactly` | src/httplib.h:1138-1143 | a pattern's text matches in any case, and nothing else does |
| `FormHeaders.HeadersOnWire` | src/httplib.h:1138-1143 | what the two header lines look like |
| `FormHeaders.DispositionReads` | src/httplib.h:1141-1143 | a printed Content-Disposition line gives its name and filename back if and only if neither has a line break and no shorter name leads to a match |
| `FormHeaders.UnquotedName` | src/httplib.h:1141-1143 | no shorter name matches a name without quotes |
| `FormHeaders.QuotedName` | src/httplib.h:1141-1143 | a name with a quote that is printed like a shorter name with a filename, and read as that |
| `FormHeaders.HeadersExactly` | src/httplib.h:1166-1173 | the printed headers of a field say its name, filename and type if and only if the field is readable |
| `Multimap.EmplaceAppends` | src/httplib.h:1197 | a new entry goes behind the others of its key and leaves the other keys alone |
| `Multimap.EmplaceKeepsOrder` | src/httplib.h:1197 | the entries stay ordered by key |
| `Multimap.LessExactly` | src/httplib.h:127 | keys are ordered as in a dictionary |
| `FormData.FormIsStable` | src/httplib.h:1197 | the multimap is ordered by name and lists the files of each name in order of appearance |
| `FormData.FormRoundTripExactly` | src/httplib.h:1132-1203 | for any fields and boundary, every field printed into a body comes back with its name, filename, type and content if and only if every field is readable and every content is ended by its delimiter |
| `FormData.FormOnWire` | src/httplib.h:1132-1203 | what a form of one field looks like, line by line |
| `FormData.SendForm` | src/httplib.h:1132-1203 | under each name the server finds, in order, exactly the fields that were sent under it |

## Left out

- Sockets, select, threads per connection, SSL, zlib and file serving: foreign calls. A stream is a byte sequence that arrives in pieces of any size; writes succeed.
- The C++ memory model: sections under a lock are atomic and sequentially consistent, and so is the unlocked read of mRun.
- The watchdog's idle check and close are one step, and createReader is one, as it holds mReadLock. (A media that is in use at the close was in use at the check, since only the looper hands media out.)
- Restarting a looper, stopping it or awaiting on its own thread, and start on the calling thread: one start per looper, as `MediaManager::init` does.
- The raw request pointer inside queued messages: requests are values.
- Integer widths of clock values, media ids and range bounds: unbounded integers, except where the code's unsigned size arithmetic and `stoi` limits matter, which are written out.
- Regular expressions: the Range pattern and the two header patterns of a part are small parsers with the same matches; letters are compared as in the C locale.
- `ALooperRoster`, handlers and delivery to a handler that is gone, logging.
- The session cookie: whether a call wants an id, and which one, is a parameter.
- `MediaFactory` and `MediaRequest`: the creator's answer (no media, or a media that opens or not) is a parameter.
- The user's media in the session model answers size, seekable and idleTimeout as it did at creation, and its seek moves where it says; seek results and read sizes are otherwise arbitrary parameters.
- A request that dies of an exception, as `getRange` lets std::out_of_range through: the process ends there.
- `ReadMedia::open` on a media that is already open: the creator opens each media once, and construction and open are one operation here.
- Payload types of `AMessage` (floats, pointers): opaque integers with a type tag.
- Printing of numbers in Content-Length and Content-Range, header formatting, and the HEAD method.
- A body write that fails stops the loop early; the rest of the response is then never sent.
- Reading `EncryptedMedia` after a seek to a negative offset, which the framework never does: the key offset is then negative.
- Path validation, the other HTTP verbs, `example/simple.cpp` and `example/m3u8.cpp`: easy, they would add no hard property.
