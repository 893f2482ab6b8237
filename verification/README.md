# A model of the yfs RPC library, lock server and directory format

This project models the concurrent core of a distributed file system written in C++ and proves what it
promises. The centre is the RPC library: clients that number their calls and acknowledge finished ones
in a sliding window, a server that filters duplicates, and a network that loses, repeats, delays and
reorders messages. Around it stand the parts the protocol rests on: marshalling, framing on a byte
stream, the poll manager, the bounded queue, the thread pool and the retransmission timer. The lock
server and the directory text of the file system client complete it.

Code that edits an object in place is a class or a method with loops, proved against a function on
values (`XidWindow`, `ReplyWindow`, `Marshalling`, `Connection`, `SelectAio`, `PollMgr.Manager`,
`Fifo.Buffer`, `LockServer.LockTable`, `CallTimer`, `Directory`). Protocols and monitors are step systems on top of
those functions: a run is a sequence of states and steps, an invariant is kept by every step, and the
results hold in every state of every run.

| file | part | main results |
|---|---|---|
| `RpcProtocol.dfy`, `ClientSteps.dfy`, `ServerSteps.dfy`, `RpcResults.dfy` | clients, server incarnations, network | `AtMostOnce`, `AcceptedReplyIsTheRunsReply`, `NothingIsForgotten`, `RunsExactlyWhenNotLive` |
| `RunCounts.dfy`, `SecondRun.dfy`, `CallRequests.dfy` | how often a handler runs, and on what | `HandlerRunsPerFreshRequest`, `HandlerMayRunTwice`, `RequestIsAsStarted`, `HandlerGetsCallersArguments` |
| `ReplyWindow.dfy` | the server's duplicate filter | `ListRefinesHistory`, `Classification`, `ListIsBounded` |
| `XidWindow.dfy` | the client's acknowledgement window | `UpdateAllRepresents`, `WindowIsExact` |
| `Wire.dfy`, `Marshalling.dfy`, `WireFormat.dfy` | encoding of arguments, growing buffer, headers | `ArgumentsRoundTrip`, `AcceptedIsEncoding`, `CallRoundTrip`, `SignedIsCast`, `ReadPairsMakeMap` |
| `Connection.dfy`, `ConnectionResults.dfy` | PDUs over partial reads and writes | `DeliveredIsPrefixOfSent`, `DeadIffKilled`, `CompletedIsDelivered`, `SentIsWhatWasGiven`, `SendReturnsTrueIff` |
| `SendWaiters.dfy` | who waits for whom in `send` | `WaitersHaveAnOwner`, `NobodyIsStrandedIff`, `StrandedForGood` |
| `PollMgr.dfy`, `PollResults.dfy`, `SelectAio.dfy` | callbacks, watch sets | `NoLateCallback`, `LateCallbackIff`, `NullCallIff`, `WaitIsBounded`, `ReadyIsCalled`, `BoundIsExact`, `WatchedIffAddedLast` |
| `Fifo.dfy`, `ThrPool.dfy`, `FifoResults.dfy` | bounded queue, pool with poison pills | `NoThreadIsForgotten`, `BlockingOfferIsEnqueued`, `ShutdownIsBounded`, `QuietMeansShutDown` |
| `LockServer.dfy` | locks | `MutualExclusion`, `ExclusionHoldsIff`, `FreeLockGetsTaken` |
| `CallTimer.dfy` | timeouts and clock arithmetic | `RetransmissionLoop`, `LastShiftWraps` |
| `Directory.dfy`, `DirectoryResults.dfy` | directory text | `ParseIsExactIff`, `LookupIsRightIff`, `PresentLookupIsRightIff` |

Properties that the code does not have are stated with a concrete failing input and with the exact
condition under which they hold:

- a map with unordered keys is accepted and not written back as it came (`Wire.DescendingKeysAreAccepted`); a
  payload is an encoding if and only if it is accepted and its keys ascend (`Wire.AcceptedIsEncoding`);
- a handler may run twice in a whole run (`SecondRun.HandlerMayRunTwice`); a request starts a run if and
  only if its xid is not live (`RpcResults.RunsExactlyWhenNotLive`), so a handler runs exactly as often as such a
  request comes (`RunCounts.HandlerRunsPerFreshRequest`);
- `release` does not check its caller (`LockServer.TwoHolders`); over all runs, locks stay exclusive and their
  flags true if and only if every release is by a holder or of a lock that nobody holds
  (`LockServer.ExclusionHoldsIff`);
- `closeconn` kills a connection without waking its senders (`SendWaiters.CloseStrandsBoth`); over all runs, no
  sender is stranded if and only if it is never called while the slot's owner sleeps
  (`SendWaiters.NobodyIsStrandedIff`);
- the comment on `block_remove_fd` (rpc/pollmgr.cc:57-59) promises more than a wait without a loop can keep
  (`PollMgr.WaitWithoutLoop`); the promise holds if and only if no callback of the descriptor is running at the
  return (`PollMgr.LateCallbackIff`), which is so in every run whose wait ended with the broadcast
  (`PollMgr.NoLateCallback`); such a return can also make the poll thread call through a null pointer
  (`PollMgr.NullCallHappens`), if and only if it comes between the two reads of `callbacks_[fd]`
  (`PollMgr.NullCallIff`);
- the last doubling of the timeout leaves the 32-bit range for timeouts from 2,097,151,000 ms on
  (`CallTimer.LastShiftWraps`) and no others (`CallTimer.RetransmissionLoop`); the wrapped value is never
  waited for;
- the last id of a listing may be cut (`Directory.LonelyIdIsCut`); a listing is exact if and only if names have
  no colon and the last colon stands far enough to the right (`Directory.ParseIsExactIff`);
- a name may be taken for the end of another token (`Directory.SuffixIsTakenForName`,
  `Directory.MissingNameIsFound`); in every directory a lookup is right if and only if the first name or id that ends
  with the name leads to the right id (`Directory.LookupIsRightIff`). For a name in the directory that means that
  nothing before its entry ends with it, where ids are distinct and no name reads as one of them
  (`Directory.PresentLookupIsRightIff`); for a missing name, that it leads to 0
  (`Directory.MissingLookupIsRightIff`).

`checkduplicate_and_update` answers NEW on an empty list even for an acknowledged xid (rpc/rpc.cc:603-607);
the model does the same, and FORGOTTEN is answered only on a non-empty list.

Assumptions, besides those under "Left out": client nonces are distinct and not zero, each server incarnation draws
a fresh non-zero nonce, xids do not wrap around, checksumming is off (so that the RPC header has 24 bytes),
a condition variable's signal wakes at least one of its sleepers, and `istream >>` stores 0 when it finds no digit, as
it does since C++11 (before, the number stays uninitialised).

## Model

| member | source | states |
|---|---|---|
| `XidWindow.InsertKeepsOrder` | rpc/rpc.cc:325-331 | inserting before the first larger xid keeps the window non-decreasing, keeps its members and adds just the new one |
| `XidWindow.CompressRepresents` | rpc/rpc.cc:333-338 | popping while the front is the predecessor of the element under the iterator ends with the front at the largest n with 1..n all reported |
| `XidWindow.UpdateRepresents` | rpc/rpc.cc:317-340 | one report takes a window for a set of xids to a window for that set with the xid added; the front never decreases |
| `XidWindow.UpdateAllRepresents` | rpc/rpc.cc:317-340 | after any sequence of reports, repeated ones included, the window stands for exactly the reported set |
| `XidWindow.FrontIsLargest` | rpc/rpc.cc:178 | a window's front is at least every n with 1..n all reported |
| `XidWindow.OrderDoesNotMatter` | rpc/rpc.cc:317-340 | the same xids reported in any order and number give the same front and the same members above it |
| `XidWindow.WindowIsExact` | rpc/rpc.cc:317-340 | after any sequence of reports: {0..front} with the window is exactly what was reported plus 0, front+1 is absent, and n is at most the front iff 1..n were all reported |
| `XidWindow.ReportIsCounted` | rpc/rpc.cc:317-340 | a report at or below the front changes nothing; any other leaves every xid above the new front in the window as often as before, the reported one once more |
| `XidWindow.Window.constructor` | rpc/rpc.cc:123 | the window starts as [0] with nothing reported |
| `XidWindow.Window.InsertBeforeLarger` | rpc/rpc.cc:325-331 | the scanning loop inserts before the first larger element or at the end |
| `XidWindow.Window.CompressFront` | rpc/rpc.cc:333-338 | the pop-while-iterating loop computes the compressed window and never removes the element its iterator stands on |
| `XidWindow.Window.UpdateXidRep` | rpc/rpc.cc:317-340 | the object keeps standing for the set of everything reported, grown by the new xid |
| `ReplyWindow.ReplyList.constructor` | rpc/rpc.cc:478-486 | an unknown client gets an empty list |
| `ReplyWindow.ReplyList.Sweep` | rpc/rpc.cc:609-623 | the erase-while-iterating loop keeps exactly the entries above xid_rep in order and finds the entry of xid among them |
| `ReplyWindow.ReplyList.CheckDuplicateAndUpdate` | rpc/rpc.cc:597-644 | verdict, stored reply and new list are those of the specification |
| `ReplyWindow.ReplyList.RecordReply` | rpc/rpc.cc:562-578 | every entry of the xid, and no other, gets the reply |
| `ReplyWindow.CheckAsFind` | rpc/rpc.cc:609-643 | the verdict on a stamped request depends only on whether the xid is in the list and has its reply |
| `ReplyWindow.FindCheck` | rpc/rpc.cc:612-643 | what a processed request does to the entry of any other or the same xid |
| `ReplyWindow.FindAddReply` | rpc/rpc.cc:569-576 | what a recorded reply does to the entry of any xid |
| `ReplyWindow.ListRefinesHistory` | rpc/rpc.cc:562-644 | for every history: an xid is in the list iff it was requested since the last request acknowledging it, and carries a reply iff one was recorded in that time, namely the last one |
| `ReplyWindow.Classification` | rpc/rpc.cc:597-644 | for every history: NEW iff not live, DONE iff answered and then with exactly the last recorded reply, INPROGRESS iff live and unanswered, never FORGOTTEN |
| `ReplyWindow.CheckKeepsDistinct` | rpc/rpc.cc:612-643 | no xid is ever in the list twice |
| `ReplyWindow.HistoryKeepsBounds` | rpc/rpc.cc:562-644 | in every history the list has distinct xids, none above the largest received |
| `ReplyWindow.ListIsBounded` | rpc/rpc.cc:597-644 | after a request (x, r) all retained xids lie in (r, max], so there are at most max - r |
| `ClientSteps.StartKeeps` | rpc/rpc.cc:161-180 | starting a call keeps the invariant; its xid_rep is below its xid |
| `ServerSteps.TransmitKeeps` | rpc/rpc.cc:194-204 | sending or resending the request as packed keeps the invariant |
| `ServerSteps.DispatchKeeps` | rpc/rpc.cc:423-559 | receiving any request, in any of the branches, keeps the invariant |
| `ServerSteps.ReturnKeeps` | rpc/rpc.cc:513-527 | a handler's return and the recording of its reply keep the invariant |
| `ServerSteps.SendReplyKeeps` | rpc/rpc.cc:539 | sending the reply keeps the invariant |
| `ClientSteps.GotReplyKeeps` | rpc/rpc.cc:280-313 | receiving any reply any number of times keeps the invariant |
| `ClientSteps.FinishKeeps` | rpc/rpc.cc:233-240 | the end of a call, answered or timed out, keeps the invariant |
| `ClientSteps.StoreNonceKeeps` | rpc/rpc.cc:144-158 | storing the bound server's nonce keeps the invariant |
| `ServerSteps.RestartKeeps` | rpc/rpc.cc:343-360 | a restart with a fresh nonce and empty windows keeps the invariant |
| `ClientSteps.BindGotNonce` | rpc/rpc.cc:144-158 | a successful bind call yields a nonce that is not zero |
| `ServerSteps.SweepSparesUnreported` | rpc/rpc.cc:612-623 | no request can sweep away an entry whose call its client has not reported finished |
| `ServerSteps.FilterVerdict` | rpc/rpc.cc:475-505 | what the filter's verdict on a request really sent says about earlier runs of its call |
| `RpcResults.StepKeeps` | rpc/rpc.cc:161-559 | every step of every client, the server and the network keeps the invariant |
| `RpcResults.RunKeeps` | rpc/rpc.cc:161-559 | the invariant holds in every state of every run |
| `RpcResults.AtMostOnce` | rpc/rpc.cc:423-559 | across all incarnations, the handler of an outstanding call has been started at most once |
| `RpcResults.AcceptedReplyIsTheRunsReply` | rpc/rpc.cc:280-313 | a reply accepted for an outstanding call carries exactly what its one run returned, or is oldsrv_failure |
| `RpcResults.DoneResultIsFirstRuns` | rpc/rpc.cc:252 | the result handed to the caller stays the first run's, or oldsrv_failure |
| `RpcResults.NothingIsForgotten` | rpc/rpc.cc:550-556 | every request ever sent has xid_rep < xid and xid_rep at most the client's current front, so it is never answered FORGOTTEN |
| `RpcResults.NoReplyIsTooOld` | rpc/rpc.cc:550-556 | no reply in any run carries atmostonce_failure |
| `RpcResults.RunsExactlyWhenNotLive` | rpc/rpc.cc:507-515 | a request for this incarnation starts a run iff its xid is not live; a second run only after the client reported the call finished |
| `RpcResults.RequestIsAnswered` | rpc/rpc.cc:446-549 | a request for another incarnation is answered oldsrv_failure, one for an unknown procedure is dropped, and one whose call has been answered while live gets exactly the last reply recorded for it, any other nothing yet |
| `RpcResults.SelfAcknowledgingIsTooOld` | rpc/rpc.cc:550-556 | in any state, a request with xid_rep at or above its xid to a server that remembers its client is answered atmostonce_failure and starts nothing |
| `RpcResults.AcknowledgedCallRunsAgain` | rpc/rpc.cc:602-643 | once an acknowledging request was processed, a delayed copy of the acknowledged call runs its handler again |
| `RpcResults.RunsAgain` | rpc/rpc.cc:602-643 | from every reachable state with a run of a call and a request that acknowledges it, a second run of that call is reachable |
| `SecondRun.HandlerMayRunTwice` | rpc/rpc.cc:602-643 | a concrete run in which a handler runs twice for one call in one incarnation |
| `RunCounts.HandlerRunsPerFreshRequest` | rpc/rpc.cc:475-527 | in every run, the runs of a call in the present incarnation are as many as the requests for it that came when its xid was not live |
| `CallRequests.RequestIsAsStarted` | rpc/rpc.cc:175-204 | in every run, every request of a call carries the procedure, arguments, server nonce and acknowledgement of the moment the call was started, the latter being the largest n with 1..n all reported |
| `CallRequests.HandlerGetsCallersArguments` | rpc/rpc.cc:513 | in every run, every run of a call's handler is of the procedure and on the arguments the caller gave |
| `Wire.IntRoundTrip` | rpc/rpc.cc:680-742 | every integer of every width and sign is read back |
| `Wire.StringRoundTrip` | rpc/rpc.cc:728-734 | every string is read back |
| `Wire.VectorRoundTrip` | rpc/marshall.h:187-207 | every vector, of elements of any type, is read back |
| `Wire.MapRoundTrip` | rpc/marshall.h:209-235 | every map, written in key order, is read back |
| `Wire.StoreAllAppends` | rpc/marshall.h:228-233 | storing entries in ascending key order rebuilds the same map |
| `Wire.DecodeUndoesEncode` | rpc/rpc.cc:680-876 | reading a value of any nested type from its encoding gives the value and stops behind it |
| `Wire.EncodeUndoesDecode` | rpc/rpc.cc:783-876 | whatever a successful read returns encodes to exactly the bytes consumed, if the maps on the wire have ascending keys |
| `Wire.EncodingAscends` | rpc/marshall.h:209-219 | what was written has ascending keys in every map, however deep |
| `Wire.DecodeExtends` | rpc/rpc.cc:783-876 | a successful read of any type does not depend on what follows in the buffer |
| `Wire.DecodeKeepsOk` | rpc/rpc.cc:783-792 | a failed read stays failed |
| `Wire.ArgumentsRoundTrip` | rpc/rpc.h:390-401 | arguments of any types come back as sent, with okdone true |
| `Wire.AcceptedIsEncoding` | rpc/rpc.h:390-401 | for all types and payloads: accepted with ascending keys in every map iff it is the encoding of the arguments it decodes to |
| `Wire.AcceptedIsEncodingWithoutMaps` | rpc/rpc.h:390-401 | without maps, a payload is accepted iff it is the encoding of the arguments it decodes to |
| `Wire.EntriesInAnyOrderAreAccepted` | rpc/marshall.h:221-235 | a map's entries are accepted in any order, but are an encoding iff the keys ascend |
| `Wire.DescendingKeysAreAccepted` | rpc/marshall.h:221-235 | a concrete payload with keys 2 and 1 is accepted and is no encoding |
| `Wire.AcceptedIsPrefixFree` | rpc/rpc.h:390-401 | no proper extension of an accepted payload is accepted, whatever the types |
| `WireFormat.IntegerByte` | rpc/rpc.cc:680-742 | byte j of a non-negative integer of width w is n / 256^(w-1-j) % 256 |
| `WireFormat.SignedIsCast` | rpc/rpc.cc:687-726 | a signed integer travels as the unsigned one of its width that equals it modulo 256^w |
| `WireFormat.Ranges` | rpc/marshall.h:113-120 | the exact range of each integer type |
| `WireFormat.StringLayout` | rpc/rpc.cc:728-734 | four bytes of length, then the bytes |
| `WireFormat.VectorLayout` | rpc/marshall.h:187-194 | four bytes of count, then each element behind the ones before it |
| `WireFormat.MapLayout` | rpc/marshall.h:209-219 | four bytes of count, then each entry's key and value in key order |
| `WireFormat.StringOrder` | rpc/marshall.h:215-217 | string keys are ordered byte by byte, a proper prefix first |
| `WireFormat.ReadPairsMakeMap` | rpc/marshall.h:226-233 | any pairs read make a map with ascending keys, each with the value of its last pair |
| `WireFormat.ReqHeaderLayout` | rpc/marshall.h:85-89 | the five words of a request header are xid, procedure, client nonce, server nonce and acknowledgement |
| `WireFormat.ReplyHeaderLayout` | rpc/marshall.h:100-101 | the two words of a reply header are xid and return code |
| `Marshalling.ReqHeaderRoundTrip` | rpc/marshall.h:152-164 | the packed request header reads back |
| `Marshalling.ReplyHeaderRoundTrip` | rpc/marshall.h:166-175 | the packed reply header reads back |
| `Marshalling.Marshall.constructor` | rpc/marshall.h:52-57 | the write position starts behind the header in a buffer of the default size |
| `Marshalling.Marshall.Grow` | rpc/rpc.cc:658-663 | the larger buffer has the old bytes in front |
| `Marshalling.Marshall.RawByte` | rpc/rpc.cc:655-665 | one byte is appended, with the capacity doubled when there is no room |
| `Marshalling.Marshall.RawBytes` | rpc/rpc.cc:667-678 | the bytes are appended, with enough room under either growth rule, and the capacity that rule gives |
| `Marshalling.Marshall.Pack` | rpc/rpc.cc:744-751 | the four bytes of an int are appended in network order, leaving the bytes behind alone when they fit |
| `Marshalling.Marshall.PackReqHeader` | rpc/marshall.h:78-91 | only the header bytes change: size field and payload stay, and so does the write position |
| `Marshalling.Marshall.PackReplyHeader` | rpc/marshall.h:93-103 | only the header bytes change |
| `Marshalling.Marshall.PutInt` | rpc/rpc.cc:680-742 | the integer operators append the big-endian encoding |
| `Marshalling.Marshall.PutString` | rpc/rpc.cc:728-734 | appends length and bytes |
| `Marshalling.Marshall.PutVector` | rpc/marshall.h:187-194 | appends count and elements |
| `Marshalling.Marshall.PutMap` | rpc/marshall.h:209-219 | appends count and entries in key order |
| `Marshalling.Marshall.Put` | rpc/rpc.cc:680-742 | appends the encoding of a value of any nested type |
| `Marshalling.Marshall.PutArgs` | rpc/rpc.h:143-149 | appends the encodings of the arguments in order |
| `Marshalling.Unmarshall.constructor` | rpc/marshall.h:130 | reading starts at the front with no error |
| `Marshalling.Unmarshall.RawByteOut` | rpc/rpc.cc:783-792 | reads a byte, or fails at the end without moving |
| `Marshalling.Unmarshall.RawBytesOut` | rpc/rpc.cc:865-876 | reads all the bytes or fails without moving |
| `Marshalling.Unmarshall.Unpack` | rpc/rpc.cc:753-760 | reads an int in network order |
| `Marshalling.Unmarshall.UnpackReqHeader` | rpc/marshall.h:152-164 | reads the header and goes to the payload |
| `Marshalling.Unmarshall.UnpackReplyHeader` | rpc/marshall.h:166-175 | reads the header and goes to the payload |
| `Marshalling.Unmarshall.TakeIn` | rpc/rpc.cc:763-771 | takes the other buffer over, failing exactly when it is shorter than a header |
| `Marshalling.Unmarshall.IsOkDone` | rpc/rpc.cc:773-781 | true iff nothing failed and nothing is left |
| `Marshalling.Unmarshall.Get` | rpc/rpc.cc:794-863 | reads a value of any nested type as the specification does |
| `Marshalling.Unmarshall.GetAll` | rpc/marshall.h:196-207 | the loop reads the elements one by one |
| `Marshalling.Unmarshall.GetEntries` | rpc/marshall.h:221-235 | the loop stores the entries, later ones replacing earlier ones |
| `Marshalling.Unmarshall.GetArgs` | rpc/rpc.h:390-395 | reads the arguments in order |
| `Marshalling.CallRoundTrip` | rpc/rpc.cc:178-179 | header and arguments packed by a client are what the server unpacks, with okdone true |
| `Connection.Endpoint.constructor` | rpc/connection.cc:17-31 | an endpoint starts alive with empty slots |
| `Connection.Endpoint.Writepdu` | rpc/connection.cc:203-225 | one write: stamps the size first, advances by what was written, or fails |
| `Connection.Endpoint.Readpdu` | rpc/connection.cc:227-277 | one read: the size field, its limit, and the body as far as it came |
| `Connection.Endpoint.BeginSend` | rpc/connection.cc:113-141 | taking the free slot and the first write |
| `Connection.Endpoint.Writecb` | rpc/connection.cc:151-171 | a later write of the PDU in the slot, nothing for an empty slot, and the failed assertion on a dead connection |
| `Connection.Endpoint.EndSend` | rpc/connection.cc:142-147 | the result and the freed slot |
| `Connection.Endpoint.Readcb` | rpc/connection.cc:174-201 | nothing on a dead connection; a full PDU is handed over and dropped only when it was accepted |
| `Connection.WriteContinues` | rpc/connection.cc:203-225 | each write puts the next bytes of the stamped PDU on the wire |
| `Connection.StreamContinues` | rpc/connection.cc:203-225 | the wire stays all earlier PDUs followed by the written part of the current one |
| `Connection.HeaderIsSane` | rpc/connection.cc:230-257 | a size field read in full is the size of the next PDU sent |
| `Connection.ReadpduContinues` | rpc/connection.cc:227-277 | after each read the buffer holds the start of the next PDU sent |
| `Connection.StepKeeps` | rpc/connection.cc:104-277 | every step of any sender, writer or reader keeps the invariant |
| `Connection.RunKeeps` | rpc/connection.cc:104-277 | the invariant holds in every schedule |
| `Connection.DeliveredIsPrefixOfSent` | rpc/connection.cc:104-277 | in every schedule the PDUs delivered are byte for byte a prefix of the PDUs sent |
| `Connection.TrueMeansWritten` | rpc/connection.cc:142-147 | send returns true only when its whole PDU and all before it are in the stream |
| `Connection.DeadIffKilled` | rpc/connection.cc:175-277 | in every schedule, the reader is dead iff some earlier read had a split, unreadable or oversized size field or a failed body, or the connection was killed from outside |
| `Connection.NothingAfterKill` | rpc/connection.cc:175-277 | in every schedule, nothing is delivered from such a read on |
| `Connection.OversizedIsNeverDelivered` | rpc/connection.cc:248-255 | in every schedule, a PDU above the limit and everything sent behind it is never delivered |
| `Connection.EverythingIsDelivered` | rpc/connection.cc:175-277 | in every schedule, a live reader that has read all that was sent and holds nothing back has delivered all of it |
| `Connection.DeadReaderIsSilent` | rpc/connection.cc:179-181 | a dead reader delivers nothing more |
| `Connection.RefusedIsRetried` | rpc/connection.cc:184-200 | a refused PDU is offered again before anything else is read |
| `ConnectionResults.SentIsWhatWasGiven` | rpc/connection.cc:104-118 | in every schedule, the PDU that goes out for a send is the caller's buffer with its size in the first four bytes, behind everything sent before |
| `ConnectionResults.SendReturnsTrueIff` | rpc/connection.cc:142-147 | in every schedule, a send returns true iff the connection stays alive and its whole PDU with all before it is in the stream |
| `ConnectionResults.CompletedIsDelivered` | rpc/connection.cc:194-199 | in every schedule, after a read that is accepted a live reader has delivered every PDU it has read in full |
| `SendWaiters.FinishKeeps` | rpc/connection.cc:142-147 | freeing the slot with a broadcast only when `waiters_` is positive leaves nobody asleep |
| `SendWaiters.StepKeeps` | rpc/connection.cc:61-201 | every section of senders, callbacks and closeconn keeps the invariant, with `waiters_` counting the threads in the first loop |
| `SendWaiters.RunKeeps` | rpc/connection.cc:61-201 | the invariant holds in every run |
| `SendWaiters.WaitersHaveAnOwner` | rpc/connection.cc:108-112 | in every run, whoever sleeps on send_wait_ sleeps on an owned slot, and all wake when its owner finishes |
| `SendWaiters.StrandsIff` | rpc/connection.cc:61-77 | among all steps only closeconn, while the owner is asleep, strands it |
| `SendWaiters.NobodyIsStrandedIff` | rpc/connection.cc:61-77 | over all runs, no owner sleeps without reason iff closeconn never comes while one is asleep |
| `SendWaiters.SleepsOnPartial` | rpc/connection.cc:137-139 | in every run the owner sleeps only on a partly written PDU, so that a stranded one is on a dead connection |
| `SendWaiters.StrandedForGood` | rpc/connection.cc:152-181 | a stranded owner and all who sleep behind it stay asleep through every continuation without a spurious wakeup of theirs |
| `SendWaiters.CloseStrandsBoth` | rpc/connection.cc:61-77 | a concrete run in which closeconn strands an owner and a waiter |
| `SelectAio.LastBelowIsMaximum` | rpc/pollmgr.cc:199-206 | the scan ends with the largest watched descriptor |
| `SelectAio.WatchKeepsExact` | rpc/pollmgr.cc:149-167 | watching keeps the bound exact |
| `SelectAio.UnwatchKeepsExact` | rpc/pollmgr.cc:182-215 | unwatching keeps the bound exact and touches no other descriptor |
| `SelectAio.BoundIsExact` | rpc/pollmgr.cc:128-215 | after any changes that leave the wakeup pipe alone, highfds_ is exactly the largest watched descriptor |
| `SelectAio.WatchedIffAddedLast` | rpc/pollmgr.cc:149-195 | after any changes, a descriptor is watched for reading iff the last change of it not only about writing added it, and for writing likewise |
| `SelectAio.ReadyIsReportedOnce` | rpc/pollmgr.cc:243-256 | every ready watched descriptor is reported exactly once, the pipe never |
| `SelectAio.SelectAIO.constructor` | rpc/pollmgr.cc:128-142 | only the pipe is watched |
| `SelectAio.SelectAIO.WatchFd` | rpc/pollmgr.cc:149-167 | the watch sets after the call; a byte goes into the pipe |
| `SelectAio.SelectAIO.IsWatched` | rpc/pollmgr.cc:169-180 | whether all the flag's kinds of readiness are watched |
| `SelectAio.SelectAIO.UnwatchFd` | rpc/pollmgr.cc:182-215 | the watch sets after the call, whether the descriptor is gone, and the failed assertion on an illegal flag |
| `SelectAio.SelectAIO.WaitReady` | rpc/pollmgr.cc:217-257 | the ascending lists of ready descriptors, and one byte read from a ready pipe |
| `PollMgr.Manager.constructor` | rpc/pollmgr.cc:28-37 | the fields are those of the step system's first state |
| `PollMgr.Manager.AddCallback` | rpc/pollmgr.cc:45-55 | carries out the two steps of adding, or stops at either failed assertion with what was done so far |
| `PollMgr.Manager.DelCallback` | rpc/pollmgr.cc:70-77 | carries out the steps of deleting; the callback goes exactly when no flag is left |
| `PollMgr.Manager.HasCallback` | rpc/pollmgr.cc:79-87 | true iff this callback is registered and watched |
| `PollMgr.Manager.BeginRemove` | rpc/pollmgr.cc:61-66 | carries out the steps of removing up to the wait |
| `PollMgr.Manager.EndRemove` | rpc/pollmgr.cc:67-68 | carries out the step after the wait |
| `PollMgr.Manager.TakeChanges` | rpc/pollmgr.cc:97-103 | carries out the step at the head of the loop, with the broadcast waking all removers |
| `PollMgr.ViewShrinks` | rpc/pollmgr.cc:104-124 | the poll thread comes to see a descriptor only by copying the watch sets |
| `PollMgr.NoLateCallback` | rpc/pollmgr.cc:57-68 | in every run, after block_remove_fd returns from a broadcast and until fd is added again, fd is unwatched and no callback of it is running |
| `PollMgr.LateCallbackIff` | rpc/pollmgr.cc:57-68 | in every run, spurious wakeups included: no callback of fd runs at any time after the return, until fd is added again, iff none is running at the return |
| `PollMgr.NullCallIff` | rpc/pollmgr.cc:66-67 | the poll thread then calls through a null pointer for fd iff the return came between its two reads of callbacks_[fd] |
| `PollMgr.StepKeeps` | rpc/pollmgr.cc:45-126 | every step keeps the invariant that a waiting remover has a change pending and a byte in the pipe |
| `PollMgr.RunKeeps` | rpc/pollmgr.cc:45-126 | that invariant holds in every run |
| `PollMgr.WaitEnds` | rpc/pollmgr.cc:60-126 | while a remover waits the poll thread is never blocked in select, each of its steps brings it closer to the broadcast, and the broadcast wakes the remover |
| `PollMgr.WaitIsBounded` | rpc/pollmgr.cc:60-126 | in every run, a remover waits through at most 2 + 6 * 128 steps of the poll thread before the one that wakes it |
| `PollMgr.NeverCallsNull` | rpc/pollmgr.cc:111-124 | the unlocked double read of callbacks_ never calls through null when only callbacks delete, as in rpc/connection.cc:158-189, and nobody adds a descriptor under removal |
| `PollMgr.WaitWithoutLoop` | rpc/pollmgr.cc:66 | a concrete run in which the wait ends by itself and block_remove_fd returns during the callback |
| `PollMgr.NullCallHappens` | rpc/pollmgr.cc:66-67 | a concrete run in which it returns between the two reads and the poll thread calls through the null pointer |
| `PollResults.TodoIsExact` | rpc/pollmgr.cc:114-124 | the calls to make are exactly the ready descriptors for what they are ready for, each once, reads before writes |
| `PollResults.ReadyIsCalled` | rpc/pollmgr.cc:104-124 | in every run, after each select the poll thread goes on to exactly those |
| `PollResults.CalledWasRegistered` | rpc/pollmgr.cc:114-124 | in every run, the callback running for a descriptor was registered for it |
| `PollResults.CallbackIsNotReplaced` | rpc/pollmgr.cc:53-54 | no step replaces a registered callback by another |
| `PollResults.DeletedWithLastFlag` | rpc/pollmgr.cc:70-77 | del_callback drops the callback iff nothing of the descriptor is watched any more, and no other |
| `Fifo.Buffer.constructor` | rpc/fifo.h:32-38 | the queue starts empty |
| `Fifo.Buffer.EnqPass` | rpc/fifo.h:56-72 | the list after one pass of enq, and its outcome, are those of the monitor's step |
| `Fifo.Buffer.DeqPass` | rpc/fifo.h:74-92 | the item, the list and the signal of one pass of deq are those of the monitor's step |
| `Fifo.StepKeeps` | rpc/fifo.h:56-92 | every pass, signal and spurious wakeup keeps the invariant |
| `Fifo.RunKeeps` | rpc/fifo.h:56-92 | the invariant holds in every interleaving |
| `Fifo.FirstInFirstOut` | rpc/fifo.h:56-92 | what came out followed by the queue is what went in; the limit is never exceeded |
| `Fifo.NoThreadIsForgotten` | rpc/fifo.h:56-92 | a sleeping consumer leaves an awake consumer per item, a sleeping producer an awake producer per free slot; never all asleep together |
| `FifoResults.BlockingOfferIsEnqueued` | rpc/fifo.h:56-72 | in every interleaving, a blocking offer stays inside enq until its item has been appended |
| `FifoResults.NonBlockingOfferLeaves` | rpc/fifo.h:56-72 | a non-blocking offer leaves at once, its item appended iff there is room |
| `ThrPool.StepKeeps` | rpc/thr_pool.cc:6-67 | every step of workers, callers and the destructor keeps the invariant |
| `ThrPool.RunKeeps` | rpc/thr_pool.cc:6-67 | the invariant holds in every schedule |
| `ThrPool.PillsBehindPills` | rpc/thr_pool.cc:35-43 | behind a pill there are only pills |
| `ThrPool.ShutdownIsClean` | rpc/thr_pool.cc:37-50 | when all workers have exited each took one pill, the queue is empty, and every accepted job has run once and finished |
| `ThrPool.NotStuck` | rpc/thr_pool.cc:37-50 | until all workers have exited somebody can take a step |
| `ThrPool.StepDrops` | rpc/thr_pool.cc:37-50 | during shutdown every step but a spurious wakeup lowers a measure |
| `ThrPool.SpuriousAddsOne` | rpc/fifo.h:79-81 | a spurious wakeup raises the measure by at most one |
| `ThrPool.ShutdownIsBounded` | rpc/thr_pool.cc:37-50 | in every schedule, spurious wakeups included, the steps of shutdown are at most the measure plus twice the spurious wakeups among them |
| `ThrPool.QuietMeansShutDown` | rpc/thr_pool.cc:37-50 | in every schedule, when nothing but spurious wakeups can happen the pool has shut down completely |
| `FifoResults.SubmittedJobIsQueued` | rpc/thr_pool.cc:52-60 | in every schedule, a blocking addJob stays inside until that very job is in the queue |
| `FifoResults.PoolHoldsAHundredEach` | rpc/thr_pool.cc:22-23 | in every schedule, at most 100 jobs per worker are queued, and a non-blocking addJob is refused iff that many are |
| `LockServer.LockTable.constructor` | lock_server.cc:9-12 | the table starts empty |
| `LockServer.LockTable.AcquirePass` | lock_server.cc:38-46 | carries out the acquiring actor's step; granted exactly when that makes it a holder |
| `LockServer.LockTable.Release` | lock_server.cc:57-62 | carries out the releasing actor's step, whoever that is |
| `LockServer.MoveKeeps` | lock_server.cc:33-64 | every pass, release and wakeup keeps the lock's invariant |
| `LockServer.RunKeeps` | lock_server.cc:33-64 | every lock's invariant holds in every run in which only holders release |
| `LockServer.MutualExclusion` | lock_server.cc:33-64 | at most one holder, isLocked iff somebody holds it, and grants and returns alternate |
| `LockServer.FreeLockGetsTaken` | lock_server.cc:42-46 | a free lock that somebody wants has an awake thread whose next pass takes it |
| `LockServer.ExclusionHoldsIff` | lock_server.cc:33-64 | over all runs with any releases: every lock always has at most one holder and a true flag iff every release is by a holder or of a lock nobody holds |
| `LockServer.TwoHolders` | lock_server.cc:52-64 | a concrete run in which a stray release gives a lock a second holder |
| `CallTimer.CompareIsTrueOrder` | rpc/rpc.cc:926-941 | on nanoseconds in [0, 10^9] the comparison is the true order except between the two writings of a whole second |
| `CallTimer.AddTimespec` | rpc/rpc.cc:943-954 | total time is conserved with nanoseconds in [0, 10^9]; fails exactly when the nanoseconds become negative |
| `CallTimer.DoublingsAreExact` | rpc/rpc.cc:206-230 | k doublings fit into the timeout iff the waits 1000, 2000, ... add up to at most it |
| `CallTimer.UsedTimeoutFits` | rpc/rpc.cc:210-230 | every timeout that is waited for fits 32 bits, for every `to` |
| `CallTimer.DoubledTimeoutFits` | rpc/rpc.cc:230 | the value after the last doubling that can happen fits 32 bits iff to < 2,097,151,000 |
| `CallTimer.ShiftIsExact` | rpc/rpc.cc:230 | each 32-bit shift of the loop's timeout doubles it, except the last one for to >= 2,097,151,000, which is 2^32 less |
| `CallTimer.LastShiftWraps` | rpc/rpc.cc:183-231 | from there on, a call without delays or reply makes 22 shifts and the last gives a negative timeout |
| `CallTimer.NextDeadline` | rpc/rpc.cc:209-214 | the next deadline is the smaller of now plus the timeout and the final deadline, with the stop mark set when it is the final one |
| `CallTimer.WaitOnce` | rpc/rpc.cc:209-230 | one pass waits for the right deadline, shifts the timeout right, and keeps the bound on time and doublings or has reached the final deadline |
| `CallTimer.OnePass` | rpc/rpc.cc:194-231 | one pass of the loop keeps its invariant and lowers what is left, or ends with a reply |
| `CallTimer.RetransmissionLoop` | rpc/rpc.cc:183-231 | ends for every timeout and environment, with at most floor(log2(to/1000+1)) + 2 transmissions, attained without delays on connections always lost; every wait is right; every shift doubles the timeout for to < 2,097,151,000, and all but the last do for any other; gives up only at or after the final deadline; sends once if the connection is never lost |
| `Directory.NumbersRoundTrip` | yfs_client.cc:19-34 | printing and both ways of reading are inverse on all 64-bit numbers |
| `DirectoryResults.NumberIsRead` | yfs_client.cc:19-26 | after white space and a sign, a number is read up to the first other character, too large a one as 2^64 - 1, a negative one modulo 2^64 |
| `DirectoryResults.NothingIsRead` | yfs_client.cc:19-26 | white space alone leaves the number uninitialised |
| `DirectoryResults.NoNumberIsZero` | yfs_client.cc:19-26 | any other text reads as 0 |
| `Directory.StringToId` | yfs_client.cc:126-134 | the loop gives the number spelled, modulo 2^64 |
| `Directory.CutNumberIsSmaller` | yfs_client.cc:178-180 | a cut-off printed number is smaller than the number, unless that is 0 |
| `Directory.TextTokens` | yfs_client.cc:112-114 | splitting the text of colon-free entries gives the names and printed ids in turn |
| `Directory.ExtraTokens` | yfs_client.cc:112-114 | a colon in a name makes more than two tokens an entry |
| `Directory.ScanContent` | yfs_client.cc:147-180 | the loop over begin, end and cycleTime is the recursive scan |
| `Directory.ScanIsParse` | yfs_client.cc:147-180 | that scan pairs off the tokens of the text, with the last one cut |
| `Directory.ParseText` | yfs_client.cc:159-180 | every entry but the last comes back as created; the last id is cut to the index of the last colon |
| `Directory.ParseIsExactIff` | yfs_client.cc:136-183 | for all entries: listing gives back what was created iff no name has a colon and the last colon's index is at least the digit count of the last id, or that id is 0 |
| `Directory.ParseIsExactForNames` | yfs_client.cc:136-183 | for non-empty colon-free names the index of the last colon alone decides |
| `Directory.LonelyIdIsCut` | yfs_client.cc:178-180 | the id 12 of a file `a` alone in its directory is listed as 1 |
| `Directory.SearchContent` | yfs_client.cc:235-250 | the substring search and what follows the match |
| `Directory.SearchFindsSuffix` | yfs_client.cc:235-250 | for a colon-free name: the token after the first token, name or id, that ends with it |
| `Directory.LookupIsRight` | yfs_client.cc:229-251 | the entry's id, or 0 for a missing name, whenever no earlier name or id ends with the name |
| `Directory.LookupIsRightIff` | yfs_client.cc:229-251 | for any entries and any colon-free name: ilookup equals lookup in the entry list iff the first name or id that ends with the name leads to that id |
| `Directory.PresentLookupIsRightIff` | yfs_client.cc:229-251 | for a present name, distinct ids and names that do not read as ids: right iff no earlier token ends with the name |
| `Directory.SuffixIsTakenForName` | yfs_client.cc:242-250 | looking up `b` after `ab` gives the id of `ab` |
| `Directory.SearchLeads` | yfs_client.cc:229-251 | for any colon-free name and entries: ilookup gives id iff the first name that ends with the name has it, or the first such id comes first and is followed by a name that reads as it, or there is neither and id is 0 |
| `Directory.MissingLookupIsRightIff` | yfs_client.cc:229-251 | for a missing name and any ids: 0 iff the first name or id that ends with it, if any, is a name with id 0 or an id followed by a name that reads as 0 |
| `Directory.MissingNameIsFound` | yfs_client.cc:242-250 | looking up `b` in a directory that holds only `ab` gives the id of `ab` |
| `Directory.YfsClient.constructor` | extent_server.cc:12-22 | the root directory exists and is empty |
| `Directory.YfsClient.Create` | yfs_client.cc:94-123 | when it succeeds, which a text above the extent limit prevents, the parent's new text; ids from 0x80000000 to 0xffffffff get an empty extent, ids below none; what is left behind when it fails |
| `Directory.FilesAreTheUpperHalf` | yfs_client.cc:36-48 | an id is a file iff its lower 32 bits are at least 0x80000000 |
| `Directory.AllAreKept` | extent_server.cc:30-31 | no entry is refused while the whole text stays within the extent limit |
| `Directory.YfsClient.GetDirContent` | yfs_client.cc:136-183 | the parsed entries, or IOERR and nothing |
| `Directory.YfsClient.Ilookup` | yfs_client.cc:229-251 | the id read after the match, 0 without a match or extent |
| `Directory.CreateAll` | yfs_client.cc:94-183 | creating any entries in the root stores those that fit the extent limit, makes an empty extent for every file and for nothing else, and listing it gives the stored ones back iff the condition of the exact listing holds |

## Left out

- Sockets, `select` and `epoll` themselves, clocks, random numbers, logging, lossy testing and `main` programs: operating-system calls are parameters or nondeterministic steps.
- `EPollAIO` (rpc/pollmgr.cc:259-380): not used by the code.
- 32-bit wrap-around of xids, and of `_ind+n` in `unmarshall::rawbytes` (rpc/rpc.cc:868): numbers are unbounded there.
- Clients with nonce 0, for which the server filters nothing (rpc/rpc.cc:502-505).
- `bind_failure` (rpc/rpc.cc:169-173): a call refused by the bound check changes nothing and is no step.
- Maps whose keys are themselves vectors or maps: keys are integers and strings, compared as `std::map` compares them.
- Vectors decoded into non-empty ones: the decoder appends to what is there; results are read into empty vectors.
- Connection.DeliveredIsPrefixOfSent: PDU sizes are above 4 and below 2^31, because a size field of 4 or less, or a negative one, is not produced by marshalled messages.
- Connection.Endpoint.Readpdu: size fields of 4 or less or negative, for which the source's next read has a count of zero or below, and EAGAIN on the read of the size field, on which it fails an assertion.
- `write_cb` on a dead connection is the failed assertion of rpc/connection.cc:155 in `Connection.Endpoint.Writecb`, and no step of the step systems of `Connection` and `SendWaiters`.
- Connection reference counts, `process_accept` and the accept loop; that a wait inside `closeconn` or a failed `send` for `block_remove_fd` ends is shown in `PollMgr.WaitEnds`, not composed with `SendWaiters`.
- Lifetime of reply buffers: replies are values.
- The locking of the monitors: `fifo`, the thread pool, the poll manager, the lock server, `connection` (also its waiting senders) and the RPC protocol interleave whole critical sections as steps on values; the objects in place are shown for one section at a time, and memory effects below that are not captured.
- `block_remove_fd` called by the poll thread itself, which would wait for its own broadcast: removers are other threads.
- Creation of a lock's table entry as a separate, unlocked step (lock_server.cc:39-40), which mutual exclusion would not survive; entries exist from the start.
- The `stat` call and `nacquire` of the lock server.
- Fairness: which waiting thread gets a lock or an item is not promised by the code.
- Several file system clients changing one directory at once (yfs_client.cc:99-116 is get, then put): operations are serial.
- Directory.SearchContent: characters are below 128 and texts are shorter than 2^31 characters, so that `char` and `int` do not wrap.
- `mkdir`, `read`, `write`, `setattr`, `getfile`, `getdir`, the extent server's attributes, `fuse.cc`, and the lock and extent client stubs: mostly single-branch code.
