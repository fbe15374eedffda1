# Verification of fty-common-mlm

A Dafny 4.11 model of the parts of fty-common-mlm that carry their own state, loops and arithmetic on
top of Malamute and czmq, with proofs of what they keep. `dafny verify dfyconfig.toml` checks it all.

The broker is a set of FIFO queues of multi-frame messages, the clock an integer number of
milliseconds, and the poller a step that returns at once when a message is readable and otherwise when
its timeout is over. Frames are octet strings that the library reads and writes as C strings, so
everything is cut at its first NUL (`Messages.dfy`).

* **Stream client** (`StreamClient.dfy`, `StreamObject.dfy`, `StreamInvariants.dfy`,
  `StreamProtocol.dfy`, `StreamDelivery.dfy`, `StreamTheorems.dfy`, `StreamCalls.dfy`, `StreamFlow.dfy`,
  `StreamSync.dfy`, `StreamWitnesses.dfy`). One API caller (`subscribe`, `unsubscribe`, the destructor), every listener
  thread ever started, the mutex, the condition variable and the stream of the broker. It is a concurrent
  protocol, so it is a transition system whose steps are what one party does between two points where
  another can interleave, and the theorems are about every interleaving. `StreamObject.dfy` gives the
  critical sections as code that updates the fields of the class, each proved to be the step (the dispatch
  loop: the run of steps) it stands for. Nothing of what can go wrong is idealised away: a listener can
  fail to start, publishing SYNC can throw, the loop can be interrupted, the condition variable can wake
  spuriously, and its notification can come before the wait.
* **Object pool** (`PoolSpec.dfy`, `PoolClasses.dfy`, `PoolRuns.dfy`). `Pool` and `Pool::Ptr` as classes
  updated in place, and runs of any length over any number of pools and handles. `std::move` copies the
  raw pool pointer, so that a moved-from handle is still linked; the null slots this can put into a free
  list are characterised exactly.
* **MlmClient** (`ReplySpec.dfy`, `MlmClient.dfy`). The waiting loops of `recv`, with its shrinking
  relative timeout, and of `requestreply`, with its absolute deadline. Which messages each takes is told
  by closed forms that do not mention the loop, and the calls on one client are a history of them.
* **Synchronous client and mailbox server** (`Address.dfy`, `Mailbox.dfy`, `MailboxSystem.dfy`). The
  two ends as classes, the end-to-end round trip, and the system of any number of clients, one serial
  server and arbitrary other senders, to the server and to the clients.
* **Agent** (`Agent.dfy`). The main loop: tick timing, dispatch and stop.

What came out that a reader of the code might not expect:

* A start-up can hang without anything having gone wrong: the notification is lost if the listener sends
  it before the caller waits. `StreamProtocol.StartUpIff` says exactly when.
* After a failed start-up, or after a SYNC that could not be published, the next `subscribe` can succeed
  with no listener running; and after the latter the destructor can terminate the process.
  `StreamProtocol.AtApiBoundary`, `FaultsAreTheThreadsOwn` and `DestructorTerminatesIff` say exactly when.
* If the condition variable wakes by itself before the listener is a consumer, an `unsubscribe` or the
  destructor can lose its SYNC and wait for a message from somebody else. `StreamProtocol.StopIff` shows
  that nothing else makes a stop depend on anybody else.
* The SYNC that is to stop a listener can reach callbacks as a payload without frames, as a listener never
  looks at the subject: those of the other clients of the stream, and those of the same client, when the
  listener was stopped by another message and the next one is a consumer before the SYNC is routed.
  `StreamSync.SyncDispatchIff`, `OldSyncIff` and `ForeignSyncIff` say exactly when.
* `recv` subtracts the time since its start after every message, so unrelated messages make it give up
  long before the timeout that `include/fty_common_mlm_tntmlm.h:40-41` describes; the model follows the
  code. `requestreply` does not have this.
* A get from a pool can yield a handle that owns nothing, once a moved-from handle has been destroyed.
  `PoolRuns.GetsFailIff` says exactly when.
* A client whose predecessor of the same id and thread was interrupted while waiting fails with a
  mismatch although its own request is in order. `MailboxSystem.OwnAnswerIff` says exactly when.

## Model

| member | source | states |
|---|---|---|
| Messages.CStrUnique | src/fty_common_mlm_sync_client.cc:88-90 | a frame is read and written up to its first NUL and no further |
| Messages.Zmsg.PopPayload | src/fty_common_mlm_stream_client.cc:208-215 | the counting loop collects all remaining frames in order and empties the message |
| Messages.Zmsg.AddPayload | src/fty_common_mlm_basic_mailbox_server.cc:112-114 | the loop appends every frame of a payload in order |
| StreamObject.MlmStreamClient.constructor | include/fty_common_mlm_stream_client.h:59-68 | the fields of a new client are the initial state of the system |
| StreamObject.MlmStreamClient.SubscribeEnter | src/fty_common_mlm_stream_client.cc:122-126 | the flag is cleared and the 32-bit counter advanced before the lock |
| StreamObject.MlmStreamClient.SubscribeLocked | src/fty_common_mlm_stream_client.cc:127-145 | the insertion under the mutex, the start of a thread when there is none to join, and otherwise the id |
| StreamObject.MlmStreamClient.SubscribeCheckStart | src/fty_common_mlm_stream_client.cc:138-145 | the id is returned unless the listener has left an exception |
| StreamObject.MlmStreamClient.UnsubscribeFind | src/fty_common_mlm_stream_client.cc:147-149 | an unknown id changes nothing |
| StreamObject.MlmStreamClient.UnsubscribeLocked | src/fty_common_mlm_stream_client.cc:150-153 | the erasure under the mutex closes the subscription at the current end of the dispatch log |
| StreamObject.MlmStreamClient.UnsubscribeStop | src/fty_common_mlm_stream_client.cc:156-157 | the stop flag is set exactly when no callback is left |
| StreamObject.MlmStreamClient.DestructorStop | src/fty_common_mlm_stream_client.cc:57-62 | the destructor stops a listener only if there are callbacks; a thread left joinable terminates the process |
| StreamObject.MlmStreamClient.ListenerChecks | src/fty_common_mlm_stream_client.cc:200-215 | a received message ends the listener if the stop flag is set and is unpacked otherwise |
| StreamObject.MlmStreamClient.NextId | src/fty_common_mlm_stream_client.cc:219 | the iteration over the map goes to the least id not yet visited |
| StreamObject.MlmStreamClient.Dispatch | src/fty_common_mlm_stream_client.cc:217-226 | one message: every callback called exactly once with the payload, in ascending id order, whatever throws; the loop is a run of the system's steps |
| StreamInvariants.RunKeepsProtocol | src/fty_common_mlm_stream_client.cc:57-240 | the invariants of threads, mutex, caller position, liveness and start-up hold along every interleaving |
| StreamProtocol.AtMostOneListener | src/fty_common_mlm_stream_client.cc:130-134 | of all threads ever started at most one is running, and m_listenerThread owns it |
| StreamProtocol.AtApiBoundary | src/fty_common_mlm_stream_client.cc:122-162 | between two calls: callbacks imply a joinable thread and a clear stop flag; without callbacks there is a joinable thread if and only if its SYNC threw; that thread is dead or dying if and only if its start-up failed, it was interrupted, or it took a message while the stop flag was set; no other thread is alive |
| StreamProtocol.FaultsAreTheThreadsOwn | src/fty_common_mlm_stream_client.cc:164-240 | over every run what is known to have gone wrong is exactly what the run's steps did to the joinable thread, whatever befell the threads before it, and exactly that makes it leave |
| StreamProtocol.JoinIsSafe | src/fty_common_mlm_stream_client.cc:57-65 | join is called only on a joinable thread without the mutex; the destructor leaves no thread |
| StreamProtocol.DestructorTerminatesIff | src/fty_common_mlm_stream_client.cc:57-65 | the destructor takes the process down if and only if it finds no callback but a thread whose SYNC threw, or callbacks and its own SYNC throws |
| StreamProtocol.SubscribeReportsStartUp | src/fty_common_mlm_stream_client.cc:136-141 | subscribe rethrows if and only if its listener has failed by then; it looks too early only after a spurious wake-up, and its verdict can still turn out wrong if and only if the listener is not yet a consumer |
| StreamProtocol.StartUpProgress | src/fty_common_mlm_stream_client.cc:164-195 | before the notification a listener step is always enabled, and each brings the caller nearer to waking |
| StreamProtocol.LostWakeUpIsForEver | src/fty_common_mlm_stream_client.cc:136 | after the notification nothing but a spurious wake-up ends the wait |
| StreamProtocol.StartUpIff | src/fty_common_mlm_stream_client.cc:131-136 | entering the wait, subscribe can still return if and only if the listener has not yet notified |
| StreamProtocol.StopStep | src/fty_common_mlm_stream_client.cc:197-228 | whatever interleaves with a join whose listener is caught, it stays caught, its distance to its exit never grows, and helpful steps shrink it |
| StreamProtocol.StoppingTerminates | src/fty_common_mlm_stream_client.cc:156-160 | every run from a join whose listener is caught has boundedly many helpful steps, and one is enabled until the join can be completed |
| StreamProtocol.JoinStuckIff | src/fty_common_mlm_stream_client.cc:156-160 | a join can come to depend on other publishers or an interrupt if and only if its listener is not caught: neither leaving nor with a message on its way to it |
| StreamProtocol.StopIff | src/fty_common_mlm_stream_client.cc:57-160 | that can happen to a stop if and only if the listener is not yet a consumer when SYNC is published, for which its own start-up must have seen a spurious wake-up |
| StreamProtocol.StoppingDispatchesAtMostOne | src/fty_common_mlm_stream_client.cc:200-205 | once the flag is set at most one already checked message is dispatched, and on the unsubscribe path no callback is called |
| StreamCalls.UnsubscribeErases | src/fty_common_mlm_stream_client.cc:147-154 | whatever the others do meanwhile, `unsubscribe(id)` of a registered id erases exactly that callback and closes exactly its subscription |
| StreamCalls.UnsubscribeUnknown | src/fty_common_mlm_stream_client.cc:147-149 | and of any other id changes nothing |
| StreamCalls.SubscribeRegisters | src/fty_common_mlm_stream_client.cc:122-136 | `subscribe` registers its callback under the next number modulo 2^32 for what is dispatched from then on, leaves the others, and starts a thread exactly if there is none to join |
| StreamCalls.SubscribeReturnsItsId | src/fty_common_mlm_stream_client.cc:122-145 | on both ways out m_counter is the id of the subscription the call has made |
| StreamDelivery.RunKeepsHistory | src/fty_common_mlm_stream_client.cc:122-226 | map and open subscriptions describe each other, and every subscription has been given its window, along every interleaving |
| StreamTheorems.DeliveredIsAWindow | src/fty_common_mlm_stream_client.cc:217-226 | what a callback has received is a contiguous part of the dispatch log, from its insertion to its erasure or to the present |
| StreamTheorems.WindowBetween | src/fty_common_mlm_stream_client.cc:127-153 | told by the steps: the callback gets exactly what is dispatched between the insertion and the erasure under the mutex |
| StreamTheorems.CallsAreOrdered | src/fty_common_mlm_stream_client.cc:219-226 | calls are strictly ordered by message and then id, so nothing is delivered twice |
| StreamTheorems.CalledAgainOnlyWhenReused | src/fty_common_mlm_stream_client.cc:147-153 | if an erased id is ever called again, the call is for a later subscription, a multiple of 2^32 subscriptions after the erased one |
| StreamTheorems.NeverCalledAgain | src/fty_common_mlm_stream_client.cc:147-153 | so up to 2^32 subscriptions it is never called again |
| StreamTheorems.SameIdIff | src/fty_common_mlm_stream_client.cc:125-128 | two subscriptions share an id if and only if they are a multiple of 2^32 subscriptions apart |
| StreamTheorems.IdsAreDistinct | src/fty_common_mlm_stream_client.cc:125-128 | so the first 2^32 subscriptions have different ids |
| StreamTheorems.ThrowingDisturbsNothing | src/fty_common_mlm_stream_client.cc:220-225 | runs that differ only in which callbacks threw are equally possible and end alike |
| StreamWitnesses.LostWakeUpHappens | src/fty_common_mlm_stream_client.cc:195 | a fault-free run to a caller that waits for a notification already sent |
| StreamWitnesses.DeafAfterFailedStart | src/fty_common_mlm_stream_client.cc:131-144 | a run to two registered callbacks and no listener, after a start-up that failed |
| StreamWitnesses.DeafAfterInterrupt | src/fty_common_mlm_stream_client.cc:197-198 | the same after an interrupt |
| StreamWitnesses.DeafAfterSyncThrew | src/fty_common_mlm_stream_client.cc:156-160 | the same after a SYNC that threw |
| StreamWitnesses.TerminateAfterSyncThrew | src/fty_common_mlm_stream_client.cc:57-65 | a run to std::terminate in the destructor |
| StreamFlow.NothingLost | src/fty_common_mlm_stream_client.cc:198-217 | over every run of a listener, the dispatch log, the message in hand and the inbox are what they were and then what the broker delivered: nothing lost, repeated or reordered |
| StreamFlow.PublishedIsDispatched | src/fty_common_mlm_stream_client.cc:75-217 | from the moment a listener is a consumer, it dispatches what waits with the broker then and what is published after that, from the front; the rest is in hand, in its inbox or with the broker |
| StreamSync.SyncDispatchIff | src/fty_common_mlm_stream_client.cc:198-215 | in every reachable state: unless other clients publish a SYNC, a live listener can come to dispatch one if and only if it has one in hand past the stop flag, or one is on its way and the flag is clear or can still be cleared |
| StreamSync.OldSyncIff | src/fty_common_mlm_stream_client.cc:156-215 | for a listener that becomes a consumer: if and only if a SYNC is with the broker then and the flag, which can have been set by then only after a spurious wake-up, is clear or can still be cleared |
| StreamSync.ForeignSyncIff | src/fty_common_mlm_stream_client.cc:198-215 | with other clients that publish SYNC: if and only if the flag is clear or can still be cleared and it has not failed to start |
| StreamWitnesses.ForeignSyncReachesCallbacks | src/fty_common_mlm_stream_client.cc:198-215 | a run in which the SYNC of another client is delivered as an empty payload |
| StreamWitnesses.OwnSyncReachesCallbacks | src/fty_common_mlm_stream_client.cc:156-215 | a fault-free run in which the SYNC of an earlier `unsubscribe` of the same client is |
| StreamWitnesses.StuckJoinAfterSpuriousWake | src/fty_common_mlm_stream_client.cc:136-160 | a run to a join that only other publishers or an interrupt can end |
| PoolSpec.ReturnThenTake | include/fty_common_mlm_pool.h:129-166 | a return is accepted if and only if the next get gives back that object and the old list |
| PoolSpec.PutAllKeepsTheFirst | include/fty_common_mlm_pool.h:129-139 | of many returned objects the pool keeps the first ones that fit, in order |
| PoolClasses.Pool.Put | include/fty_common_mlm_pool.h:129-139 | accepts exactly when there is no limit or room, and then empties and unlinks the handle |
| PoolClasses.Pool.Get | include/fty_common_mlm_pool.h:152-166 | a new object from an empty list, otherwise the last slot, linked to the pool |
| PoolClasses.Pool.Drop | include/fty_common_mlm_pool.h:168-174 | keeps the oldest slots and destroys the rest |
| PoolClasses.Pool.SetMaximumSize | include/fty_common_mlm_pool.h:194-200 | the new limit, the oldest slots within it, the rest destroyed |
| PoolClasses.Ptr.Move | include/fty_common_mlm_pool.h:34-38 | the source is left empty but linked |
| PoolClasses.Ptr.Unlink | include/fty_common_mlm_pool.h:18-23 | what a linked handle owns, be it null, is offered to its pool |
| PoolClasses.Ptr.Destroy | include/fty_common_mlm_pool.h:40-43 | returns to the pool or destroys |
| PoolClasses.Ptr.MoveAssign | include/fty_common_mlm_pool.h:46-54 | nothing if both own the same (self-assignment, two empty handles); otherwise unlink, destroy, transfer |
| PoolClasses.Ptr.Release | include/fty_common_mlm_pool.h:106-109 | the handle keeps its object and forgets the pool |
| PoolRuns.DestroyReturns | include/fty_common_mlm_pool.h:40-43 | in any world: a destroyed handle leaves what it owns at the end of the free list of its pool, if linked and there is room, and nothing else changes; or else it is destroyed |
| PoolRuns.MoveAssignTransfers | include/fty_common_mlm_pool.h:46-54 | in any world: the target's object leaves likewise, object and pool of the source come to the target, the source stays linked and empty |
| PoolRuns.MoveConstructTransfers | include/fty_common_mlm_pool.h:34-38 | likewise for move construction |
| PoolRuns.GetTakesTheLast | include/fty_common_mlm_pool.h:152-166 | in any world: a get links a new handle that owns the last slot or a new object |
| PoolRuns.ShrinkKeepsTheOldest | include/fty_common_mlm_pool.h:168-200 | in any world: `drop` and `setMaximumSize` keep the oldest slots and destroy the rest |
| PoolRuns.ReleaseThenDestroy | include/fty_common_mlm_pool.h:101-109 | a released handle takes its object with it: no free list changes |
| PoolRuns.LinkThenDestroy | include/fty_common_mlm_pool.h:101-104 | one that is given a pool leaves it there |
| PoolRuns.OwnershipIsConserved | include/fty_common_mlm_pool.h:26-54 | over every run each object ever created is in exactly one slot or handle or destroyed once |
| PoolRuns.NothingIsLost | include/fty_common_mlm_pool.h:129-200 | created = free + held + destroyed |
| PoolRuns.NullsEnterOnlyByHollowReturns | include/fty_common_mlm_pool.h:18-23 | a step adds at most one null slot, and does so if and only if it unlinks an empty linked handle that the pool accepts |
| PoolRuns.NullSlotsIff | include/fty_common_mlm_pool.h:129-139 | a free list comes to hold a null if and only if such a step is taken |
| PoolRuns.NullsAreAccountedFor | include/fty_common_mlm_pool.h:34-54 | null slots and empty linked handles never outnumber the moves that made them |
| PoolRuns.GetsFailIff | include/fty_common_mlm_pool.h:18-166 | at some point of a run a get would yield nothing if and only if a step unlinks an empty linked handle that the pool accepts |
| PoolRuns.GetYieldsAnObject | include/fty_common_mlm_pool.h:152-166 | so in runs in which no operation leaves such a handle behind no free list holds a null and every get yields an object |
| PoolRuns.GetCanYieldNull | include/fty_common_mlm_pool.h:34-43 | five operations after which a get yields nothing |
| PoolRuns.FreeListsStayBounded | include/fty_common_mlm_pool.h:129-139 | over every run a free list is within its limit, or there is none |
| PoolRuns.DestroyingFillsThePool | include/fty_common_mlm_pool.h:40-43 | destroying n handles in any order leaves min(m, f + n) spares, the first destroyed ones |
| ReplySpec.OutcomeUnique | src/fty_common_mlm_tntmlm.cc:68-93 | how a loop ends is determined by its inbox and budget |
| ReplySpec.RemainingNext | src/fty_common_mlm_tntmlm.cc:77-82 | the branch on the unsigned difference computes max(0, W - (e1 + ... + ek)) |
| ReplySpec.BudgetBound | src/fty_common_mlm_tntmlm.cc:60-82 | elapsed plus remaining time never exceeds the budget, but for work on discarded messages |
| ReplySpec.AbsoluteReadsIff | src/fty_common_mlm_tntmlm.cc:65-146 | of the messages the shrinking loop reads, the deadline loop, given as much more time as was spent on work, reads exactly those it turns to before its deadline; without work, those after messages read before the deadline |
| ReplySpec.AbsoluteDominatesIff | src/fty_common_mlm_tntmlm.cc:65-166 | it gets as far, and finds the reply the shrinking loop finds, if and only if it would turn to the last message that one took before the deadline and have it by then; without work, if and only if the messages before that were in hand before the deadline; else it finds nothing |
| ReplySpec.RelativeFindsIff | src/fty_common_mlm_tntmlm.cc:65-93 | the shrinking loop returns the first match if and only if that and every message before it are there when it turns to them, or the wait plus the elapsed times so far, added up, are within the budget |
| ReplySpec.AbsoluteFindsIff | src/fty_common_mlm_tntmlm.cc:137-166 | the deadline loop returns it if and only if it turns to it before the deadline and it is there by then |
| ReplySpec.RelativeGivesUpEarly | src/fty_common_mlm_tntmlm.cc:77-82 | but not conversely: three arrivals on which recv gives up and requestreply succeeds |
| ReplySpec.AtTheDeadline | src/fty_common_mlm_tntmlm.cc:140-143 | the condition on the deadline is needed |
| ReplySpec.WorkOutlastsTheDeadline | src/fty_common_mlm_tntmlm.cc:65-92 | and so is the one on the work: a run on which recv finds a reply after the deadline at which requestreply gives up |
| ReplySpec.TakenOnce | src/fty_common_mlm_tntmlm.cc:104-168 | over every history each message is taken by one call, and returned if it matches, destroyed if not |
| ReplySpec.RepliesAreOwn | src/fty_common_mlm_tntmlm.cc:152-166 | over every history a call returns only the body of a message with its uid and "REPLY", which no other call takes |
| ReplySpec.TaggedIsReturnedIff | src/fty_common_mlm_tntmlm.cc:83-90 | over every history a `recv` returns a message it takes if and only if the first frame is its uuid, and then without that frame |
| ReplySpec.ReplyIsReturnedIff | src/fty_common_mlm_tntmlm.cc:152-165 | and a `requestreply` if and only if the first two frames are its uid and "REPLY", and then without those |
| MlmClients.MlmClient.PollWithin | src/fty_common_mlm_tntmlm.cc:68-82 | one poll and the reduction of the budget |
| MlmClients.MlmClient.TakeTagged | src/fty_common_mlm_tntmlm.cc:83-92 | a message is kept, without its first frame, exactly if that is the uuid, and destroyed otherwise |
| MlmClients.MlmClient.AwaitTagged | src/fty_common_mlm_tntmlm.cc:65-94 | the loop takes a prefix of the inbox, returns the first match in it or nothing, and ends within its budget |
| MlmClients.MlmClient.Recv | src/fty_common_mlm_tntmlm.cc:55-94 | the same for the timeout in seconds, at most 300, as the next call of the client's history; every message read is returned or destroyed; with nothing in the inbox it takes exactly that time |
| MlmClients.MlmClient.TakeReply | src/fty_common_mlm_tntmlm.cc:152-165 | a message is kept, without two frames, exactly if they are the uid and "REPLY" |
| MlmClients.MlmClient.SendRequest | src/fty_common_mlm_tntmlm.cc:118-136 | "REQUEST" and the uid in front of a copy; the content is destroyed exactly if the send succeeds |
| MlmClients.MlmClient.AwaitReply | src/fty_common_mlm_tntmlm.cc:137-167 | first match before the deadline |
| MlmClients.MlmClient.RequestReply | src/fty_common_mlm_tntmlm.cc:104-168 | bad arguments and failed sends change nothing; otherwise the request is sent and the loop runs to the deadline fixed before the send, as the next call of the client's history |
| MlmClients.CallsAreAHistory | src/fty_common_mlm_tntmlm.cc:55-168 | whatever has been called on a client is a history of calls on its whole inbox, and the rest of the inbox is what they have not taken |
| MlmClients.JournalTells | src/fty_common_mlm_tntmlm.cc:83-165 | every message a client has read was taken by exactly one of its calls, returned to its caller if it matched and destroyed if not |
| Address.SuffixIsFixedWidth | src/fty_common_mlm_sync_client.cc:66-70 | eight lower-case hexadecimal digits for every thread id, and their value |
| Address.DigitsAre | src/fty_common_mlm_sync_client.cc:69-70 | the digits are 0 to 9 and a to f |
| Address.HexIsUnique | src/fty_common_mlm_sync_client.cc:69-70 | no other digits of that number have the value |
| Address.AddressShape | src/fty_common_mlm_sync_client.cc:66-72 | the address is the client id, a dot and those eight digits |
| Address.SenderOfUniqueId | src/fty_common_mlm_basic_mailbox_server.cc:100-101 | the server recovers every client id |
| Address.UniqueIdIsInjective | src/fty_common_mlm_sync_client.cc:66-72 | equal addresses if and only if equal id and thread |
| Address.SenderOfAnyString | src/fty_common_mlm_basic_mailbox_server.cc:101 | nine characters are cut off; the size_t wraps around on shorter senders, which come back whole |
| Mailbox.MlmBasicMailboxServer.HandleMailbox | src/fty_common_mlm_basic_mailbox_server.cc:50-131 | which messages reach the handler, with what, and which reply goes out; the loop always goes on |
| Mailbox.MlmSyncClient.SyncRequestWithReply | src/fty_common_mlm_sync_client.cc:57-133 | the request that is sent, and the result or exception for any message received |
| Mailbox.EndToEnd | src/fty_common_mlm_sync_client.cc:81-132 | the client obtains what the handler returns for its id and payload, up to NULs; no reply if it throws or returns nothing |
| Mailbox.EndToEndExact | src/fty_common_mlm_basic_mailbox_server.cc:80-116 | exactly that on NUL-free payloads and results |
| MailboxSystem.MailboxesAreQueues | src/fty_common_mlm_sync_client.cc:98-109 | a receive takes the first message; every other step leaves what there is, also an interrupt, and adds at most one at the end |
| MailboxSystem.RepliesInFlight | src/fty_common_mlm_basic_mailbox_server.cc:50-131 | in every interleaving a reply of the server in flight carries the id of a request from its address and the handler's result for it, and no other reply is to that request |
| MailboxSystem.MatchIsOwn | src/fty_common_mlm_sync_client.cc:118-122 | on a reply of the server the correlation check succeeds if and only if it is to the client's own request |
| MailboxSystem.ClientsGetTheirOwnAnswer | src/fty_common_mlm_sync_client.cc:81-132 | in every interleaving, with mail from anybody in its mailbox, a client returns the server's answer to its own request, raises a mismatch on a reply nobody waits for, or has found mail of somebody else, which it returns exactly if it carries its id |
| MailboxSystem.AtMostOnce | src/fty_common_mlm_basic_mailbox_server.cc:103-121 | at most one handler call and one reply for each request |
| MailboxSystem.OwnAnswerIff | src/fty_common_mlm_sync_client.cc:81-122 | told when a request is sent: while its client waits and nobody else writes to it, it can find anything but its own answer if and only if something lies in its mailbox or an answerable request of an earlier client of its address is queued |
| MailboxSystem.NoMismatchUndisturbed | src/fty_common_mlm_sync_client.cc:118-122 | where nobody else writes to an address or in its name and no client is interrupted there, every client at it gets its own answer, whatever happens at others |
| MailboxSystem.StaleReplyIsMismatched | src/fty_common_mlm_sync_client.cc:101-122 | with an interrupt one can |
| Agent.MlmAgent.Periodic | src/fty_common_mlm_agent.cc:79-87 | when tick is called, and what becomes of m_lastTick |
| Agent.MlmAgent.HandleEvent | src/fty_common_mlm_agent.cc:89-124 | the handler chosen by source and command, the default handlePipe or an override of it; a null message ends the loop |
| Agent.MlmAgent.OnPipeMessage | src/fty_common_mlm_agent.cc:128-138 | only "$TERM" stops |
| Agent.MlmAgent.Mainloop | src/fty_common_mlm_agent.cc:70-126 | all callbacks of a run and the final m_lastTick |
| Agent.HandlersFollowMessages | src/fty_common_mlm_agent.cc:89-124 | each received message goes to exactly one handler, in order, unknown commands to none |
| Agent.LogSplits | src/fty_common_mlm_agent.cc:74-126 | a run does what its passes do one after the other, each with the m_lastTick the ones before have left |
| Agent.TickOfPass | src/fty_common_mlm_agent.cc:79-87 | a pass ticks, before anything else, if and only if there is a period and more than that has gone by; nothing follows a tick that wants to stop |
| Agent.HandlerOfPass | src/fty_common_mlm_agent.cc:97-124 | a pass calls exactly the handler for the source and the command of its message, and none for no message, a null message or another command |
| Agent.PipeOfPass | src/fty_common_mlm_agent.cc:89-96 | likewise for the actor pipe, and the default `handlePipe` stops on "$TERM" only |
| Agent.TermEndsTheLoop | src/fty_common_mlm_agent.cc:128-138 | with it a command ends the loop if and only if it is "$TERM" |
| Agent.NoPeriodNoTick | src/fty_common_mlm_agent.cc:79 | without a period there is never a tick |
| Agent.StopIsLast | src/fty_common_mlm_agent.cc:82-124 | the first false is the last callback |
| Agent.TicksAreSpaced | src/fty_common_mlm_agent.cc:79-87 | consecutive ticks are more than the period apart |
| Agent.NTicksTakeTime | src/fty_common_mlm_agent.cc:45 | n ticks take at least n(P + 1) from construction |
| Agent.TicksKeepComing | src/fty_common_mlm_agent.cc:75-87 | ticks are at most 2P + H apart under any load |
| Agent.NoTickIsOverdue | src/fty_common_mlm_agent.cc:79-87 | no pass after which the loop goes on leaves a tick overdue |
| Agent.CompletesIff | src/fty_common_mlm_agent.cc:74-125 | the loop goes on if and only if every callback it makes goes on and no message is null |

## Left out

- CZMQ, ZeroMQ and Malamute: connecting, reconnecting and addressing are not modelled; a broker that loses or expires mailbox messages is not either.
- Stream client: several API callers at once, `unsubscribe` from inside a callback, the memory-model side of the fields read without the mutex, and a `std::thread` constructor that throws. The transition system is on values; only the critical sections are also given as updates in place, and there without interference.
- Stream client: `publish` is any publication on the stream; the address it builds is not modelled.
- Stream client: a null that an interrupted `mlm_client_recv` gives the listener, which is handed to czmq unless the stop flag is set.
- Pool: its mutex (every operation is one step), its destruction, handles that outlive it, the comparison and dereference operators of `Ptr`, and the 32-bit truncation of the size getters.
- MlmClient: reconnecting when not connected, interrupts, an empty read after a successful poll, and the generation of uids.
- Mailbox.MlmSyncClient.SyncRequestWithReply: does not model a null from an interrupted `mlm_client_recv`, which is handed to czmq.
- Mailbox system: a request whose send fails is not queued, so that its client waits for ever; the code does so too and ignores the return value.
- Agent.MlmAgent.Mainloop: excludes pipe messages without frames for the default `handlePipe`, which compares a null pointer on them.
- src/fty_common_mlm_uuid.cc, src/fty_common_mlm_zconfig.cc, src/fty_common_mlm_utils.cc and include/fty_common_mlm_guards.h: thin layers over foreign code, which would add only easy members.
