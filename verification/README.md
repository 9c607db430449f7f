# Verified model of octaneServGrpc

octaneServGrpc is a gRPC server in front of the Octane render SDK. Most of its RPCs forward
one call. Underneath them is a small amount of shared, mutable state whose guarantees hold
over whole runs and across threads; this project models that state in Dafny and proves those
guarantees.

- **Callback streams.** Render threads broadcast events; each connected client has a bounded
  queue that drops its oldest event, and a stream loop that pops, translates and writes.
  `CallbackQueue.dfy` is one queue and its history, `StreamClient.dfy` one call of the stream
  loop, `StreamTurns.dfy` what the other threads do to a stream and what becomes of its events,
  `CallbackDispatch.dfy` the dispatcher and the loop as imperative code, and
  `DispatchProtocol.dfy` every interleaving of all threads.
- **Handle registry.** The table from client handles to SDK objects, with lazy eviction of dead
  items and owned arrays that expire. `HandleRegistry.dfy` is the class, `RegistryProtocol.dfy`
  every interleaving of its operations with the SDK's changes, `HandleRpcs.dfy` the RPCs.
- **Pin trees.** `PinTree.dfy` is the depth-bounded walk that registers what is connected below
  a new node.
- **Shared frames.** `SharedFrames.dfy` is the life of the cloned surfaces behind viewport
  frames, `FrameProtocol.dfy` every interleaving of grabs and releases.
- **Expiry.** `TtlStore.dfy` is the time-to-live bookkeeping that registry arrays and cloned
  surfaces have in common: exact expiry, and an ownership ledger.
- **Codecs and small pieces.** `PinInfoHandles.dfy`, `PixelBuffers.dfy`, `Attributes.dfy`,
  `ServerLog.dfy`, `MethodNames.dfy`.

`Basics.dfy` holds shared types and `Trace`, a run of a step system that grows at its end.

Every RPC body is wrapped in a handler that catches all exceptions, answers INTERNAL and undoes
nothing. Where that matters, an exception is a step of the step system, or a parameter that says
where the call throws.

Files that change state in place are modelled twice: a class whose methods are proved equal to
functions on values, and a step system built from the same functions, in which the main results
are lemmas over every run. `Exec(run)` is the state a run leads to, or `None` when a step was
not possible where it stands. Lemmas named `Uninterrupted...` tie a method to the step system.

The SDK is an environment. An item keeps its identity while it lives and answers 0 afterwards;
memory of a dead item is not reused for another one; one SDK call may destroy any number of
items; the clock does not go back. What the SDK or the operating system answers is a parameter.

Some properties turned out to need a condition, and are stated with the exact one:

- A pointer to a finished stream stays in the dispatcher exactly for calls that threw between
  their `Subscribe` and their `Unsubscribe`, because the handlers do not unsubscribe
  (`DanglingIffThrew`), and a fan-out is held up exactly when it comes to one (`FanOutGoesOnIff`).
- A clone is released or tracked exactly if no exception ended a call that owned it
  (`ClonesAreReleasedExactlyOnce`, `ThrowLeaksTheClone`). A render result is given back exactly
  if nothing was thrown between taking and returning it; and a grab that succeeds without images
  never returns it (`RenderResultIsReturnedOnce`, `ThrowKeepsTheResult`).
- An attribute write that answers INTERNAL may have stored its value; it leaves the attributes as
  they were exactly if the SDK's `set` was not reached, threw before it stored, or stored what was
  there (`UnchangedIffNotStored`, `FailedWriteIsSeen`).
- The registry is cleared by `resetProject` and `loadProject` exactly if the SDK did not throw
  (`NothingResolvesIff`, `HandleOutlivesThrowingReset`).
- The type guard of attribute writes has no case for a pair of longs, which goes through to
  every type (`GuardIsFamilyExceptLong2`, `Long2SlipsThrough`).
- An array handle leads to its array exactly until a `Clear`, its removal or a late registration
  (`ArrayHandleLeadsToItsArray`); a `Clear` makes handles be given out again
  (`ClearGivesHandlesOutAgain`).
- Pin handles lead back to their pin, while that is there, exactly for node handles below 2^48
  and pin indices below 2^16 (`InfoIsOfThatPinIff`).
- A client loses no event exactly when its consumer is never more than the queue's depth behind
  (`ClientIsLossless`), and which it loses is exact too (`ClientMissesIff`).
- The pin walk registers everything below a node exactly when all of it lies within 23
  connections (`WalkIsClosureIffShallow`), as it does with at most 23 nodes below
  (`FewNodesAreShallow`).

The comment on the depth limit says 22; the walk registers down to 23 connections, because the
test is made before a node's children are registered. The model follows the code.

## Model

| member | source | states |
|---|---|---|
| CallbackQueue.CallbackSubscription.Push | src/util/callback_dispatcher.h:49-59 | the drop-oldest loop leaves the newest depth - 1 events and then the new one |
| CallbackQueue.CallbackSubscription.WaitAndPop | src/util/callback_dispatcher.h:63-71 | the oldest event is handed out and removed; nothing exactly when the queue is empty |
| CallbackQueue.CallbackSubscription.QueueDepth | src/util/callback_dispatcher.h:73-76 | the current length, never above the depth |
| CallbackQueue.QueueIsRecentSuffix | src/util/callback_dispatcher.h:49-71 | in every run the queue is a suffix of what was pushed, within its depth, and pops are taken in pushing order |
| CallbackQueue.LostIffDisplaced | src/util/callback_dispatcher.h:53-55 | event i is lost if and only if push i + depth came before event i was popped |
| CallbackQueue.LosslessIffKeepsUp | src/util/callback_dispatcher.h:12-13 | nothing is lost if and only if an unbounded queue would never hold more than the depth, and then both behave alike |
| CallbackQueue.EventsAreConserved | src/util/callback_dispatcher.h:49-71 | events pushed = queued + handed out + lost |
| CallbackQueue.NothingLostMeansPrefix | src/util/callback_dispatcher.h:49-71 | with nothing lost, what was popped is the pushed history without a gap |
| StreamClient.MessageTellsEvent | src/grpc_server.cpp:1254-1277 | each of four event kinds has its own message with the user data, tile events have none |
| StreamClient.OutputIsOrderedSelection | src/grpc_server.cpp:1247-1283 | what is written is an in-order selection of what was pushed, with tile events left out |
| StreamClient.KeptIsExact | src/grpc_server.cpp:1254-1277 | the translation keeps exactly the events that have a message, in order |
| CallbackDispatch.CallbackDispatcher.Broadcast | src/util/callback_dispatcher.h:94-99 | every subscribed queue gets the event once per subscription, no other queue changes |
| CallbackDispatch.CallbackDispatcher.Subscribe | src/util/callback_dispatcher.h:102-105 | the subscription is added at the end |
| CallbackDispatch.CallbackDispatcher.Unsubscribe | src/util/callback_dispatcher.h:108-113 | every occurrence of the subscription is removed, the others keep their order |
| StreamTurns.BacklogByTheTurns | src/util/callback_dispatcher.h:49-71 | the number of events waiting after each turn: add the broadcasts, cap at 200, take one away if there is one |
| StreamTurns.NothingIsMissing | src/grpc_server.cpp:1247-1283 | while never more than 200 events wait and no write fails, what was written and what is due are the messages of everything broadcast |
| StreamTurns.PromptTurnsWriteEverything | src/grpc_server.cpp:1247-1283 | with at most one broadcast a turn and every write succeeding, everything broadcast is written |
| CallbackDispatch.CallbackChannel | src/grpc_server.cpp:1237-1289 | without exceptions, while other threads broadcast, subscribe and unsubscribe: after the turns taken exactly the messages due in them are written and exactly the events left are queued; the loop ends at the first cancelled turn or failed write; the reported count is the writes that succeeded, popped = written + filtered + at most one failed write, and the dispatcher has afterwards what the others made of its subscriptions |
| DispatchProtocol.Reachable | src/util/callback_dispatcher.h:94-113 | the invariant of every reachable state of all threads together |
| DispatchProtocol.PushedIsAWindow | src/util/callback_dispatcher.h:94-113 | what has been pushed to a call is exactly the broadcasts from its Subscribe to its Unsubscribe, its exception in between or now, short of at most the event being fanned out |
| DispatchProtocol.PushNumbersAreConsecutive | src/util/callback_dispatcher.h:94-99 | push number i to a call is of broadcast number i counted from its Subscribe: none is skipped, repeated or out of turn |
| DispatchProtocol.OutputIsFromWindow | src/grpc_server.cpp:1242-1285 | message by message, what is written is of the broadcast whose fan-out queued the event, in order, and made while the call was subscribed |
| DispatchProtocol.ClientsAgreeOnOrder | src/util/callback_dispatcher.h:94-99 | two broadcasts delivered to two clients are delivered to both in the same order |
| DispatchProtocol.ReturnedCallIsBalanced | src/grpc_server.cpp:1245-1285 | popped = written + filtered + at most one failed write, and eventsWritten is the successful writes |
| DispatchProtocol.DanglingIffThrew | src/grpc_server.cpp:1237-1299 | a pointer to a finished call's subscription remains if and only if that call threw between its Subscribe and its Unsubscribe |
| DispatchProtocol.FanOutGoesOnIff | src/util/callback_dispatcher.h:94-99 | a fan-out can go on if and only if it has reached everybody or the next subscriber did not throw between its Subscribe and its Unsubscribe |
| DispatchProtocol.ThrowLeavesAStuckFanOut | src/grpc_server.cpp:1291-1299 | a run in which one exception leaves the next broadcast pushing through a dead pointer |
| DispatchProtocol.QueueRunsAlone | src/util/callback_dispatcher.h:49-71 | in any interleaving each queue does exactly what it would do run by itself |
| DispatchProtocol.ClientIsLossless | src/util/callback_dispatcher.h:12-13 | a client loses nothing if and only if its consumer never was more than the depth behind |
| DispatchProtocol.ClientMissesIff | src/util/callback_dispatcher.h:53-55 | a client misses an event sent to it if and only if that was still queued when 200 more, or whatever the depth is, had been sent |
| DispatchProtocol.WindowIsAccountedFor | src/grpc_server.cpp:1242-1285 | broadcasts made while a call was subscribed = written + filtered + in hand or refused + queued + lost |
| DispatchProtocol.PromptClientMissesNothing | src/util/callback_dispatcher.h:12-13 | such a client pops its whole window without a gap, up to what is still queued |
| DispatchProtocol.UninterruptedFanOut | src/util/callback_dispatcher.h:94-99 | the steps of one broadcast leave every queue as the contract of the method Broadcast says, if the subscribers pushed to have not thrown |
| DispatchProtocol.UninterruptedTurn | src/grpc_server.cpp:1247-1283 | the steps of one turn take the oldest event, write its message if it has one, and touch no other call |
| TtlStore.ExpiryIsExact | src/util/handle_registry.cpp:84-94 | the table is exactly the entries not taken out otherwise and no older than the time-to-live at the latest complete purge |
| TtlStore.PutsAreAccountedFor | src/util/handle_registry.cpp:36-61 | every value put in is held, was taken out, or was written over, counted |
| TtlStore.FreshKeysOverwriteNothing | src/util/handle_registry.cpp:36-43 | with fresh keys nothing is written over |
| HandleRegistry.HandleRegistry.Register | src/util/handle_registry.cpp:6-13 | the item is entered under its identity; null and dead items answer 0 and change nothing |
| HandleRegistry.HandleRegistry.Lookup | src/util/handle_registry.cpp:15-29 | answers a live item or null; a stale entry is evicted and counted on the spot |
| HandleRegistry.HandleRegistry.Unregister | src/util/handle_registry.cpp:31-34 | only that entry goes |
| HandleRegistry.HandleRegistry.RegisterArray | src/util/handle_registry.cpp:36-43 | purge, then an entry under the next synthetic handle |
| HandleRegistry.HandleRegistry.LookupArray | src/util/handle_registry.cpp:45-49 | the array under the handle or null |
| HandleRegistry.HandleRegistry.UnregisterArray | src/util/handle_registry.cpp:51-54 | only that array goes |
| HandleRegistry.HandleRegistry.Clear | src/util/handle_registry.cpp:56-61 | both tables are emptied, the counter starts over, the eviction count stays |
| HandleRegistry.HandleRegistry.PurgeStaleArrays | src/util/handle_registry.cpp:84-94 | erasing while iterating, in any order, keeps exactly the entries within the time-to-live |
| RegistryProtocol.LookupAnswersHistory | src/util/handle_registry.cpp:6-34 | Lookup answers the item last registered under the handle since the last Clear or Unregister if it lives, else null, and that item has that identity |
| RegistryProtocol.ItemsAreNamed | src/util/handle_registry.cpp:6-13 | every entry is of an item whose identity is its handle, or that is dead, even if it died between the two parts of Register |
| RegistryProtocol.IdentityIsKept | src/util/handle_registry.cpp:9-12 | an item has the identity it was registered under until it dies, whatever runs in between |
| RegistryProtocol.DeadItemsAreNeverAnswered | src/util/handle_registry.cpp:20-27 | a dead item is never answered again under any handle, while its entry awaits eviction or later |
| RegistryProtocol.ClearForgetsEverything | src/util/handle_registry.cpp:56-61 | after Clear no handle resolves until registered again, whatever ran before and since |
| RegistryProtocol.DestroyedHandleStaysGone | src/grpc_server.cpp:1380-1384 | after destroy the handle stays unresolved among other clients' steps, even if a late Register of the same item completes |
| RegistryProtocol.UninterruptedRegister | src/util/handle_registry.cpp:6-13 | the two parts of Register together do what the method does |
| RegistryProtocol.EntriesAreConserved | src/util/handle_registry.cpp:6-81 | entries made = present + evicted + unregistered + dropped by Clear, and the diagnostic counter counts evictions across clears |
| RegistryProtocol.ArrayHandlesAreFresh | src/util/handle_registry.h:69-73 | live array handles lie from 2^52 to the counter, so a registration writes over nothing |
| RegistryProtocol.ArraysAreOwnedOrFreedOnce | src/util/handle_registry.h:35-38 | each array handed over is owned by exactly one entry or was freed exactly once |
| RegistryProtocol.ArrayHandlesAreNotReused | src/util/handle_registry.cpp:40-42 | between two clears a handle given out is not given out again |
| RegistryProtocol.ArrayHandleLeadsToItsArray | src/util/handle_registry.cpp:36-61 | over any later run, an array handle leads to the array it was given out for if and only if no Clear, no UnregisterArray of it and no registration more than 60 s later came; else no handle leads to that array |
| RegistryProtocol.ClearGivesHandlesOutAgain | src/util/handle_registry.cpp:56-61 | a run in which one handle leads first to one array and, after a Clear, to another |
| RegistryProtocol.NextHandleIsSafeIff | src/util/handle_registry.h:69-72 | the next array handle lies in [2^52, 2^53) if and only if fewer than 2^52 arrays were registered in the epoch, modulo a full turn of the counter |
| RegistryProtocol.CounterRunsOver | src/util/handle_registry.cpp:40 | where the counter reaches handle 0 |
| RegistryProtocol.ArraysExpireExactly | src/util/handle_registry.cpp:36-61 | live arrays are exactly those of the epoch, not unregistered, at most 60 s old at the latest registration |
| PinTree.RegisterPinChildren | src/grpc_server.cpp:214-228 | the recursive walk terminates on every graph and registers the nodes of Walk in order, up to the one at which the SDK throws |
| PinTree.WalkIsBoundedReach | src/grpc_server.cpp:214-228 | the nodes visited are exactly those a path of 1 to budget connections leads to |
| PinTree.WalkIsClosureIffShallow | src/grpc_server.cpp:59-62 | the walk visits everything below the node if and only if all of it lies within 23 connections |
| PinTree.FewNodesAreShallow | src/grpc_server.cpp:59-62 | with at most 23 nodes below, in any graph, shared or cyclic, all of them lie within 23 connections |
| PinTree.ChainIsShallowIff | src/grpc_server.cpp:214-228 | n nodes in a row lie within reach if and only if n is at most 23, so no larger number would do |
| PinTree.WalkMakesResolvable | src/grpc_server.cpp:211-228 | every living node within 23 connections resolves to itself afterwards, every other handle answers as before |
| HandleRpcs.RequireItem | src/grpc_server.cpp:138-155 | FAILED_PRECONDITION, INVALID_ARGUMENT, NOT_FOUND or the live item, each in its case |
| HandleRpcs.RequireKind | src/grpc_server.cpp:158-189 | the same, and INVALID_ARGUMENT for an item of another kind; OK exactly for a live item of that kind |
| HandleRpcs.RequireArray | src/grpc_server.cpp:192-209 | the same for arrays |
| HandleRpcs.RequireEvictsIffDead | src/util/handle_registry.cpp:15-29 | a required lookup takes out exactly the entry it found dead and changes no answer |
| HandleRpcs.Destroy | src/grpc_server.cpp:1376-1387 | the item and what dies with it are dead and the handle is unregistered; an error of the lookup changes no item; if the SDK throws the handle stays registered and stops resolving exactly if its item died |
| HandleRpcs.DestroyLeavesTheLiving | src/grpc_server.cpp:1376-1387 | handles of items that died no longer resolve, all others resolve as before |
| HandleRpcs.DestroyedHandleIsNotFound | src/grpc_server.cpp:149-153 | a second destroy answers NOT_FOUND, with any steps of other clients before, between and after |
| HandleRpcs.NothingResolvesIff | src/grpc_server.cpp:455-477 | after the SDK was asked for another scene nothing resolves if and only if it did not throw or nothing would have resolved anyway |
| HandleRpcs.HandleOutlivesThrowingReset | src/grpc_server.cpp:458-460 | an item whose handle still resolves after a reset that threw |
| HandleRpcs.ResetProject | src/grpc_server.cpp:455-463 | without an exception no handle of any kind resolves; with one the answer is INTERNAL and the registry is as it was |
| HandleRpcs.LoadProject | src/grpc_server.cpp:464-477 | the same for a non-empty path even when loading failed; an empty path changes nothing |
| HandleRpcs.ClearedHandleIsNotFound | src/grpc_server.cpp:455-477 | after the clear every handle answers NOT_FOUND until registered again |
| HandleRpcs.Create | src/grpc_server.cpp:1898-1934 | the error cases in their order, else the node is registered and resolves under the answered handle, with its pin tree if pins are configured and with nothing else changed if not; with an exception the answer is INTERNAL and what was registered by then stays |
| HandleRpcs.NewNodeResolves | src/grpc_server.cpp:1922-1930 | the new node resolves whether its pins are walked or not |
| HandleRpcs.InterruptedTreeResolvesIff | src/grpc_server.cpp:214-228 | after an interrupted create a living node resolves if and only if it is the new one, came before the exception in the walk, or resolved already |
| HandleRpcs.CreatedTreeResolves | src/grpc_server.cpp:1922-1930 | right after create every living node within 23 connections, or below it in a shallow graph, resolves |
| HandleRpcs.GetOwnedItems | src/grpc_server.cpp:2240-2254 | the graph's items are in a new array that the registry owns under the answered handle; the registry owns the new array if and only if the answer is OK |
| HandleRpcs.ArrayGet | src/grpc_server.cpp:1863-1883 | the item at an index in bounds is registered and resolves under the answered handle; each error in its case |
| HandleRpcs.OwnedItemsAreGot | src/grpc_server.cpp:2240-2254 | over any run between the two RPCs, `get` on the answered handle gives the identity of the graph's item at that very index, until the array is taken out |
| SharedFrames.SharedFrameService.PurgeStaleClones | src/grpc_server.cpp:2446-2458 | keeps exactly the clones within 30 s and releases each of the others once; if it is cut short, that holds of the entries it had got to |
| SharedFrames.SharedFrameService.GrabSharedFrame | src/grpc_server.cpp:2481-2614 | for every early exit and every place an exception can come from: what becomes of the table, of the clone, of expired clones and of the render result, and the status, image and frame number answered |
| SharedFrames.AnswerByTheAnswers | src/grpc_server.cpp:2486-2562 | without an exception: the status, the frame, the return of the render result and the fate of the clone by what the SDK and the system answered |
| SharedFrames.AnswerAfterThrow | src/grpc_server.cpp:2484-2613 | an exception never adds a frame, a release or an OK that there would not have been without it |
| SharedFrames.SharedFrameService.ReleaseSharedFrame | src/grpc_server.cpp:2616-2635 | a tracked clone is released and forgotten, a second release does nothing |
| FrameProtocol.ClonesAreReleasedExactlyOnce | src/grpc_server.cpp:2484-2613 | at any time in any interleaving a clone is in one call's hands, tracked once, or released exactly once; none of these if and only if an exception ended a call that owned it |
| FrameProtocol.ThrowLeaksTheClone | src/grpc_server.cpp:2556-2561 | a run after which a clone is neither owned, nor tracked, nor released |
| FrameProtocol.NumbersAreDistinct | src/grpc_server.cpp:2556-2561 | frame numbers in flight and recorded are pairwise distinct |
| FrameProtocol.TrackedFrameIsNew | src/grpc_server.cpp:2556-2561 | recording a clone never writes over another |
| FrameProtocol.ClonesExpireExactly | src/grpc_server.cpp:2443-2458 | tracked clones are exactly those recorded, not released by the client or by a purge cut short, and at most 30 s old at the latest complete purge |
| FrameProtocol.FrameLeadsToItsClone | src/grpc_server.cpp:2443-2458 | over any later run, a frame number leads to the clone recorded under it if and only if no client released it and no purge got to it more than 30 s later; else no number leads to that clone |
| FrameProtocol.RenderResultIsReturnedOnce | src/grpc_server.cpp:2493-2530 | a call gives a render result with images back exactly once if and only if it did not throw while holding it; all successful grabs balance if and only if, besides, none came without images |
| FrameProtocol.ThrowKeepsTheResult | src/grpc_server.cpp:2493-2518 | a run in which a call that throws never gives its render result back |
| FrameProtocol.UninterruptedGrab | src/grpc_server.cpp:2481-2614 | the steps of one call, with any exception, together do what the method does: table, released and leaked surfaces, number, image and answer |
| PinInfoHandles.DecodeOfEncode | src/grpc_server.cpp:67-73 | decoding gives the low 48 bits of the node and the low 16 of the pin |
| PinInfoHandles.EncodeOfDecode | src/grpc_server.cpp:67-73 | every 64-bit handle is the encoding of what it decodes to |
| PinInfoHandles.SameHandleIff | src/grpc_server.cpp:67-73 | two pairs share a handle if and only if those bits agree |
| PinInfoHandles.PinInfoIx | src/grpc_server.cpp:2172-2186 | a handle for an index in range, none otherwise; each error in its case |
| PinInfoHandles.GetApiNodePinInfo | src/grpc_server.cpp:2398-2422 | OK unless the node throws; information exactly for a live node with that pin |
| PinInfoHandles.InfoIsOfThatPinIff | src/grpc_server.cpp:2172-2186 | over any run between the two RPCs, the handle leads back to that node and pin if and only if the node's handle is below 2^48, the index below 2^16, and the node is alive, registered and has the pin |
| PinInfoHandles.WideHandleMissesItsNode | src/grpc_server.cpp:67-69 | two nodes that share a pin handle |
| PixelBuffers.GuardIsExact | src/grpc_server.cpp:968 | the nested division rejects exactly the products above SIZE_MAX |
| PixelBuffers.PixelLayout | src/grpc_server.cpp:961-967 | a pixel has 16 bytes in an HDR image and 4 in any other |
| PixelBuffers.BufferSize | src/grpc_server.cpp:961-981 | the byte count by that layout, or nothing when it exceeds UINT32_MAX |
| PixelBuffers.PackImages | src/grpc_server.cpp:926-987 | one entry per image in order, with the whole buffer exactly when there is memory, positive dimensions and at most UINT32_MAX bytes, by the pixel layout; known kinds are sent as they are |
| PixelBuffers.GrabRenderResult | src/grpc_server.cpp:919-995 | the images of a successful grab; the result is returned, once, if and only if nothing is thrown while it is held, be it in the packing or in the release |
| Attributes.GuardIsFamilyExceptLong2 | src/grpc_server.cpp:1563-1618 | the guard lets through exactly the attribute's family, and a pair of longs everywhere |
| Attributes.CutIsFirstNul | src/grpc_server.cpp:1685-1687 | a string is cut at its first NUL |
| Attributes.NormalIsIdempotent | src/grpc_server.cpp:1674-1687 | padding or cutting a matrix to three rows and cutting a string are done once and for all |
| Attributes.NormalIsStorable | src/grpc_server.cpp:1674-1687 | the normal form is of three rows and without NUL, and is the value itself exactly if that was so already |
| Attributes.NormalReadsBack | src/grpc_server.cpp:1620-1687 | the normal form is the value itself but for the rows of a matrix and what follows a NUL |
| Attributes.SetThenGet | src/grpc_server.cpp:1439-1527 | a value of the attribute's own kind is read back: a scalar or vector unchanged, three rows of a matrix with zeros for those not sent, a string up to its first NUL; other attributes unchanged |
| Attributes.SetIsIdempotent | src/grpc_server.cpp:1620-1706 | writing the value or what was read back changes nothing more |
| Attributes.UnchangedIffNotStored | src/grpc_server.cpp:1544-1707 | exactly when a write, answered with success or not, leaves all attributes as they were; success exactly in its cases; never another attribute or type |
| Attributes.FailedWriteIsSeen | src/grpc_server.cpp:1697-1703 | a write answered INTERNAL whose value is read back |
| Attributes.RetryEndsAlike | src/grpc_server.cpp:1620-1707 | sending a write again ends as sending it once, wherever the first attempt threw |
| Attributes.ReadGivesLastStored | src/grpc_server.cpp:1420-1707 | after any run of writes, with exceptions anywhere, a read gives what the latest write that stored anything made of its value |
| Attributes.Long2SlipsThrough | src/grpc_server.cpp:1647-1651 | a pair of longs written to a boolean attribute is reported as a success |
| Attributes.Item.SetValueByAttrId | src/grpc_server.cpp:1544-1707 | the write, with its row loop and its C string, and wherever the SDK throws |
| Attributes.Item.GetValueByAttrId | src/grpc_server.cpp:1420-1541 | the read, with the exceptions that are caught on the spot and those that are not; a value answered is of the attribute's own kind |
| Attributes.Item.ReadMatrix | src/grpc_server.cpp:1675-1681 | the rows sent over a zero matrix: three rows |
| Attributes.Item.ReadCString | src/grpc_server.cpp:1686 | what the SDK reads of a string |
| ServerLog.Log.Write | src/util/server_log.h:89-139 | one call adds its line to file and sink exactly when the level's policy says so |
| ServerLog.Log.WriteAll | src/util/server_log.h:89-139 | a run of calls adds the lines of FileLines and SinkLines |
| ServerLog.WhatIsWritten | src/util/server_log.h:89-139 | which errors, requests and responses are written at which level, by the two method sets |
| ServerLog.ShortenedDetail | src/util/server_log.h:128-134 | details are written whole up to 800 characters and cut there otherwise |
| ServerLog.LevelsFormAChain | src/util/server_log.h:89-139 | file lines at a quieter level are a subsequence of those at a more talkative one |
| ServerLog.SinkIgnoresLevel | src/util/server_log.h:97-111 | sink lines are the same at off, warn, info and debug |
| ServerLog.FileIsSinkAtDebugAndVerbose | src/util/server_log.h:97-139 | file lines are the sink lines, long details cut, at debug and at verbose |
| ServerLog.ParseOfName | src/util/server_log.h:154-172 | parsing undoes naming; what is no level name becomes debug |
| MethodNames.RFind | src/util/logging_interceptor.h:28-34 | the last occurrence, or none |
| MethodNames.LoggingInterceptor.constructor | src/util/logging_interceptor.h:23-41 | the method is what follows the last slash, the service what stands before it from its last dot on, unknown without a slash |
| MethodNames.ParseIsUnique | src/util/logging_interceptor.h:23-41 | a method string has one parse only |
| MethodNames.ParseOfMethodString | src/util/logging_interceptor.h:4-6 | `/package.Service/Method` is taken apart into Service and Method |
| MethodNames.ParseWithoutSlash | src/util/logging_interceptor.h:36-39 | without an inner slash the service is unknown and the rest is the method |

## Left out

- gRPC and protobuf transport, and everything the SDK does beyond identities, kinds, pins, owned items, images and stored attribute values.
- RPCs that forward one call or copy metadata, such as `nodeInfo`, statistics and device queries: each is settled by reading one branch. The same holds for the dimensions that `grabSharedFrame` fills in from statistics.
- `SubscriberCount`, `Size`, `ItemCount`, `ArrayCount` and `StaleEvictions`, each of which reads one or two sizes.
- A queue depth of zero, for which the drop loop would pop an empty queue; the server uses 200.
- Events pushed through a pointer to a subscription that is gone: that is undefined, so no step of `DispatchProtocol` does it and nothing is said about what follows.
- Allocation failures inside the containers of a queue, the dispatcher's list or the registry's tables, and in log strings other than those in `grabSharedFrame`.
- ResetProject, LoadProject: a registry already destroyed, which the code would dereference.
- GrabSharedFrame: the duplicated handle that stays open in the client process when the call throws or fails after duplicating it.
- An SDK release of a surface that releases it and throws all the same: `release()` is taken to do its work or to throw. In a purge or a `releaseSharedFrame` the entry would stay and be released again.
- Counters of written events are unbounded in `StreamClient`; the eviction counter, the array handle counter and the frame counter do wrap at 2^64.
- ClonesAreReleasedExactlyOnce: for fewer than 2^64 frame numbers taken; after that numbers repeat, and recording under a number still in use would leak a clone.
- ArraysAreOwnedOrFreedOnce: for at most 2^64 - 2^52 registrations between two clears, where `CounterRunsOver` shows the counter at 0.
- ArrayHandleLeadsToItsArray: the same bound.
- InfoIsOfThatPinIff: shifts and masks are modelled by their arithmetic on 64-bit numbers, not by bit-vectors.
- RegisterPinChildren: the pin graph does not change during one walk.
- GetOwnedItems: `findItemsByName` and `findNodes` hand over arrays in the same way and are not modelled apart.
- What happens to an item after the registry's lock is released: lookups are modelled up to their answer.
- Evaluation after an attribute write, and the `evaluate` flag: taken not to change stored attributes. Narrowing of floating-point numbers: scalars are exact.
- What the SDK makes of a value written to another type of the attribute's family: only that the result is of the attribute's type.
- Opening and naming the log file, timestamps, and the contents of the two method sets, which are parameters. The guard that rejects calls while the SDK is not ready.
- Win32 calls: opening the client process and duplicating a handle may fail, and nothing else.
