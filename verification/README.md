# A verified model of the core of libcouchbase

This project models, in Dafny, the parts of libcouchbase where correctness is hardest to see from the
code: the retry scheduler on its intrusive lists, the ring buffer, the application of a new
cluster map, the JSON tree parser, printer and item pool, the refresh throttle, the framing and decoding
of responses, the host list and the timings histogram. `dafny verify dfyconfig.toml` checks all of it.

Where the source changes things in place, so does the model: there are classes with arrays, pointers or
map and sequence fields, whose methods have the source's loops. Each such method is proved against a function
on values; the laws (conservation, refinement, round trips, invariants over whole runs) are proved about those
functions, for all inputs.

| file | models |
|---|---|
| `Common.dfy` | the status codes, integer limits and decimal numerals the other files share |
| `List.dfy` | the circular doubly linked list and the counted list of `src/list.c`, on the heap |
| `Sllist.dfy` | the singly linked list with tail pointer and removing iterator of `src/sllist-inl.h`, on the heap |
| `RetryErrors.dfy`, `RetryQueue.dfy`, `RetryFlush.dfy`, `RetryRuns.dfy`, `RetryScheduler.dfy` | the retry queue of `src/retryq.cc`: laws on values, and the object with its loops over two linked lists of `List.dfy` |
| `SendQueues.dfy` | the clean-up of send queues in `RetryQueue::add`, over the lists of `Sllist.dfy` |
| `RingBuffer.dfy`, `RingMemory.dfy` | the byte ring of `src/ringbuffer.c`: laws, and the structure over an array |
| `RetryCheck.dfy` | the retry decision of `src/retrychk.cc` |
| `NewConfig.dfy`, `MapChange.dfy` | `src/newconfig.cc` with the parts of `mcreq.c` and `mcserver.cc` it drives |
| `Json.dfy`, `JsonText.dfy`, `JsonPrinter.dfy` | parsing and printing of `contrib/cJSON/cJSON.c`, and its loops over text |
| `JsonLayout.dfy` | the texts the parser accepts, with any layout, and what they mean |
| `JsonRoundTrip.dfy` | the layout the printer chooses, and that parsing undoes printing |
| `JsonPool.dfy`, `JsonParser.dfy` | the item pool, deletion, and the parser as it links pool items |
| `Throttle.dfy` | the refresh throttle of `src/bootstrap.cc` |
| `Framing.dfy` | `MemcachedResponse` of `src/packetutils.h` |
| `Subdoc.dfy` | multi-result and observe bodies in `src/handler.cc` |
| `HostList.dfy` | `src/hostlist.cc` |
| `Histogram.dfy` | `src/timings.c` |

Some promises hold only under a condition; the model keeps the code as it is and proves the exact
condition, with a lemma or method at a concrete input where it fails (named last):

- A full ring is taken for an empty one by write, update and the write view (`Rings.WriteMeetsIff`,
  `Rings.UpdateReplaces`, `Rings.WriteIovShowsAllIff`; `Rings.FullRing`).
- `ringbuffer_memcpy` copies only when the write space is contiguous (`RingMemory.RingBuffer.CopyFrom`;
  `RingMemory.CopyThatAborts`).
- The retry counter of a packet has eight bits (`RetryFlush.RescheduledOnceMoreIff`, `ClusterMaps.RetryBudget`;
  `RetryFlush.RetriesWrap`).
- `RetryQueue::reset_timeouts` does not sort again (`RetryRuns.ResetKeepsIff`; `RetryRuns.ResetCanLoseOrder`).
- `sllist_prepend` on an empty list keeps the item's old pointer (`SingleList.Sllist.Prepend`; `SingleList.StaleNode`).
- Two old servers with the same data host overwrite each other in `replace_config` (`ClusterMaps.NoServerLostIff`,
  `ClusterMaps.MapChangeConservesIff`; `ClusterMaps.SharedHost`).
- A guessed vbucket index is stored in a `char` (`ClusterMaps.GuessOverridesIff`; `ClusterMaps.GuessOf128`).
- Printing JSON drops control characters (`Json.StringRoundTripIff`, `JsonRoundTrip.RoundTripIff`;
  `JsonRoundTrip.LostCharacter`).
- The packet size in `MemcachedResponse::load` is a 32-bit sum (`Framing.AbortsIff`; `Framing.WrappedSize`).
- Multi-result bodies are decoded without bounds checks (`Subdoc.DecodesIff`, `Subdoc.ParseResults`; `Subdoc.CutOff`).
- An IPv6 host is rendered in brackets, which parse back only with a colon and without a closing bracket
  (`HostList.RenderThenParseIff`; `HostList.NoColonInBrackets`).

Where comments and code disagree the code was followed: `bootstrap.h` says that the error counter counts throttled
requests only and must go above the threshold, while the code counts every request that reaches the throttle and
lets one through at the threshold; `hostlist.h` promises LCB_ERR_INVALID_ARGUMENT for a bad host, while the code returns
LCB_ERR_INVALID_HOST_FORMAT.

## Model

| member | source | states |
|---|---|---|
| `IntrusiveList.Splice` | src/list.c:26-32 | linking a node between two neighbours turns a well-formed circular chain into the chain with the node inserted there, every `next`/`prev` pair included |
| `IntrusiveList.Unlink` | src/list.c:44-54 | unlinking a node leaves the well-formed chain without it, and the node's own pointers are cleared |
| `IntrusiveList.List.constructor` | src/list.c:20-24 | a new list is well formed and empty |
| `IntrusiveList.List.Prepend` | src/list.c:34-37 | well formed afterwards; the contents are the item followed by the old contents |
| `IntrusiveList.List.Append` | src/list.c:39-42 | well formed afterwards; the contents are the old contents followed by the item |
| `IntrusiveList.List.Delete` | src/list.c:50-54 | well formed; exactly the item's occurrence is gone, the order of the rest is kept, a sorted list stays sorted |
| `IntrusiveList.List.Shift` | src/list.c:56-66 | null exactly on an empty list, otherwise the first item is removed and returned |
| `IntrusiveList.List.Pop` | src/list.c:68-78 | null exactly on an empty list, otherwise the last item is removed and returned |
| `IntrusiveList.List.Contains` | src/list.c:80-89 | true exactly when the item is the head or among the linked nodes |
| `IntrusiveList.List.AddSorted` | src/list.c:91-106 | well formed; adds exactly the item, behind every element with an equal or smaller key and in front of the first larger one; a sorted list stays sorted |
| `IntrusiveList.List.Walk` | src/list.h:103-105 | following the next pointers from the head meets every item in order and then the head again |
| `IntrusiveList.CountedList.Append` | src/list.c:113-117 | the size field equals the number of linked nodes afterwards |
| `IntrusiveList.CountedList.Prepend` | src/list.c:118-122 | the size field equals the number of linked nodes afterwards |
| `IntrusiveList.CountedList.Delete` | src/list.c:123-127 | the size field equals the number of linked nodes afterwards |
| `IntrusiveList.CountedList.Pop` | src/list.c:128-135 | removes and returns the last node if there is one, and keeps the size exact |
| `IntrusiveList.CountedList.Shift` | src/list.c:136-143 | removes and returns the first node if there is one, and keeps the size exact |
| `SingleList.Sllist.Append` | src/sllist-inl.h:141-152 | well formed (`last` null exactly when empty, else the final node); contents extended at the end |
| `SingleList.Sllist.Prepend` | src/sllist-inl.h:154-163 | contents extended at the front; the list is well formed afterwards if and only if it was not empty or the item's stale `next` was null |
| `SingleList.StaleNode` | src/sllist-inl.h:114-163 | a node taken from the front of one list and put in front of an empty one leaves that one broken |
| `SingleList.Sllist.Insert` | src/sllist-inl.h:165-172 | the item sits right behind the given node and `last` is right |
| `SingleList.Sllist.RemoveHead` | src/sllist-inl.h:114-125 | the first item is gone; nothing happens on an empty list |
| `SingleList.Sllist.IterInit` | src/sllist-inl.h:63-79 | the iterator stands on the first item with the right predecessor and successor |
| `SingleList.Sllist.IterIncr` | src/sllist-inl.h:81-98 | moves on by one item, or stays in place after a removal |
| `SingleList.Sllist.IterRemove` | src/sllist-inl.h:100-112 | takes out exactly the current item, keeps `last` right, and the iteration can go on |
| `SingleList.Sllist.RemoveMatching` | src/retryq.cc:368-382 | removing any chosen elements while iterating leaves exactly the order-preserving filter, well formed |
| `SingleList.KeptMembers` | src/retryq.cc:368-382 | the filter holds exactly the elements that were not chosen, each once |
| `SingleList.Sllist.Contains` | src/sllist-inl.h:32-42 | true exactly when the node is linked |
| `SingleList.Sllist.GetSize` | src/sllist-inl.h:44-53 | the number of linked nodes |
| `SingleList.Sllist.Remove` | src/sllist-inl.h:127-139 | exactly the given item is gone, order kept |
| `SingleList.Sllist.InsertSorted` | src/sllist-inl.h:174-188 | adds exactly the item, in front of the first element that is not smaller |
| `SingleList.Sllist.Reenqueue` | src/mc/mcreq.c:238-244 | append, remove and sorted insert together add the packet once and keep the start-time order |
| `RetryQueues.SlotIsUnique` | src/list.c:91-106 | in either list only one place has nothing larger in front of it and something larger right behind it |
| `RetryQueues.EnlistKeeps` | src/retryq.cc:401-402 | adding an operation to both lists keeps them twins in order and adds it exactly once |
| `RetryQueues.EraseKeeps` | src/retryq.cc:146-150 | erasing takes the operation out of both lists and keeps them twins in order |
| `RetryQueues.FailKeeps` | src/retryq.cc:152-179 | failing moves one operation from the lists to the answered ones, once, and changes no other record |
| `RetryQueues.ExpireTakesExpired` | src/retryq.cc:225-236 | the early exit of the timeout loop misses nothing: exactly the expired operations are answered, each with the status `fail` computes, and the others are untouched |
| `RetryQueues.RetryHeadKeeps` | src/retryq.cc:239-285 | one round of the second loop enqueues, sets aside or fails the head, by the map, the settings and the config monitor, and touches nothing else |
| `RetryQueues.RetryTakesDue` | src/retryq.cc:239-285 | the early exit of the second loop misses nothing: exactly the due operations leave the lists, none is lost or duplicated |
| `RetryQueues.RetryRoutes` | src/retryq.cc:253-284 | each due operation with a master is enqueued once on that master's pipeline and on no other |
| `RetryQueues.RetrySetsAside` | src/retryq.cc:264-271 | what is set aside was due, has no master, and carries the eight-bit counter raised by one, a try time that is the delay for that counter from now, and nothing else changed but the remembered error |
| `RetryQueues.RetryAnswers` | src/retryq.cc:258-274 | what the second loop answers was due, has no master, and gets the status that says so |
| `RetryFlush.RetryKeepsIff` | src/retryq.cc:258-274 | a due operation without a master is set aside if and only if the setting says so or the config monitor is refreshing when it is asked, which is once for each such operation queued ahead |
| `RetryFlush.ExpireFilters` | src/retryq.cc:225-236 | the timeout loop, which walks the other list, leaves the scheduling list as the order-preserving filter of the unexpired |
| `RetryFlush.ReaddKeeps` | src/retryq.cc:287-292 | what was set aside is put back into both lists, each once and in order |
| `RetryFlush.FlushConserves` | src/retryq.cc:219-295 | `flush` keeps the twin lists, loses and duplicates no operation, leaves nothing expired queued, and without throttle leaves nothing untouched |
| `RetryFlush.FlushRoutes` | src/retryq.cc:219-295 | per pipeline, what `flush` enqueues is exactly what the map names among the unexpired due operations, appended behind what was there |
| `RetryFlush.FlushOutcome` | src/retryq.cc:219-295 | each queued operation is afterwards exactly one of: answered once with its own error or the timeout, left alone, enqueued once on its master, tried again the delay from now, or answered once with NO_MATCHING_SERVER; which one follows from the clock, the 5 ms of fuzz, the map, the settings and the answer of the config monitor at its place among those that ask |
| `RetryFlush.FlushLeavesFuture` | src/retryq.cc:219-295 | after every flush, throttled or not, nothing that is queued is expired or has a try time in the past |
| `RetryFlush.FlushSends` | src/retryq.cc:219-295 | what a flush appends to a pipeline is, in scheduling order, exactly the unexpired due operations whose master it is |
| `RetryFlush.FlushSettles` | src/retryq.cc:219-295 | both together, for all operations and all pipelines |
| `RetryFlush.FlushPlaces` | src/retryq.cc:219-295 | an operation is still queued after `flush` exactly in the two cases that keep it, and its record then, field by field |
| `RetryFlush.RescheduledOnceMoreIff` | src/retryq.cc:270 | a rescheduled operation has one more retry if and only if its counter was below 255; at 255 it has none |
| `RetryFlush.RetriesWrap` | src/mc/mcreq.h:348 | a concrete queue in which that happens |
| `RetryRuns.AddKeeps` | src/retryq.cc:329-402 | `add` keeps the twin lists, adds the operation once and leaves all others as they were |
| `RetryRuns.AddedIsAdmitted` | src/retryq.cc:329-402 | the record an operation is queued with: try time at once, after the interval for a wrong server or after the delay for its retries; window, counter, vbucket, status and remembered error |
| `RetryRuns.FreshOpWindow` | src/retryq.cc:336-355 | a retry spec never lengthens an operation's time window and clips its deadline to the maximum duration |
| `RetryRuns.ResetKeepsIff` | src/retryq.cc:465-474 | `reset_timeouts` keeps the invariant if and only if the windows are already in timeout order |
| `RetryRuns.ResetKeepsUniform` | src/retryq.cc:465-474 | in particular when all queued operations share the same window |
| `RetryRuns.ResetRestarts` | src/retryq.cc:465-474 | every queued operation has its whole window again from now on, and nothing else changes |
| `RetryRuns.ResetCanLoseOrder` | src/retryq.cc:465-474 | a concrete queue that `reset_timeouts` puts out of order, after which the timeout loop leaves an expired operation queued |
| `RetryRuns.TeardownAnswersAll` | src/retryq.cc:488-501 | teardown answers every queued operation exactly once, in scheduling order and with the generic error whatever happened before, and empties both lists |
| `RetryErrors.TimeoutsDoNotMask` | src/retryq.cc:124-144 | over any history of failures a timeout is remembered if and only if there was nothing but timeouts |
| `RetryErrors.SpecificErrorSurvives` | src/retryq.cc:124-144 | a specific network error survives all later generic network errors and timeouts |
| `RetryErrors.RememberedIs` | src/retryq.cc:124-144 | which error of a whole history is remembered: the one behind which only timeouts and, if it is a network error, generic network errors follow, and in front of which, if it is generic itself, no network error stands |
| `RetryErrors.DecisiveExists` | src/retryq.cc:124-144 | every history that is not made of timeouts alone has such an error |
| `RetryErrors.TimeoutReports` | src/retryq.cc:163-174 | an expired operation reports its remembered cause, except for a network error without a response or a missing bucket |
| `RetryRuns.TimerIsEarliest` | src/retryq.cc:181-210 | the timer is off exactly for an empty queue; otherwise it is set, in whole microseconds rounded down, to the time left until the least try time or deadline over all queued operations, or to 0 if that has passed |
| `RetryRuns.RunKeepsTwins` | src/retryq.cc:219-414 | over every run of add, flush and teardown the two lists hold the same operations, each once and in order, and every operation that entered is accounted for exactly as often |
| `RetryScheduler.SortedPlace` | src/list.c:91-106 | what `lcb_list_add_sorted` promises about its list of nodes fixes the operation's place in the order of the specification |
| `RetryScheduler.TakeOut` | src/list.c:44-54 | unlinking an operation's node takes exactly that operation off the list, with every remaining node still its operation's own |
| `RetryScheduler.PutIn` | src/list.c:91-106 | linking an operation's node puts it at the specified place |
| `RetryScheduler.RetryQueue.EraseOp` | src/retryq.cc:146-150 | one operation's two nodes leave the two circular lists, which stay linked; the sequences of owners are the specified ones |
| `RetryScheduler.RetryQueue.AddSorted` | src/retryq.cc:290-291 | one operation's two nodes enter the two circular lists at their sorted places |
| `RetryScheduler.RetryQueue.FailOp` | src/retryq.cc:152-179 | on the linked lists: exactly one answer with the computed status, and the operation's nodes gone from both lists |
| `RetryScheduler.RetryQueue.Schedule` | src/retryq.cc:181-210 | the timer is off exactly for an empty queue, else the whole microseconds until the earliest try time or deadline, or 0 |
| `RetryScheduler.RetryQueue.ExpireLoop` | src/retryq.cc:225-236 | the walk along the saved `next` pointers of `tmoops`, unlinking as it goes, with its early exit computes the timeout step |
| `RetryScheduler.RetryQueue.KeepOp` | src/retryq.cc:264-271 | an operation without a server leaves both lists, its scheduling node is linked into `resched_next`, and its record is the specified one |
| `RetryScheduler.RetryQueue.MoveAside` | src/retryq.cc:267-269 | one node moves from the scheduling list to `resched_next` and the other leaves the timeout list, all three staying well linked |
| `RetryScheduler.RetryQueue.DropOp` | src/retryq.cc:272-274 | the operation is answered and its nodes unlinked |
| `RetryScheduler.RetryQueue.RetryOne` | src/retryq.cc:253-284 | the body of the second loop computes one round of the specification |
| `RetryScheduler.RetryQueue.RetryLoop` | src/retryq.cc:239-285 | the walk along the saved `next` pointers of `schedops`, whose nodes move to `resched_next` meanwhile, with its early exit computes the retry step |
| `RetryScheduler.RetryQueue.ReaddLoop` | src/retryq.cc:287-292 | the walk along the saved `next` pointers of `resched_next`, whose nodes are linked into `schedops` meanwhile, meets each of them once and computes the re-adding step |
| `RetryScheduler.RetryQueue.FlushLists` | src/retryq.cc:219-292 | the three loops together compute the specified flush |
| `RetryScheduler.RetryQueue.FlushOps` | src/retryq.cc:219-295 | `flush` on the linked lists: every operation is settled as in `RetryFlush.FlushOutcome`, pipelines get exactly what is routed to them, what is left lies in the future, and the timer is set for the earliest moment |
| `RetryScheduler.RetryQueue.AddPacket` | src/retryq.cc:329-409 | `add` on the linked lists: the operation is queued with the record of `RetryRuns.AddedIsAdmitted`, the others stay, and the timer is set for the earliest moment |
| `SendQueues.DetachFrom` | src/retryq.cc:368-382 | the walk over one send queue takes out exactly what belongs to the packet, in order, and leaves the other queues alone |
| `SendQueues.Detach` | src/retryq.cc:357-383 | afterwards no queue of any server refers to the packet, and nothing else is gone or moved |
| `SendQueues.AddPacket` | src/retryq.cc:329-409 | `add` with this clean-up: both the retry queue and the send queues are as specified |
| `RetryScheduler.RetryQueue.ResetTimeouts` | src/retryq.cc:465-474 | the walk over the scheduling list restarts every queued operation's window at now, with its old length |
| `RetryScheduler.RetryQueue.Close` | src/retryq.cc:488-501 | the teardown loop answers everything in scheduling order with the generic error and leaves both linked lists empty |
| `Rings.WriteAppends` | src/ringbuffer.c:115-162 | on a ring that is not full, write appends exactly the first min(nb, free) bytes, through the wrap-around, and takes them off the free space |
| `Rings.WriteMeetsIff` | src/ringbuffer.c:115-162 | write keeps its promise if and only if the ring is not full (or nothing is written): a full ring is taken for an empty one |
| `Rings.FullRing` | src/ringbuffer.c:115-336 | a new ring filled by one write, on which write, update and the write view go wrong |
| `Rings.ReadTakes` | src/ringbuffer.c:173-232 | read removes and returns exactly the first min(nb, nbytes) bytes and changes no byte of the block |
| `Rings.ReadHeads` | src/ringbuffer.c:173-232 | where a read leaves the heads; one that takes everything leaves the whole block free in one piece |
| `Rings.PeekSees` | src/ringbuffer.c:234-248 | peek and peek_at return the bytes a read would, at any offset, and the error result exactly outside the contents |
| `Rings.UpdateReplaces` | src/ringbuffer.c:267-308 | update replaces exactly the first (READ) or last (WRITE) min(nb, nbytes) bytes, and stays inside the block if and only if the ring is not full or the bytes lie on one side of the heads |
| `Rings.ReadIovShowsAll` | src/ringbuffer.c:310-336 | the two read segments concatenate to the whole contents |
| `Rings.WriteIovShowsAllIff` | src/ringbuffer.c:310-336 | the two write segments concatenate to the whole free space, in write order, if and only if the ring is not full |
| `Rings.ContinuousIsFirstSegment` | src/ringbuffer.c:338-361 | is_continous is true exactly when nb bytes fit in the first segment |
| `Rings.EnsureKeeps` | src/ringbuffer.c:56-93 | growing keeps the contents, leaves room for the wanted bytes and a ring that is not full; it fails exactly without memory when it has to grow, and then changes nothing |
| `Rings.GrownIsLeast` | src/ringbuffer.c:56-77 | the new size is the least one with room among those got by doubling the old one, or 64 when there was no block |
| `Rings.StoredAhead` | src/ringbuffer.c:310-336 | bytes stored through the write view are the free bytes used next and change no content |
| `Rings.StepRefines` | src/ringbuffer.c:44-308 | every command on a ring, growing included, has the same output and effect as on a byte queue with a capacity |
| `Rings.RunRefines` | src/ringbuffer.c:44-308 | over every run of write, read, peek, update, ensure_capacity, produced, consumed and reset the ring cannot be told from a byte queue whose capacity grows as specified |
| `RingMemory.RingBuffer.constructor` | src/ringbuffer.c:25-33 | a new ring is valid and empty with both heads at its start |
| `RingMemory.RingBuffer.WriteBytes` | src/ringbuffer.c:115-162 | write in place on the byte array refines the specified write |
| `RingMemory.RingBuffer.ReadBytes` | src/ringbuffer.c:181-232 | read in place refines the specified read |
| `RingMemory.RingBuffer.PeekBytes` | src/ringbuffer.c:234-238 | a read on a copy of the structure leaves the ring unchanged |
| `RingMemory.RingBuffer.PeekBytesAt` | src/ringbuffer.c:240-248 | the bytes at an offset, or the error result, with the ring unchanged |
| `RingMemory.RingBuffer.EnsureCapacity` | src/ringbuffer.c:56-93 | the doubling loop ends at the specified size; contents are kept and afterwards there is at least the wanted free space and room for one more byte, or nothing changed when memory is refused |
| `RingMemory.RingBuffer.UpdateBytes` | src/ringbuffer.c:267-308 | update in place replaces exactly the specified bytes, heads and free space unchanged, exactly when the copies stay inside the block; it says when they would not |
| `RingMemory.RingBuffer.MovePiece` | src/ringbuffer.c:363-375 | one round of append moves at most 1024 bytes from the front of src to the end of dest |
| `RingMemory.RingBuffer.Extend` | src/ringbuffer.c:56-162 | ensuring room and writing appends all the bytes, or fails exactly without memory and changes no content |
| `RingMemory.RingBuffer.AppendTo` | src/ringbuffer.c:363-375 | afterwards dest is old dest followed by old src, and src is empty |
| `RingMemory.RingBuffer.Produced` | src/ringbuffer.c:250-254 | bytes stored through the write view become contents |
| `RingMemory.RingBuffer.Consumed` | src/ringbuffer.c:256-260 | the first nb bytes leave the contents |
| `RingMemory.RingBuffer.Reset` | src/ringbuffer.c:44-47 | the ring is empty and valid |
| `RingMemory.RingBuffer.Strcat` | src/ringbuffer.c:164-171 | the whole text is appended and its length returned, or, exactly when it does not fit and there is no memory, nothing and 0 |
| `RingMemory.RingBuffer.GetIovs` | src/ringbuffer.c:310-336 | the computed segments are the specified ones |
| `RingMemory.RingBuffer.CopyFrom` | src/ringbuffer.c:377-406 | appends the first nbytes of src without consuming it exactly when src has them and dst's write space is contiguous for them; the refused and the aborted case have exact conditions too |
| `RingMemory.CopyThatAborts` | src/ringbuffer.c:377-406 | a ring after a few writes and reads on which the copy aborts although the bytes fit |
| `RetryCheck.AlwaysRetriedIff` | src/retrychk.cc:73-102 | exactly six errors are retried under a strategy that never retries |
| `RetryCheck.StrategyHears` | src/retrychk.cc:21-102 | every error is retried anyway, never, or put to the strategy with its reason, whether the command only reads, and how often it was tried |
| `RetryCheck.BestEffortRetries` | src/errmap.cc:242-250 | under the default strategy exactly the errors that are always retried and those it is asked about are retried, whether the command may be repeated or not |
| `RetryCheck.NetworkErrorsAsked` | src/retrychk.cc:40-51 | the table of reasons and the network flag of errors agree but for four errors |
| `ClusterMaps.FirstWith` | src/newconfig.cc:152-158 | the first server of the new map with a given data host, or none |
| `ClusterMaps.PlacedInSlot` | src/newconfig.cc:257-267 | an old server whose data host is in the new map sits in the slot of that host |
| `ClusterMaps.SlotIsMatched` | src/newconfig.cc:257-267 | a slot holds an old server exactly when some old server's data host is the slot's host, and then it is such a one |
| `ClusterMaps.DroppedAre` | src/newconfig.cc:291-299 | the dropped servers are exactly the old ones without a slot, each once |
| `ClusterMaps.DroppedAlong` | src/newconfig.cc:291-299 | they are closed in the order of the old array |
| `ClusterMaps.CarriesOver` | src/newconfig.cc:142-159 | a server carries over exactly if its data host is in the new map |
| `ClusterMaps.FilledAt` | src/newconfig.cc:275-279 | no holes: kept servers stay in their slots and every other slot gets a server of its own that is new |
| `ClusterMaps.DistinctIsInjective` | src/newconfig.cc:142-159 | distinct data hosts in the old map are enough for slots never to clash |
| `ClusterMaps.NoServerLostIff` | src/newconfig.cc:257-267 | every old server is either seated or dropped if and only if no two of them carry over to the same slot |
| `ClusterMaps.SharedHost` | src/newconfig.cc:257-267 | two old servers with one data host: the first is neither seated nor dropped, and its requests are lost |
| `ClusterMaps.TargetIff` | src/newconfig.cc:189-231 | a packet of a removed server is relocated, whatever the retry strategy says, to pipeline j exactly when it is no replica read, j exists and j is its vbucket's master or, on other buckets, the server its key hashes to; else it is kept |
| `ClusterMaps.RequeuedKeeps` | src/mc/mcreq.c:238-244 | requeueing adds the packet once and keeps the start-time order |
| `ClusterMaps.WipeRoutes` | src/newconfig.cc:189-239 | one removed server: per packet and pipeline, it is requeued once on the pipeline the map names or kept once, and queues stay in start-time order |
| `ClusterMaps.PurgedOnMapChange` | src/mcserver/mcserver.cc:762-827 | a packet purged on a map change is not retried and fails with MAP_CHANGED |
| `ClusterMaps.PurgedWith` | src/mcserver/mcserver.cc:762-778 | a purged packet is retried exactly on a bucket with vbuckets for the errors that are always retried or that the strategy agrees to; otherwise its status, with the remembered cause of a timeout |
| `ClusterMaps.RetryBudget` | src/mcserver/mcserver.cc:762-827 | over any history of purges with errors the strategy decides, a strategy with a limit lets a packet back into the retry queue exactly until its counter is there; a limit the eight-bit counter never reaches lets it back for ever |
| `ClusterMaps.IdempotentReturns` | src/mcserver/mcserver.cc:762-827 | over any such history a strategy for idempotent operations lets exactly the nine reading commands back, every time |
| `ClusterMaps.AlwaysReenters` | src/mcserver/mcserver.cc:762-827 | over any history of the six errors every packet returns every time under any strategy; after a timeout or a map change it never does |
| `ClusterMaps.WipeAllRoutes` | src/newconfig.cc:291-299 | all removed servers together: each packet is added once to the pipeline the new map has for it, by master or hash, or is purged once; packets on kept servers stay, and queues stay in start-time order |
| `ClusterMaps.WipeAllKeeps` | src/newconfig.cc:291-299 | exactly the packets the new map has no pipeline for are purged, also for a map without servers |
| `ClusterMaps.SeatingAccounts` | src/newconfig.cc:257-279 | every packet is on a seated server, on one left behind or on one that was overwritten, each once |
| `ClusterMaps.OverrunIff` | src/newconfig.cc:257-267 | nothing is overwritten if and only if every server that another one with its slot follows has no requests |
| `ClusterMaps.MapChangeConservesIff` | src/newconfig.cc:241-309 | over a whole map change no packet is lost or duplicated if and only if every overwritten server has no requests |
| `ClusterMaps.ArrayMeans` | src/newconfig.cc:241-286 | for distinct hosts the new array has, for each host, the server that had it before or a new one |
| `ClusterMaps.MapChangeRehomes` | src/newconfig.cc:241-309 | the whole map change, packet by packet: those of removed servers are each once in the slot that is their vbucket's master in the new map, or the server their key hashes to, on top of what the slot had, or among the failed ones exactly if there is no such slot |
| `ClusterMaps.MapChangeKeepsHosts` | src/newconfig.cc:241-286 | with distinct hosts the server of a host stays its server with its requests, and a host that was not there before gets a new one without requests |
| `ClusterMaps.GuessOverridesIff` | src/newconfig.cc:43-126 | the next map ends up with a learned index if and only if it has it anyway, or it names the bad one as a char keeps it, at most 20 seconds have passed and the learned index fits a char, signed or not |
| `ClusterMaps.GuessOf128` | src/newconfig.cc:32-126 | with a signed char a learned index of 128 comes back as -128 |
| `ClusterMaps.OverlayTwice` | src/newconfig.cc:62-94 | overlaying a map that already has its guesses changes no master and uses the guesses up |
| `MapChange.Instance.FindNewDataIndex` | src/newconfig.cc:142-159 | the search loop finds the first server with the same data host, or -1 |
| `MapChange.Instance.Seat` | src/newconfig.cc:257-267 | the first loop builds exactly the specified array and clears the old slots it took |
| `MapChange.Instance.Fill` | src/newconfig.cc:275-279 | the second loop leaves no hole and starts every new server with no requests |
| `MapChange.Instance.AddPipelines` | src/mc/mcreq.c:719-743 | the new array is installed and every server knows its slot |
| `MapChange.Instance.Wipe` | src/mc/mcreq.c:944-957 | the iteration over one removed server's requests relocates and keeps exactly the specified packets |
| `MapChange.Instance.Purge` | src/mcserver/mcserver.cc:829-850 | every request left on the server fails once with MAP_CHANGED |
| `MapChange.Instance.Retire` | src/newconfig.cc:291-299 | the third loop relocates, purges and closes each dropped server exactly once |
| `MapChange.Instance.RetireOne` | src/newconfig.cc:291-299 | one dropped server: its requests are relocated or fail, and it is closed |
| `MapChange.Instance.FlushPending` | src/newconfig.cc:301-305 | flushing is started on exactly the servers with requests, in order |
| `MapChange.PendingAlong` | src/newconfig.cc:301-305 | the servers with requests are flushed in the order of the array |
| `MapChange.Instance.Install` | src/newconfig.cc:241-286 | the new array in place: no holes, distinct servers with matching index, queues carried over unchanged |
| `MapChange.Instance.ReplaceConfig` | src/newconfig.cc:241-309 | `replace_config` in place: valid again, with slots, queues, failures with MAP_CHANGED and closed servers as `ClusterMaps.MapChangeRehomes` and `ClusterMaps.MapChangeKeepsHosts` say |
| `MapChange.OverlayGuesses` | src/newconfig.cc:62-94 | the loop overlays every vbucket's guess on its master exactly as specified |
| `Json.SkipBlanks` | contrib/cJSON/cJSON.c:438-443 | blanks in front of a text do not matter |
| `Json.NumberRoundTrip` | contrib/cJSON/cJSON.c:224-284 | a printed integer followed by anything that cannot extend a number is read back with both value fields, leaving exactly the rest |
| `Json.StringRoundTripIff` | contrib/cJSON/cJSON.c:288-422 | a printed string is read back unchanged if and only if it has no control character other than \b \f \n \r \t |
| `JsonLayout.NumeralRead` | contrib/cJSON/cJSON.c:224-264 | a number with sign, fraction and exponent is read for its digits times the power of ten, the integer field being that value cut toward zero |
| `JsonRoundTrip.StandardValue` | contrib/cJSON/cJSON.c:224-264 | for a number of the standard that is all its digits as one integer, times ten to the exponent less the digits behind the point |
| `JsonLayout.QuotedRead` | contrib/cJSON/cJSON.c:288-364 | a string with any mixture of characters and escapes is read for the characters it stands for |
| `JsonLayout.WrittenIsRead` | contrib/cJSON/cJSON.c:479-692 | every text of a tree, with any blanks between its tokens, is read for that tree and leaves exactly what follows |
| `JsonLayout.EntriesRead` | contrib/cJSON/cJSON.c:545-692 | the same for the elements or members of a list up to the closing bracket |
| `JsonLayout.Found` | contrib/cJSON/cJSON.c:479-692 | whatever the parser accepts is such a text, with what it is read for as its meaning |
| `JsonLayout.ReadIffWritten` | contrib/cJSON/cJSON.c:479-692 | so the parser reads a text for a value if and only if it is a text of that value: the exact language, with what it lets pass beyond the standard (open strings, bare signs, any first character behind a point, empty exponents) |
| `JsonRoundTrip.StandardIsRead` | contrib/cJSON/cJSON.c:479-692 | in particular every text of the standard, followed by anything that cannot extend a number |
| `JsonRoundTrip.PrintedText` | contrib/cJSON/cJSON.c:513-786 | the printed text has exactly the described layout: separators, one line and indentation per member, or no blanks; and it is a text of the standard |
| `JsonRoundTrip.PrintedMeans` | contrib/cJSON/cJSON.c:367-422 | it means the tree without the dropped control characters, which is the tree itself if and only if that is plain |
| `JsonRoundTrip.RoundTripIff` | contrib/cJSON/cJSON.c:479-786 | for every tree whose members have names and whose elements have none, every depth and format, parsing the printed text gives that stripped tree and leaves exactly the suffix; so the same tree if and only if it is plain |
| `JsonLayout.ParsesAnyLayout` | contrib/cJSON/cJSON.c:446-476 | cJSON_Parse on any text of a tree, with blanks in front and anything behind, gives the tree |
| `JsonRoundTrip.PrintThenParse` | contrib/cJSON/cJSON.c:446-476 | the same for what cJSON_Print or cJSON_PrintUnformatted wrote, up to the dropped characters |
| `JsonLayout.DocumentIff` | contrib/cJSON/cJSON.c:446-476 | the documents that are accepted are exactly the texts of values, each for the one value it denotes |
| `JsonRoundTrip.LostCharacter` | contrib/cJSON/cJSON.c:367-422 | a string with one control character, which comes back without it |
| `JsonText.SkipSpace` | contrib/cJSON/cJSON.c:438-443 | the loop skips exactly the leading blanks |
| `JsonText.ScanNumber` | contrib/cJSON/cJSON.c:224-264 | the loops over digits, fraction and exponent compute the specified number and rest |
| `JsonText.ScanExponent` | contrib/cJSON/cJSON.c:247-256 | the exponent part, with its sign, is read as specified |
| `JsonText.ScanString` | contrib/cJSON/cJSON.c:288-364 | the two passes compute the specified string; every write is inside the buffer the first pass sized |
| `JsonText.CountString` | contrib/cJSON/cJSON.c:296-298 | the first pass counts exactly the characters the second one writes |
| `JsonText.WriteString` | contrib/cJSON/cJSON.c:367-422 | the two passes write the specified text, and the buffer size computed first suffices |
| `JsonPrinter.WriteValue` | contrib/cJSON/cJSON.c:513-542 | the printer's dispatch writes the specified text |
| `JsonPrinter.WriteArray` | contrib/cJSON/cJSON.c:581-644 | entries rendered first, then composed: the specified text, and the size added up on the way suffices |
| `JsonPrinter.WriteObject` | contrib/cJSON/cJSON.c:695-786 | the same for objects, with indentation |
| `JsonPrinter.WriteDocument` | contrib/cJSON/cJSON.c:469-476 | cJSON_Print and cJSON_PrintUnformatted write the text with the layout of `JsonRoundTrip.PrintedText` |
| `JsonPool.Pool.constructor` | contrib/cJSON/cJSON.c:117-134 | a new pool is valid and has handed out nothing |
| `JsonPool.Pool.NewBlock` | contrib/cJSON/cJSON.c:86-114 | a block's items are all free, distinct and new; free items plus reference count stay block size times blocks |
| `JsonPool.Pool.NewItem` | contrib/cJSON/cJSON.c:150-165 | a zeroed item that was not handed out before; all live items untouched; the pool's balance is kept |
| `JsonPool.Pool.FreeItem` | contrib/cJSON/cJSON.c:166-178 | the item goes back, and the pool is destroyed exactly when it was the last live one |
| `JsonPool.Pool.Delete` | contrib/cJSON/cJSON.c:207-221 | every item of the forest is freed exactly once, children before parents and siblings in order; the pool is gone exactly when nothing is live; other items are untouched |
| `JsonPool.ChainFrame` | contrib/cJSON/cJSON.c:207-221 | links outside a forest, which is linked by child, next and prev, do not matter to it, so freed items cannot disturb what is still to be freed |
| `JsonParser.RootFreedLast` | contrib/cJSON/cJSON.c:207-221 | the root of a tree is freed last |
| `JsonParser.DeleteDocument` | contrib/cJSON/cJSON.c:207-221 | deleting a parsed document frees each of its items exactly once, the root last, and the pool with the root |
| `JsonParser.ParseItem` | contrib/cJSON/cJSON.c:479-510 | reads what the specification says into the item, and what it linked, on failure too, is a forest of distinct, newly handed out items |
| `JsonParser.ParseBrackets` | contrib/cJSON/cJSON.c:545-570 | the same for what starts with a bracket or brace |
| `JsonParser.ParseChildren` | contrib/cJSON/cJSON.c:556-578 | the child-linking loop reads the specified list, and its items form one well-linked forest at every exit |
| `JsonParser.AddChild` | contrib/cJSON/cJSON.c:562-570 | a new item is linked below or behind the given one, forth and back, and a child is read into it |
| `JsonParser.ParseChild` | contrib/cJSON/cJSON.c:657-667 | one element, or one member with its name and colon, is read as specified |
| `JsonParser.ParseDocument` | contrib/cJSON/cJSON.c:446-466 | succeeds exactly on the texts of values (`JsonLayout.DocumentIff`), and then the live items are exactly those of the parsed tree, linked by child, next and prev, which stands for the value the text denotes; on failure every item was freed once and the pool is destroyed |
| `Throttle.CounterBounded` | src/bootstrap.cc:226-292 | over every run the error counter is 0 or below the threshold |
| `Throttle.SinceStart` | src/bootstrap.cc:57-62 | from a non-initial start on, the refresh time never goes back and the counter is at most the number of error-counting calls |
| `Throttle.RateLimited` | src/bootstrap.cc:226-292 | over every run, between a non-initial refresh and any later throttled one the configured delay passes or at least threshold errors are counted |
| `Throttle.LastRefreshIs` | src/bootstrap.cc:57-62 | over every run the refresh time is the time of the last activity, a non-initial start or an applied config |
| `Throttle.CounterIs` | src/bootstrap.cc:226-292 | over every run the counter is the number of error-counting calls since it was last cleared |
| `Throttle.ThrottleDecides` | src/bootstrap.cc:226-292 | over every run a throttled call starts a refresh if and only if the delay since the last activity is over or enough errors were counted since the counter was last cleared |
| `Throttle.Undisturbed` | src/bootstrap.cc:226-292 | before any activity the delay counts from the initial time, and before any clearing the counter from its initial value |
| `Throttle.UnthrottledStarts` | src/bootstrap.cc:226-292 | a call outside the throttle starts a refresh exactly when none is going on, and nothing but a call does |
| `Throttle.BootstrappedIff` | src/bootstrap.cc:34-90 | over every run the library is bootstrapped if and only if a new config, from a file or not, was announced and nothing has started it over since |
| `Throttle.ErrorsBreakThrottle` | src/bootstrap.cc:249-270 | within the delay, exactly the call that brings the counter to the threshold starts a refresh |
| `Throttle.Bootstrap.Request` | src/bootstrap.cc:226-292 | `bootstrap` in place computes the specified step |
| `Throttle.Bootstrap.ConfigCallback` | src/bootstrap.cc:34-90 | a new config marks the state and, unless it came from a file, resets time and counter |
| `Throttle.Bootstrap.ClconfigListener` | src/bootstrap.cc:148-159 | the first config is applied at once, later ones only signal the timer |
| `Throttle.Bootstrap.TimerDispatch` | src/bootstrap.cc:183-194 | applies the monitor's config once bootstrapped, otherwise reports failure |
| `Framing.AbortsIff` | src/packetutils.h:67-94 | loading fails for good if and only if the body length makes the 32-bit packet size wrap around |
| `Framing.WrappedSize` | src/packetutils.h:67-94 | a header that makes it wrap |
| `Framing.AsksForEnough` | src/packetutils.h:67-94 | the number of bytes asked for is exact: with fewer it asks again for the same, with that many it succeeds |
| `Framing.SplitMore` | src/packetutils.h:67-105 | bytes that arrive later only add to what was already read |
| `Framing.ChunkingIrrelevant` | src/packetutils.h:67-105 | for every cutting of a stream into chunks the load/release loop yields the same packets and the same rest as the whole stream |
| `Framing.FieldsPartitionIff` | src/packetutils.h:174-277 | framing extras, extras, key and value lie in the body if and only if the lengths before the value fit it, and then they are the body, in order |
| `Framing.FieldsDecoded` | src/packetutils.h:174-277 | the accessors give back the fields a response was composed of, in both header layouts |
| `Framing.SplitEncoded` | src/packetutils.h:67-105 | a stream of encoded responses splits into exactly these responses |
| `Framing.DeliveredInAnyChunks` | src/packetutils.h:67-105 | whatever chunks encoded responses arrive in, exactly these are read |
| `Framing.MemcachedResponse.LoadFrom` | src/packetutils.h:67-94 | takes a whole packet or consumes nothing and says how much is wanted |
| `Framing.MemcachedResponse.ReleaseFrom` | src/packetutils.h:96-105 | takes exactly the body off the rope |
| `Framing.ReadPackets` | src/packetutils.h:67-105 | loading and releasing until more data is needed yields exactly the packets of the buffered bytes and leaves the incomplete rest |
| `Subdoc.NextUndoes` | src/handler.cc:554-735 | reading at a cursor takes off exactly the record that was encoded there, in all three formats |
| `Subdoc.NextIsEncoded` | src/handler.cc:554-735 | whatever is read is the encoding of itself |
| `Subdoc.DecodesIff` | src/handler.cc:554-735 | a body decodes to some records if and only if it is their encodings one after the other |
| `Subdoc.LookupNext` | src/handler.cc:554-585 | the cursor reads compute the specified lookup record |
| `Subdoc.MutationNext` | src/handler.cc:587-633 | the cursor reads compute the specified mutation record |
| `Subdoc.ResultIsLast` | src/handler.cc:491-497 | a result slot holds the last record with its index (lookups: the record of that position) |
| `Subdoc.ResultIsEmpty` | src/handler.cc:491-497 | a slot no record names stays empty |
| `Subdoc.ResultsDelivered` | src/handler.cc:484-504 | encoded records with different slots decode, and the slot of each has its value, or its error and no value |
| `Subdoc.CutOff` | src/handler.cc:554-585 | two lookup bodies that are cut off, in the header and in the value |
| `Subdoc.ParseResults` | src/handler.cc:484-504 | succeeds exactly when the body is made of whole records and every one has a slot, and then fills the slots as specified |
| `Subdoc.ObserveRecords` | src/handler.cc:710-750 | the record loop yields exactly the records of the body, or detects that the last one is cut off |
| `HostList.RenderThenParseIff` | src/hostlist.cc:41-150 | re-parsing the rendering of a parsed host returns the same host, port and family if and only if an IPv6 host contains ':' and no ']' |
| `HostList.ParsesAs` | src/hostlist.cc:41-150 | a name or an IPv6 address, bare or bracketed, with or without port, scheme and path, is parsed to that host with that port, or the default port in decimal digits; it is rejected exactly if a character, a length or the port is not acceptable |
| `HostList.Unwrapped` | src/hostlist.cc:60-69 | the first scheme and everything from the next slash on are cut off |
| `HostList.PortMeans` | src/hostlist.cc:91-113 | a port with blanks, sign and digits is accepted exactly if its value is inside the limits of a long |
| `HostList.NoColonInBrackets` | src/hostlist.cc:41-150 | an accepted text whose rendering is rejected |
| `HostList.ParsedIsSound` | src/hostlist.cc:41-150 | every accepted host is non-empty, fits its buffers and has only admitted characters; its port is a number that fits a long |
| `HostList.ScanPort` | src/hostlist.cc:91-113 | accepts exactly the ports strtol takes whole and inside the limits of a long |
| `HostList.CutSpec` | src/hostlist.cc:72-90 | cuts host and port where the specification says, for names, bare and bracketed addresses |
| `HostList.ParseSpec` | src/hostlist.cc:41-150 | computes the specified host or rejects |
| `HostList.Added` | src/hostlist.cc:176-183 | distinct hosts stay distinct and the host is then present |
| `HostList.AddPieces` | src/hostlist.cc:185-221 | adding a text keeps the hosts distinct, also when it stops at an invalid piece |
| `HostList.AddTextMeans` | src/hostlist.cc:185-221 | adding a text adds the hosts of its pieces up to the first invalid one, in order, each unless an equal one is there, and says whether there was an invalid one |
| `HostList.LastSemicolon` | src/hostlist.cc:193-197 | the last semicolon can be left out |
| `HostList.ListingReadBack` | src/hostlist.cc:185-269 | adding the renderings of distinct well-formed hosts, joined by semicolons, adds exactly these hosts in order |
| `HostList.ShuffleDistinct` | src/hostlist.cc:242-248 | any permutation keeps hosts distinct |
| `HostList.Hostlist.Exists` | src/hostlist.cc:157-165 | true exactly when a host with the same name and the same port is present |
| `HostList.Hostlist.ExistsText` | src/hostlist.cc:167-174 | the same for a text, which must parse |
| `HostList.Hostlist.Add` | src/hostlist.cc:176-183 | adds the host if it is new and drops the string cache then |
| `HostList.Hostlist.AddString` | src/hostlist.cc:185-221 | the loop over semicolons computes the specified list and outcome; hosts in front of an invalid one stay |
| `HostList.Hostlist.Next` | src/hostlist.cc:223-240 | cycles through the hosts, and stops at the end without wrap |
| `HostList.Hostlist.Randomize` | src/hostlist.cc:242-248 | takes any permutation and drops the string cache |
| `HostList.Hostlist.GetStrlist` | src/hostlist.cc:250-269 | the cache is exactly the rendering of the hosts plus terminator |
| `HostList.Hostlist.Assign` | src/hostlist.cc:271-279 | the hosts of the source in order, iteration reset; assigning a list to itself empties it |
| `HostList.Hostlist.Clear` | src/hostlist.h:97-102 | empty list, empty cache, iteration reset |
| `Histogram.SampleInRangeIff` | src/timings.c:69-203 | a sample lies in the range reported for its counter if and only if it is below 10000 seconds |
| `Histogram.Resolution` | src/timings.c:69-203 | how fine the reported ranges are: multiples of 10 microseconds below a millisecond, of 100 below ten, of 10 milliseconds below a second, of a second below nine |
| `Histogram.TallyCounts` | src/timings.c:166-203 | each counter holds the number of samples that belong to it |
| `Histogram.TallySums` | src/timings.c:166-203 | no sample is lost or counted twice, and the counter that is never reported stays 0 |
| `Histogram.ReportedTotals` | src/timings.c:69-203 | the reported totals add up to the number of samples |
| `Histogram.SampleReported` | src/timings.c:69-203 | every sample below 10000 seconds is counted in a report whose range holds it |
| `Histogram.HistogramData.Record` | src/timings.c:166-203 | below 2^32 samples the 32-bit counters stay exact and max is the largest of them |
| `Histogram.HistogramData.Read` | src/timings.c:69-120 | the loops with running bounds report exactly the non-zero counters with their ranges; totals sum to the number of samples |

## Left out

- Floating point: the products in `update_trytime` and `get_next_interval` are an abstract delay, JSON numbers are computed over the reals, and printing numbers that are not integers of type int is not modelled.
- Wrap-around of 64-bit times and sizes: times are unbounded integers and sizes naturals; narrower wrap-around is modelled where it shows (8 bits: the retry counter; 32 bits: retry window offset, packet size, value length, histogram counters; char: vbucket guesses).
- Allocation failure, except in the ring buffer, where it is a parameter.
- User callbacks that re-enter the library: they are taken not to change the modelled state.
- RetryRuns.RunKeepsTwins: speaks of the sequences of owners of the two lists, which `RetryScheduler.RetryQueue` keeps as linked nodes; a packet is identified with its operation; `reset_timeouts` is not among the steps, because it can break the order.
- SendQueues.AddPacket: the flag that lets the caller release the old packet is not modelled, because buffers are not.
- RetryFlush.FlushRoutes: `mcreq_enqueue_packet` is appending to the pipeline's sequence, and `flush_start` has no effect on the queue.
- `RetryQueue::empty(ignore_cfgreq)`, `nmvadd`, `ucadd`, `add_fallback`, `error_for`: short wrappers and queries.
- Buffer alignment in `ringbuffer.c`, which is about the platform.
- RingMemory.RingBuffer.UpdateBytes: copies nothing where the source would copy outside the block, because what happens then is undefined.
- MapChange.Instance.Wipe: the request lists of servers are sequences (the linked list they are is in `Sllist.dfy`, with the re-queueing in `SingleList.Sllist.Reenqueue`).
- MapChange.Instance.ReplaceConfig: a server is its number with its queue; connections, metrics, the fallback pipeline and copying a packet on relocation are not modelled; a vbucket number beyond the map has no master here, where the source would read outside it.
- `lcb_update_vbconfig` and the computation of map differences, key hashing (`lcbvb_map_key`) and `lcbvb_nmv_remap_ex`: the map is a function, the remapped index an argument.
- JsonLayout.ReadIffWritten: `\u` escapes, reading past the terminator (a backslash at the end of the text, a point as the last character) and item references are outside the model; strings hold no NUL.
- JsonPool.Pool.NewItem: the free list is a sequence, not linked through `next`; the strings items own are values, so freeing them is not modelled.
- The rest of `cJSON.c`: array and object editing, `Create` functions and case-insensitive lookup.
- Throttle.Bootstrap.Request: timers, pending counters, provider switching, logging and the options passed on to the config monitor are not modelled; whether the monitor is refreshing is an argument.
- Bootstrap callbacks and the balance of the pending counter, which depend on the order of config monitor events.
- Framing.ReadPackets: the rope is the sequence of its bytes, so segments and consolidation are not modelled; the loop stands for the callers' repeated load and release; dispatching packets is left out.
- `MemcachedResponse::duration`, which uses `pow`.
- Single sub-document responses, the meaning of status codes (`lcb_map_error` is an argument), collection prefixes of keys and the TTP/TTR values in `H_observe`.
- HostList.Hostlist.Randomize: the shuffle is an argument, any permutation.
- Connection strings, settings, authentication, logging, DNS SRV, query and view services, the I/O plugins and the command-line tools.
