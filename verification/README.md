# Mini-Dynamo, verified

A Dafny model of the parts of Mini-Dynamo that decide what a client reads and what
stays in GPU memory, with proofs of what those parts are for.

- **The KV pool** (`common/memory_sim.py`): a fixed-size pool of variable-size blocks
  with LRU, FIFO or no eviction, victims found by a scan over clock readings.
- **The continuous-batching scheduler** (`common/batching.py`): a FIFO queue, a batch with
  a cap, one token per active sequence and pass, a block in the pool per sequence.
- **Routing** (`services/router/routing.py`): least-loaded prefill with a round-robin
  tie break, sticky decode, fallback.
- **The router's stream loop and SSE parser** (`services/router/main.py`) and the frame
  printer (`common/sse.py`).
- **The decode endpoint's relay** (`services/decode/main.py`), and the path from
  scheduler to client as a whole.
- **The load client's percentile** (`scripts/load_client.py`).

Each state-changing class of the program is a Dafny class whose methods are proved equal to
functions on values (`View()` is the value of an object); the properties are lemmas about
those functions, over every run. Calls that arrive while the scheduler sleeps and other users of
the pool are steps of a run, in any order; what requests of other sessions do to the router's
shared store during an attempt, or between two requests of a session, is arbitrary.

## Files

| file | content |
|---|---|
| `Prelude`, `Ordering` | options; `min` and stable sort by key |
| `MemorySim`, `Eviction`, `PoolRuns` | the pool, exact eviction, its ledger over runs |
| `History`, `Recency`, `Fifo`, `CacheTheory`, `WorkingSet` | a block's times and the run's history, the recency list, FIFO order, stack inclusion, who is evicted when |
| `Batching`, `BatchRuns`, `DecodeLoop` | the scheduler, its runs and streams, its own loop |
| `BatchLedger`, `NoEviction`, `Timing`, `Waiting` | accounting across scheduler and pool, makespan, waiting and response time |
| `Sse`, `Frames`, `SampleCodec` | SSE text; frames and relays; an encoding with the properties asked of JSON |
| `Routing`, `Router`, `FixedRegistry`, `Sessions` | selection, the fallback loop, its exact reach over live and failed nodes, stickiness |
| `DecodeService`, `EndToEnd` | the decode endpoint; from scheduler to client |
| `LoadClient` | percentiles |

## Reading the model

- Sizes and clock readings are `real`. A block takes two clock readings, one for
  `created_at` and one for `last_access`, as the program does. A *steady* clock never goes
  back; a *strict* clock gives later calls later readings.
- A dict is a sequence of blocks in insertion order; an output queue is the list of
  everything ever put on it.
- `OutOfMemoryError`, `NoBackendError` and HTTP failures are values
  (`OutOfMemory`, `None`, `Unavailable`, `PrefillFailed`).
- `next_token` is any function of session and position; JSON is any encoder and decoder
  that are `Faithful` (objects on one line, decoded to what was encoded) and, where connections
  break, `RejectsTruncation` (no proper prefix of an object is JSON). `SampleCodec` shows one.
- An attempt of the router is the list of frames that arrived, the failure's text, and the
  registry and the pins of other sessions as the fallback lookup finds them; all four are
  arbitrary, except that backend names come from some finite set.

## What the code does not do

Each of these has an input on which the promise fails and the exact condition under which it holds.

- The README of the program (lines 152-154) says that after a node failure the router falls back to
  another live decode node. `fallback_decode` leaves out only the node that failed last, so with a
  fixed registry the router tries the selected node and the first two in load order and no other. A
  request is served if and only if one of those is live (`FixedRegistry.ServedIffLiveIsTried`); a
  live node is found whichever listed nodes are live if and only if at most two are listed, or three
  with the selected one last in load order (`FixedRegistry.LiveNodeServesIff`). In
  `FixedRegistry.UntriedNode` the one live node of three is never tried.
- The same lines say that the session is re-pinned to that other node. When the router gives up, the
  pin names the node tried last if and only if the last lookup lists no other node, whatever the
  registry did before (`Router.PinStaysIff`). With a fixed registry of two or more nodes it never
  does (`FixedRegistry.GivesUpAfter`); in `FixedRegistry.UntriedNode` the session is left pinned to
  "a" after "b" was tried.
- A call of `allocate` that raises may still have changed the pool: it leaves the contents alone if
  and only if it fails the size check or has no old block of that id
  (`Eviction.FailureKeepsBlocksIff`); in `Eviction.ReallocationLosesBlock` a re-allocation that does
  not fit costs the block it was to replace.
- A request is counted once, as ok or as error, if and only if it does not stop after a successful
  prefill for want of a decode backend; one that stops there is not counted at all
  (`Router.CountedOnceIff`). `Router.UncountedRequest` is such a request.

## Model

| member | source | states |
|---|---|---|
| Ordering.SortIsStable | services/router/routing.py:55 | the model of `list.sort(key=...)` is a sorted permutation that keeps the order of equal keys |
| Ordering.StableSortIsUnique | services/router/routing.py:75 | two sorted lists with the same equal-key classes are equal, so that model leaves no choice |
| Ordering.SortVisits | services/router/routing.py:55 | said with positions alone: the sorted list visits every position once, by key and among equal keys by position |
| MemorySim.MemorySimulator.constructor | common/memory_sim.py:37-50 | an empty pool, policy lower-cased, counters at zero |
| MemorySim.LowerIgnoresCase | common/memory_sim.py:43 | a policy name is taken for one without capitals if and only if it is some spelling of it in ASCII capitals and small letters: "NONE" acts as "none" |
| MemorySim.MemorySimulator.PickVictim | common/memory_sim.py:143-151 | no victim if and only if empty or policy `none`; else the id of a block whose creation time (fifo) or access time (any other policy) is least, and strictly less than that of every block before it |
| MemorySim.MemorySimulator.EvictUntilFits | common/memory_sim.py:100-109 | the loop terminates; state, victims in order and success are those of evicting the policy's victim until the newcomer fits |
| MemorySim.MemorySimulator.Allocate | common/memory_sim.py:76-119 | new state and outcome of an allocation of any size, errors included |
| MemorySim.MemorySimulator.Touch | common/memory_sim.py:121-128 | true exactly if present, and then only that block's access time changes |
| MemorySim.MemorySimulator.Free | common/memory_sim.py:130-136 | true exactly if present, and then exactly that block goes |
| MemorySim.AllocateKeeps | common/memory_sim.py:88-119 | for any size, also after a call that raises midway: distinct ids and a running total equal to the sum of sizes; with sizes not negative, within the pool |
| MemorySim.ReleaseKeeps | common/memory_sim.py:130-136 | the same for a free; exactly the blocks with another id remain |
| MemorySim.MakeRoomKeeps | common/memory_sim.py:100-109 | the eviction loop keeps the invariant, counts each victim once, and leaves room on success |
| Eviction.MakeRoomIsShortestPrefix | common/memory_sim.py:100-109 | the evicted ids are the shortest prefix of the policy order that makes room, and all others survive in order |
| Eviction.OutOfMemoryIff | common/memory_sim.py:88-106 | the error is raised if and only if the size exceeds the pool, or the policy is `none` and the block does not fit beside the others; what a failing call has already changed |
| Eviction.FailureKeepsBlocksIff | common/memory_sim.py:88-106 | a call that raises leaves the contents unchanged if and only if it fails the size check or the id has no block |
| Eviction.ReallocationLosesBlock | common/memory_sim.py:96-106 | a pool under `none` in which a failing re-allocation loses the old block |
| Eviction.AllocateIsExact | common/memory_sim.py:94-119 | a successful call evicts that shortest prefix, leaves survivors unchanged and in order, and puts the newcomer last |
| PoolRuns.RunLedger | common/memory_sim.py:76-136 | after any run: used is the sum of sizes, between 0 and the pool; allocations = present + evicted + freed + displaced by their own id; errors and victims are counted exactly |
| History.Provenance | common/memory_sim.py:111-127 | every block's times and fields are those of the last effective allocation and access of its id in the run |
| History.StrictTimes | common/memory_sim.py:30-31 | under a strict clock no two blocks share an access time |
| Recency.MakeRoomRefines | common/memory_sim.py:100-109 | the eviction scan takes entries off the old end of the recency list |
| Recency.LruStepRefines | common/memory_sim.py:94-151 | under LRU and a strict clock each call does to the recency order what the move-to-end list does, and evicts the same ids in the same order |
| Recency.LruIsARecencyList | common/memory_sim.py:94-151 | over any run the dict with its timestamp scan is that list |
| Fifo.InsertionOrder | common/memory_sim.py:97-116 | under any policy and a clock that never goes back, dict order is creation order |
| Fifo.FifoEvictsTheFront | common/memory_sim.py:143-149 | FIFO drops the least number of blocks from the front of the dict |
| Fifo.TouchFreeLruIsFifo | common/memory_sim.py:143-151 | without touches, LRU and FIFO pools have the same contents and evict identical sequences |
| CacheTheory.RunsStayIncluded | common/memory_sim.py:94-151 | for equal sizes and no frees, a smaller LRU pool's blocks are always among a larger one's, on the same trace |
| CacheTheory.StackInclusion | common/memory_sim.py:94-151 | and its recency order is the larger one's with blocks left out, after every step |
| WorkingSet.EvictedMeansOverflow | common/memory_sim.py:100-109 | a block is evicted only if it, all newer blocks and the newcomer exceed the pool, and then all that is left is newer |
| WorkingSet.EvictedIff | common/memory_sim.py:94-119 | in any LRU run an allocation evicts exactly those blocks that, with the newer blocks in the pool and the newcomer, exceed the pool |
| WorkingSet.NeverEvictedIff | common/memory_sim.py:94-136 | over any LRU run, frees of others included, a block once allocated and until freed is present throughout if and only if each newcomer fits beside it and what is newer in the pool |
| WorkingSet.NeverEvicted | common/memory_sim.py:94-136 | in particular if each newcomer fits beside what the calls have used since its last use, which needs no look at the pool |
| WorkingSet.EvictionIsJustified | common/memory_sim.py:94-151 | every survivor of an eviction was used after the victim's last use; the victim, the newer blocks present and the newcomer exceed the pool |
| Batching.Sequence.constructor | common/batching.py:38-48 | a new sequence has generated nothing and put nothing on its queue |
| Batching.DecodeScheduler.constructor | common/batching.py:52-66 | a scheduler starts empty over its pool |
| Batching.DecodeScheduler.Submit | common/batching.py:94-111 | the new sequence carries the call's session, kv id, size and token count, and its limit or, if that is 0, the default; it has generated nothing and joins the end of the queue; nothing else changes |
| Batching.DecodeScheduler.AdmitNext | common/batching.py:152-165 | one turn of `_admit`: first in the queue, to the batch or rejected with one oom chunk |
| Batching.DecodeScheduler.Admit | common/batching.py:149-166 | turn after turn of `_admit` until the queue is empty or the batch full; objects are only moved, none is dropped or made |
| Batching.DecodeScheduler.Step | common/batching.py:131-140 | one token for one sequence, and the length chunk once the limit is reached |
| Batching.DecodeScheduler.EmitTokens | common/batching.py:128-141 | one token and one touch per active sequence, and the list of those finished |
| Batching.DecodeScheduler.Retire | common/batching.py:143-145 | exactly the finished sequences leave the batch and their blocks are freed |
| Batching.DecodeScheduler.Pass | common/batching.py:128-145 | one token for everyone active, then the finished leave with their blocks freed; ids stay unique, the queue is untouched |
| Batching.AdmittedKnows | common/batching.py:149-165 | admission neither loses nor copies a sequence |
| Batching.PassedKnows | common/batching.py:128-145 | nor does a pass |
| Batching.PopFirstOver | common/batching.py:143-145 | popping the first finished sequence leaves those that go on untouched |
| BatchRuns.EmitFollowsSolo | common/batching.py:131-141 | each emission is the next token of the solo stream, and the end comes exactly with token max(1, limit) |
| BatchRuns.RunStaysGood | common/batching.py:114-166 | every step of every run keeps: queue untouched, batch on its solo streams, closed streams complete |
| BatchRuns.AdmissionReserves | common/batching.py:152-165 | the first in the queue either joins the batch, and then the newest block is its size under its kv id for its session, or gets the one chunk with reason "oom"; the latter if and only if its size exceeds the pool, or the policy is `none` and it does not fit |
| BatchRuns.TouchAllTimes | common/batching.py:128-130 | the touches of a pass leave in each block the clock reading of the last active sequence that uses it, and leave unused blocks alone |
| BatchRuns.StreamsAreSolo | common/batching.py:94-166 | in every interleaving of submits, admissions, passes and outside pool calls a log is a prefix of the solo stream or the single oom chunk; oom exactly if larger than an evicting pool |
| BatchRuns.StreamOfCall | common/batching.py:94-166 | in the fields of the call, for every run: limit m (or the default) gives exactly max(1, m) tokens, the i-th the model's for the session at prompt tokens + i, then one "length" chunk at that index; part of it while active; or one "oom" chunk, under an evicting policy exactly if larger than the pool |
| BatchRuns.SchedulingIsInvisible | common/batching.py:94-166 | two runs with different caps, policies and interleavings give a request comparable logs, equal once closed |
| BatchLedger.RunLedgerHolds | common/batching.py:114-166 | each submitted request is in exactly one of waiting, active, served, rejected; the queue is a suffix of the submissions; the batch respects its cap; tokens counted equal tokens emitted |
| BatchLedger.AdmitFills | common/batching.py:151 | after `_admit` the queue is empty or the batch is full |
| BatchLedger.BatchStandsInOrder | common/batching.py:128-165 | after any run the batch stands in the order of submission, and before everyone who still waits |
| BatchLedger.RunOwns | common/batching.py:154-165 | on a decode node each block belongs to an active sequence; eviction, oom and allocation counters match the streams |
| BatchLedger.NoLeak | common/batching.py:143-145 | even with duplicate kv ids, an empty batch means an empty pool with nothing used |
| NoEviction.BlocksMatchBatch | common/batching.py:128-165 | under `none` with distinct kv ids, blocks and active sequences match one to one with equal sizes |
| Timing.TokensArePasses | common/batching.py:129-136 | a sequence has as many tokens as passes it was in, and the token counter is their sum |
| Timing.Makespan | common/batching.py:116-166 | for a closed set, passes P satisfy cap * P <= W + (cap - 1) * L |
| Timing.ClosedMakespan | common/batching.py:116-166 | the same with W the tokens owed to the served requests, once all are done |
| Timing.NearOptimal | common/batching.py:116-166 | P is within a factor 2 - 1/cap of any schedule that serves at least as much |
| Waiting.NoStarvation | common/batching.py:116-165 | while a request waits, passes are bounded by the token work ahead of it over the cap, plus one that may be in flight, whatever is submitted later |
| Waiting.FinishesOnTime | common/batching.py:128-141 | an active sequence finishes exactly max(1, limit) passes after admission, evicted or not |
| Waiting.ResponseTime | common/batching.py:94-166 | a queued request with W tokens of work ahead has its full stream or the oom chunk within floor(W / cap) + 1 + max(1, limit) passes, whatever is submitted later |
| DecodeLoop.RunTurn | common/batching.py:116-145 | one turn of the loop: admission, then a pass exactly if someone is active |
| DecodeLoop.Run | common/batching.py:114-147 | the loop over any turns: its final state and the number of passes made |
| DecodeLoop.LoopLeads | common/batching.py:114-147 | the loop's turns are steps of the state machine, so all that holds of runs holds of it |
| DecodeLoop.LoopDrains | common/batching.py:114-147 | with a cap of at least one, more turns than tokens owed leave nothing waiting or active |
| DecodeLoop.LoopServes | common/batching.py:114-147 | requests submitted to a new scheduler all end with the full solo stream or oom, within the makespan bound |
| Sse.StreamDecode | services/router/main.py:190-203 | the parser's loop over the lines: blank and foreign lines and bad JSON skipped, stop at the end marker |
| Sse.ParseSkips | services/router/main.py:195-203 | a line that is blank, foreign or not JSON can be left out anywhere without changing what is parsed |
| Sse.ParseStops | services/router/main.py:197-199 | nothing from the end marker on changes what is parsed |
| Sse.ParseYields | services/router/main.py:195-203 | any other line before the end marker yields its frame in its place |
| Sse.WhiteSpace | services/router/main.py:194-197 | the characters that break lines, and those that `strip` removes among ASCII, by code point |
| Sse.StripIs | services/router/main.py:197 | the payload is the line's rest without the white space at its ends |
| Sse.LinesOfStream | common/sse.py:11-22 | the printed text, broken into lines, is a `data: ` line and a blank one for each frame, then `data: [DONE]` and a blank line |
| Sse.RoundTrip | common/sse.py:11-22 | parsing the printed frames and end marker gives back exactly the frames, whatever follows |
| Sse.CutGivesPrefix | services/router/main.py:194-203 | cut the text anywhere: the parser yields a prefix of the frames |
| SampleCodec.SuchCodecsExist | common/sse.py:11-13 | there is an encoding of frames that round-trips on one line and of which no proper prefix decodes: what the SSE results ask of JSON can be met |
| Routing.StaticNamesDistinct | services/router/routing.py:42-47 | names made up for configured urls never clash |
| Routing.DecimalReads | services/router/routing.py:44-47 | the number in such a name is in decimal digits without a leading zero |
| Routing.PrefillIsLeastLoaded | services/router/routing.py:50-58 | the prefill backend has the least sum of queue depth, active batch and utilization among the candidates |
| Routing.TiedIsLeast | services/router/routing.py:55-57 | the tied list is exactly the least-loaded candidates in listing order |
| Routing.PrefillTakesTurns | services/router/routing.py:55-58 | and it is the one at place counter modulo their number among the least-loaded candidates, taken in listing order |
| Routing.PrefillGoesRound | services/router/routing.py:42-58 | with an empty registry the counter goes round the configured urls |
| Routing.PrefillIsFair | services/router/routing.py:57-58 | from any counter value, as many calls as there are tied backends choose each exactly once |
| Routing.DecodeIsSticky | services/router/routing.py:61-78 | a hit if and only if the pinned name is listed, and then the last backend of that name; a miss takes the first one with the least sum of queue depth, active batch and utilization; the session is then pinned to the choice, no other pin moves |
| Routing.FallbackIsLeastLoadedOther | services/router/routing.py:80-92 | the fallback is the first candidate under another name than the failed one with the least such sum; none if and only if nothing else is listed |
| Routing.FallbackGoesNext | services/router/routing.py:42-92 | with an empty registry the fallback is the first configured url, or the second after a failure of the first, if there is one |
| Routing.RoutingPolicy.SelectPrefill | services/router/routing.py:50-58 | no backend if and only if none is listed or configured; a listed one with the least sum of queue depth, active batch and utilization, in turn among those level with it; with none listed, in turn among the configured urls; the counter advances by one, except on NoBackendError |
| Routing.RoutingPolicy.SelectDecode | services/router/routing.py:61-78 | hit if and only if the session's pin is listed, and then the last so named and no pin moves; else the first listed with the least sum of queue depth, active batch and utilization, or the first configured url, and the session is pinned to it; NoBackendError if and only if none is listed or configured |
| Routing.RoutingPolicy.FallbackDecode | services/router/routing.py:80-92 | among those listed under other names the first with the least sum of queue depth, active batch and utilization, to which the session is pinned; none, and no change, if and only if there are no others |
| Frames.ShownIsRelayed | services/router/main.py:155-170 | what is relayed is every frame up to and with the first that has a finish reason, and Done after it; without such a frame all of them and no Done |
| Frames.ShowsTokenIff | services/router/main.py:156-161 | a first token is timed if and only if some relayed frame carries a token that is not empty |
| Router.RouterService.Relay | services/router/main.py:155-170 | the loop over an attempt's frames: what goes out, one ok if it finished, one first-token timing if a token was shown |
| Router.RouterService.Attempt | services/router/main.py:153-185 | one turn of the retry loop, other sessions acting meanwhile: frames sent, next backend or none, pin and counters after it |
| Router.RouterService.StreamDecode | services/router/main.py:149-185 | the retry loop ends after at most as many attempts as there are backend names; which backends it tried, all frames sent, the pins left and what each counter gained, told by the attempts |
| Router.RouterService.Respond | services/router/main.py:101-187 | the streamed response: with a failed prefill or no decode backend exactly one error frame and Done, no pin moved, and one error or nothing counted; else the retry loop from the selected backend |
| Router.RouterService.Generate | services/router/main.py:93-187 | the whole request, case by case: 503 without a prefill backend; one error frame and Done, no pin moved, if the prefill fails or no decode backend is there; else the stream is the failed attempts' frames and the last one's ending, then Done, ok or error and the fallbacks and first tokens are counted exactly, and the session is pinned to the server, or, on giving up, to the last fallback if there is one |
| Router.EveryAttemptIsNew | services/router/main.py:150-184 | every attempt goes to a new name whatever each registry call returns; fallbacks counted are further attempts |
| Router.FallbackTerminates | services/router/main.py:150-185 | over a finite set of names the loop ends after at most that many attempts |
| Router.TrailEnds | services/router/main.py:149-185 | the backends tried: the selected one first, each next one the fallback after the failure before it, no name twice; the last one finishes, or leaves no fallback or one already tried; the session's pin and the others' afterwards |
| Router.TallyEnds | services/router/main.py:156-183 | the counters gain one ok or one error, a fallback for every further attempt, and a first-token timing for every attempt that showed a token |
| Router.PinFollowsAttempts | services/router/main.py:174-184 | the pin names the backend being tried, on success the one that served, on giving up one attempted |
| Router.PinStaysIff | services/router/main.py:174-180 | on giving up the pin names the backend tried last if and only if the last lookup lists no other |
| Router.OthersKeepTheirPins | services/router/routing.py:91 | an attempt leaves every other session's pin as that session's requests left it |
| Router.StreamEnds | services/router/main.py:155-180 | a finished stream is the failed attempts' frames and then the serving attempt's or one error frame; one finish frame, last; one Done, nothing after |
| Router.BodyShape | services/router/main.py:155-180 | of the frames of a finished stream exactly the last one carries a finish reason |
| Router.OutcomeCounts | services/router/main.py:166-182 | one ok or one error per finished stream, never both |
| Router.CountedOnceIff | services/router/main.py:97-135 | a request adds exactly one to ok and error together if and only if it does not stop between prefill and decode for want of a decode backend; else nothing |
| Router.UncountedRequest | services/router/main.py:132-135 | such a request: an error frame and Done for the client, no counter moved |
| FixedRegistry.SortOthers | services/router/routing.py:84-89 | leaving a node out and sorting by load commute |
| FixedRegistry.FallbackWalksThePlan | services/router/main.py:150-185 | with a fixed registry and any set of live nodes: the first live one among the selected node and the first two in load order serves and is pinned; if none is, those were all tried in that order, and the pin left is as stated |
| FixedRegistry.ServedIffLiveIsTried | services/router/main.py:171-180 | a request is served if and only if the selected node or one of the first two in load order is live; otherwise it ends in an error frame and Done |
| FixedRegistry.LiveNodeServesIff | services/router/routing.py:84-90 | whichever listed nodes are live one of them is tried, if and only if at most two are listed, or three with the selected one last in load order |
| FixedRegistry.GivesUpAfter | services/router/main.py:150-185 | with all attempts failing: which nodes were tried, which last, which pin is left; that pin names the node tried last if and only if no other is listed |
| FixedRegistry.TriesAllIff | services/router/main.py:174-175 | with all attempts failing all listed nodes are tried under the same condition as in LiveNodeServesIff |
| FixedRegistry.MissTriesTwo | services/router/routing.py:74-78 | after a cache miss all are tried if and only if at most two are listed |
| FixedRegistry.UntriedNode | services/router/main.py:174-180 | three nodes of which only the third is live: it is never tried, the client gets an error, and the pin names a node that had failed before the one tried last |
| Sessions.OursIsHandled | services/router/main.py:93-187 | the pins that a request of the session leaves are those that `Generate` leaves, a successful prefill given |
| Sessions.EveryVisitHits | services/router/routing.py:70-72 | while the pinned backend stays listed and does not fail, every request of the session is a cache hit served by it |
| Sessions.ServedThenSticky | services/router/main.py:130-185 | the same from any served request on, however many fallbacks that took |
| DecodeService.DecodeServer.Accept | services/decode/main.py:105-144 | the submitted request has the metadata's size and token count if and only if the call's size is not positive and there is metadata, else the call's own; session and kv id are the call's, the limit the call's or the default |
| DecodeService.DecodeServer.Relay | services/decode/main.py:145-157 | the relay loop: chunks up to and with the finish chunk, then Done |
| DecodeService.RelayIsExact | services/decode/main.py:146-157 | in every scheduler run the relay of a request sends its whole log, and Done exactly once the scheduler has closed it |
| EndToEnd.CutReadsPrefix | services/router/main.py:192-203 | whatever part of a node's response arrives, the router reads a prefix of the request's log |
| EndToEnd.AttemptShape | services/decode/main.py:144-157 | an attempt yields tokens of the solo stream, all of it, or the oom frame; oom exactly if larger than an evicting node's pool |
| EndToEnd.BodyIsClientStream | services/router/main.py:149-185 | if every attempt gives tokens of the payload's one stream, all of it or the oom frame, the frames of the finished stream are p1 + ... + pk + last: token-only prefixes of it, then that stream in full, one oom frame, or a further prefix and the error frame; only the last has a finish reason, "length", "oom" or "error" to match |
| EndToEnd.ClientSees | services/router/main.py:93-187 | so is the reply that `Generate` gives a request that reaches its loop, followed by one Done, and the client's parser reads back exactly these frames |
| LoadClient.PercentileIsLinear | scripts/load_client.py:63-66 | for n samples, percentage 100 (i + f) / (n - 1) gives (1 - f) times sample i plus f times sample i + 1 |
| LoadClient.SamplesAreMet | scripts/load_client.py:63-66 | so each sample is met at its own rank, and p50 of two is their mean |
| LoadClient.BetweenNeighbours | scripts/load_client.py:63-66 | a percentile lies between the two samples around its rank |
| LoadClient.StaysInRange | scripts/load_client.py:60-66 | between least and greatest sample, which are the 0th and 100th percentile |
| LoadClient.MonotoneInPct | scripts/load_client.py:60-66 | monotone in the percentage, across samples too |
| LoadClient.MedianBelowTail | scripts/load_client.py:50-51 | p50 is at most p95 |
| LoadClient.MonotoneInSamples | scripts/load_client.py:60-66 | if no sample gets smaller, no percentile does |

## Left out

- DecodeLoop.Run: no call arrives during its sleeps; submits between `_admit` and the pass, and pool calls from outside, are steps of the state machine in `BatchRuns`, whose runs the loop's turns are shown to be.
- Batching.DecodeScheduler.Submit: the uuid of a sequence is a parameter, required to be new.
- BatchRuns.StreamsAreSolo: in runs, here and in the results built on them, sizes and the pool's total are not negative.
- Sessions.EveryVisitHits: requests of one session do not overlap and pins do not expire.
- EndToEnd.ClientSees: the KV metadata of a request does not change between its attempts.
- Sse.StreamDecode: the response is text already split into lines; in `Sse.Lines` a carriage return and line feed count as two breaks, which only adds a blank line.
- LoadClient.StaysInRange: percentages from 0 to 100, the range the client uses.
- FastAPI, httpx, uvicorn, Redis and SSE responses as I/O; heartbeats, TTL expiry and the parsing of settings and static urls.
- Sleeps, jitter, latency and transfer times: they only decide when a step happens.
- `utilization`, `stats`, `get` and `contains` of the pool: one-expression reads.
- Floating-point rounding of `_used_mb`, load scores and percentiles; everything is over reals.
- The lock: each pool operation is one step (the first `oom_events` increment is outside it).
- `next_token`'s hashing and vocabulary, the prefill model and JSON encoding: parameters.
- `eviction_policy.lower()` beyond ASCII letters.
- Prometheus (routing-decision and latency series among it), OpenTelemetry, dashboards, deployment, benchmark reports, and the rest of the load client.
- The colocated path of router and prefill node: it only forwards frames.
