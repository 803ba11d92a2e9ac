# Tempura's sticky router, modelled in Dafny

Tempura is a proxy in front of several Temporal clusters. A client names a *virtual namespace*;
the proxy picks one of its *physical namespaces* (a namespace on a cluster) for each workflow and
keeps every later request for that workflow there. A consistent-hash ring places new workflows, a
cache keyed by workflow id keeps them placed, admin calls add physical namespaces and cordon them,
and worker polls are fanned out to all of them and write back into the cache.

The project models four parts and proves what they promise:

1. **The ring** (`Vnodes`, `Sorting`, `Rings`, `RingHistory`, `ConsistentHashing`,
   `VirtualNamespaces`, `Resolvers`). The classes carry the source's fields and loops; each method
   is tied to a function on values. After every history of additions and removals the ring is
   compared with a reference that mentions no ring: the owner of the position at the least
   clockwise distance, modulo 2^32, among the positions of the live slots.
2. **The routing protocol** (`Routing`, `RoutingSafety`, `RoutingRuns`, `RoutingCoverage`,
   `RoutingPlacement`, `RoutingExact`, `SerialCalls`, `RoutingFailures`, `Allocations`).
   Handlers, polls and admin calls are split at every access to shared state and interleave
   freely. A workflow is *broken* when it is open on two physical namespaces, or when a request
   for it is about to go anywhere but where it is open.
3. **The poll fan-out** (`FanOut`, `FanOutRuns`, `PollSteps`). Goroutines, a buffered channel, a closer and a
   consumer that may return early, as a state machine over all interleavings.
4. **The wire formats** (`Varints`, `Rounds`, `TokenWalk`, `TaskTokens`, `TokenFailures`, `Frames`,
   `PhysicalNames`). The hand-written task-token walker with its 64-bit index arithmetic, the length-prefixed gRPC
   message, and physical namespace names.

## Main results

- *Refinement.* If distinct slots share no ring position, `GetSlot` after any history is the
  reference placement of the live slots, and of nothing else (`RingHistory.Refinement`); hence it
  depends on the live set only, a removal moves only the removed slot's keys, and a restored
  checkpoint places every key as before.
- *Placement in the running router.* In every run from the start each virtual namespace is in the
  state its own additions and removals leave it in, and under the same condition what a request is
  told by the ring is the reference placement of its workflow id (`RoutingPlacement.PlaceIsReference`).
- *Collisions.* Which ring facts survive hash collisions is proved separately: additions are
  monotone, no answer is ever a removed slot, and the list agrees with the index exactly as long
  as no removal panics over its own positions (`RingHistory.AgreementIsExact`).
- *Single home.* For each workflow id the model collects the homes that some request may still be
  sent to. A step keeps them in agreement if and only if it is *calm*, a condition on the state
  before the step (`RoutingSafety.StepExact`). In every run from the start all steps are calm for
  an id if and only if no state on the way lets calm steps break a promise about it
  (`RoutingExact.CalmIsExact`), and in every reachable state they can break one if and only if the
  homes disagree and the workflow is open or can still be opened
  (`RoutingExact.AgreementIsExact`).
- *One call at a time.* Every request reaches the workflow's one home if and only if no rejected
  completion and no admin call leaves it open, without a cache entry and placed elsewhere
  (`SerialCalls.SerialExact`). Without rejected completions no further condition is needed,
  whatever is added and removed (`SerialCalls.SerialCallsKeepOneHome`).
- *Parser.* The loop ends if and only if it comes to no index twice, and then within |token| + 1
  rounds (`TokenWalk.LoopStopsIff`). It returns `s` without a wrapped sum if and only if the token
  is a sequence of complete fields, then a length-delimited field 2 with payload `s`, then
  anything (`TaskTokens.ParseExact`). Each error has its exact condition on the token
  (`TokenFailures.FailureExact`), and so have the panics (`TokenFailures.PanicsExact`).
- *Fan-out.* In every interleaving no sender meets a full or a closed channel, nothing is lost,
  the poll ends within 3N + 2 steps, and its answer is the promised one for the results sent.
  Which replies carry a task is stated from the bytes of the reply (`FanOut.TaskInExact`).

## What turned out false

- `RemoveSlot` asks for a slice of capacity `len(ring) - virtualNodes`. When slots a and b share a
  position and b also has one of its own, adding a and b and removing both makes the last removal
  panic after the index was cleaned, and the non-empty ring then answers no key; this holds for
  every hash and replica count, exactly then (`RingHistory.CollisionBreaksAgreement`;
  `RingHistory.SlotsCanMeet` gives a hash). A removal also panics on an empty ring, where it
  changes nothing (`RingHistory.PanicsOnlyWhenEmpty`).
- Two overlapping starts of one id without a cache entry open it on two namespaces if its
  placement moves in between (`RoutingFailures.OverlappingStartsSplit`). For every hash there is
  such a run from the start (`RoutingFailures.StartsCanSplit`).
- A completion deletes the cache entry before it is forwarded. If the home was cordoned earlier, a
  request that arrives in between is sent elsewhere, with no admin call near
  (`RoutingFailures.DeleteEndangers`, `RoutingFailures.DeleteWindowMisroutes`).
- Even one call at a time: if the cluster rejects such a completion, the workflow stays open
  without a cache entry and the next request for it is sent elsewhere
  (`RoutingFailures.RejectedCompletionMisroutes`). The exact conditions of all three are
  `RoutingSafety.Calm` and `SerialCalls.CalmCall`.
- A namespace can enter the cache after it was cordoned, if it was looked up before
  (`RoutingFailures.CordonedAfterLookup`). What a miss writes is active exactly when the slot's
  last addition or removal since the lookup, if any, is not a removal
  (`RoutingCoverage.LateAnswer`).
- The allocation counter equals the number of ids cached to a namespace for resolves that run one
  at a time (`Resolvers.AllocationConserved`). Two overlapping misses count one id twice
  (`Allocations.OverlappingMissesCountTwice`); `Allocations.CounterIsExact` gives the exact
  difference over every interleaving.
- A length of 2^63 or more makes the token walker's index wrap. It can then return an id from
  bytes that are no sequence of fields (`TaskTokens.WrappedLengthMisleads`), or never return: any
  token that begins with 10, 245, eight times 255 and 1 is read forever
  (`TaskTokens.EndlessNeverStops`). An id that is returned is the token's own exactly when the walk
  met no such sum. Coming to an id field with such an end always panics.
- A name that contains `::` or ends in `:` does not survive build and parse; the exact condition
  is in `PhysicalNames.ParseBuild`.

## Premises

- The hash is any total function from strings to 32-bit values; `virtualNodes` is any natural
  number (50 in a virtual namespace).
- The store is reliable; an absent key and an empty value both read as a miss.
- A workflow id is used under one virtual namespace, since the cache key is the id alone.
- Workflows enter a cluster only through the proxy, and a cluster hands out a task only while the
  execution is open there. An execution may end by itself at any time.
- A completing task response either deletes the cache entry and closes the execution in one step
  (`Finish`), or in two with anything in between (`Delete`, `Close`). Calls that run one at a time
  use the first form. The cluster may accept or reject what it is sent.
- Each admin call is one step. Locks make each ring operation atomic.
- The repository's README shows `|` as the delimiter and `UP` as the status; the code uses `::`
  and `active` / `cordoned`, and the model follows the code.

## Model

| member | source | states |
|---|---|---|
| Vnodes.ItoaSpells | resolver.go:64 | the decimal rendering has no leading zero and spells its number, most significant digit first |
| Vnodes.DecimalIsItoa | resolver.go:64 | there is no other decimal rendering |
| Vnodes.VnodeNameSpelled | resolver.go:64 | a virtual node's name is the slot, `#` and the decimal numeral of its number |
| Vnodes.SlotHashesSpelled | resolver.go:62-65 | a slot's positions are exactly the hashes of the slot, `#` and a decimal numeral below the replica count |
| Vnodes.VnodeNameInjective | resolver.go:62-65 | no two virtual nodes share a name, whatever `#` or digits a slot contains |
| Vnodes.SharedPositionIsHashCollision | resolver.go:52-69 | two slots share a position only through a collision of the hash on two different strings |
| Sorting.Sort | resolver.go:71 | the result is sorted and a permutation of the argument |
| Sorting.SortedUnique | resolver.go:71 | a sorted permutation is unique, so any sorting algorithm gives this list |
| Sorting.FilterCounts | resolver.go:117-121 | filtering keeps every occurrence of a kept position and no occurrence of a dropped one |
| Sorting.FilterSorted | resolver.go:117-121 | filtering keeps the list sorted |
| Rings.AppendedAll | resolver.go:62-69 | what the loop of AddSlot appends and writes, in closed form |
| Rings.FirstIsUnique | resolver.go:86-88 | the boundary that binary search converges to is the first position at or after the key |
| Rings.ClockwiseIsNearest | resolver.go:83-96 | search with wrap-around finds the position with the least clockwise distance modulo 2^32 |
| Rings.NearestUnique | resolver.go:74-97 | the clockwise-nearest position is unique |
| Rings.PlacedUnique | resolver.go:74-97 | the reference placement is a function when distinct slots share no position |
| Rings.AddKeepsAgreement | resolver.go:58-72 | addition keeps the list sorted, list and index in step, and every entry at a position of its own slot |
| Rings.RemoveKeepsAgreement | resolver.go:100-123 | removal keeps list and index in step if and only if it does not panic or the ring holds no position of the slot |
| Rings.RemoveKeepsOwnership | resolver.go:100-123 | with or without a panic, what is left in the index belongs to other slots |
| Rings.AddIsMonotone | resolver.go:58-97 | after an addition every key keeps its slot or moves to the new one, even under collisions |
| Rings.RemoveKeepsOthers | resolver.go:75-123 | a removal leaves a key alone whose nearest position is not the slot's |
| Rings.AddThenRemoveRestores | resolver.go:58-123 | adding and then removing a slot that shares no position restores the exact list and index |
| RingHistory.ReachableOwnership | resolver.go:58-123 | after every history the list is sorted, contains the index, and each entry belongs to a live slot at its own position |
| RingHistory.GetSlotIsLive | resolver.go:75-123 | no answer is ever a removed slot, collisions and panics included |
| RingHistory.AgreementIsExact | resolver.go:58-123 | list and index hold the same positions throughout a history if and only if no removal panics over positions of its slot |
| RingHistory.HarmlessAnswers | resolver.go:75-123 | after such a history a non-empty ring answers every key with a live slot |
| RingHistory.RepresentsAdd | resolver.go:58-72 | addition keeps the ring equal to the live slots' positions, each slot's full share included |
| RingHistory.RepresentsRemove | resolver.go:100-123 | so does removal, when distinct slots share no position |
| RingHistory.PanicsOnlyWhenEmpty | resolver.go:115-116 | with distinct positions a removal panics if and only if no slot is live (and slots have virtual nodes at all) |
| RingHistory.ReachableRepresents | resolver.go:58-123 | every history, repeated additions included, leaves exactly the live slots' positions |
| RingHistory.RepresentsPlaces | resolver.go:75-97 | such a ring answers with the reference placement |
| RingHistory.Refinement | resolver.go:58-123 | after any history a slot is the reference placement of the live slots if and only if GetSlot returns it |
| RingHistory.HistoryIndependence | resolver.go:58-123 | two histories with the same live slots place every key alike |
| RingHistory.MinimalDisruption | resolver.go:100-123 | a removal changes no other slot's keys and moves its own to live slots if there are any |
| RingHistory.CollisionBreaksAgreement | resolver.go:100-123 | for every hash, replica count and two slots: after adding both and removing both, list and index agree if and only if the slots share no position or the first holds all of the second's; otherwise the ring is not empty and answers no key |
| RingHistory.SlotsCanMeet | resolver.go:62-69 | a hash and two slots for which this happens with any replica count of two or more |
| ConsistentHashing.ConsistentHash.constructor | resolver.go:45-50 | a new ring is empty |
| ConsistentHashing.ConsistentHash.AddSlot | resolver.go:57-72 | the appending loop and the sort leave the added ring |
| ConsistentHashing.ConsistentHash.Search | resolver.go:85-88 | bisection returns the first index at or after the key's position |
| ConsistentHashing.ConsistentHash.GetSlot | resolver.go:74-97 | the answer is the ring's owner of the clockwise position, empty on an empty ring |
| ConsistentHashing.ConsistentHash.RemoveSlot | resolver.go:99-123 | the two loops leave the reduced ring; it panics exactly when the list is shorter than one slot's share, with the index cleaned and the list kept |
| PhysicalNames.ParsePanicsIff | virtualnamespace.go:30-38 | parsing fails if and only if the name holds no `::` |
| PhysicalNames.ParseBuild | virtualnamespace.go:24-38 | parsing a built name gives back its parts if and only if the name has no `::` and no final `:` and the address has no `::` |
| PhysicalNames.ParseExact | virtualnamespace.go:30-38 | for every string: the name is what precedes the first `::`, the address what lies between it and the next `::` or the end, and the rest is dropped |
| PhysicalNames.BuildInjective | virtualnamespace.go:26-28 | clean names are never confused |
| VirtualNamespaces.AddKeepsSound | virtualnamespace.go:166-171 | whatever the ring names stays active; the slot becomes active |
| VirtualNamespaces.RemoveKeepsSound | virtualnamespace.go:173-180 | whatever the ring names stays active; the slot stops being active, even if the ring panics |
| VirtualNamespaces.PlacementIsActive | virtualnamespace.go:166-180 | a placement is empty or an active namespace, never a cordoned one |
| VirtualNamespaces.RunTracksRing | virtualnamespace.go:166-180 | after every history the active namespaces are the ring's live slots and whatever the ring names is active |
| VirtualNamespaces.RunForgetsNothing | virtualnamespace.go:166-200 | after every history every namespace ever added is still listed, and no other |
| VirtualNamespaces.RestoredPlacement | virtualnamespace.go:84-118 | a namespace rebuilt from checkpointed statuses places every key as the original |
| VirtualNamespaces.VirtualNamespace.constructor | virtualnamespace.go:158-164 | a new virtual namespace has an empty ring with 50 virtual nodes and no statuses |
| VirtualNamespaces.VirtualNamespace.Add | virtualnamespace.go:166-171 | status and ring change as in the value model; the invariant holds |
| VirtualNamespaces.VirtualNamespace.Remove | virtualnamespace.go:173-180 | cordons a known namespace and takes it off the ring; reports exactly the ring's panics |
| VirtualNamespaces.VirtualNamespace.GetAllNamespaces | virtualnamespace.go:192-200 | lists every namespace once, cordoned ones included |
| VirtualNamespaces.VirtualNamespace.Load | virtualnamespace.go:90-96 | one checkpoint entry keeps the ring equal to the active slots |
| VirtualNamespaces.Restore | virtualnamespace.go:88-98 | in any map order: the same statuses, and a ring of exactly the active slots |
| Resolvers.Resolver.constructor | resolver.go:16-20 | a new resolver has an empty store and zero counters |
| Resolvers.Resolver.Resolve | resolver.go:22-36 | a hit returns the cached value and changes nothing; a miss returns the ring's answer for the workflow id, caches it and counts it; an unknown namespace gives the empty string |
| Resolvers.ResolveKeepsBalance | resolver.go:22-36 | a resolve keeps each counter equal to the number of ids cached to its namespace |
| Resolvers.AllocationConserved | main_test.go:99-113 | so does every run of resolves, creations, additions and removals |
| Resolvers.Sticky | main_test.go:99-113 | a cached id keeps its namespace through every such run, cordoned or not |
| Allocations.StepsCountAsResolve | resolver.go:32-34 | the split steps of a resolve, uninterrupted, leave every counter as the Resolve call does, and the tally counts the same |
| Allocations.TallyIsCounter | resolver.go:33 | over every interleaved run the tally of a namespace is the growth of its counter |
| Allocations.TallyMeans | resolver.go:32-34 | a step counts a namespace if and only if it writes it as the ring's answer, and repeats it if and only if it was cached already |
| Allocations.TallyIsChange | resolver.go:32-34 | the ids that a step adds to and takes from a namespace's cached ids are those of the tally |
| Allocations.AllocationBalance | resolver.go:32-34 | over every interleaved run counter and number of cached ids differ by exactly the answers that were in the cache already, the entries lost and the entries polls made |
| Allocations.CounterIsExact | resolver.go:32-34 | from the start: this difference for the counter itself, which equals the number of cached ids if and only if these cancel out |
| Allocations.OverlappingMissesCountTwice | resolver.go:32-34 | for every hash a run from the start in which two overlapping misses count one id twice |
| RoutingPlacement.RegistryIsHistory | virtualnamespace.go:166-180 | in every run the statuses and the ring of a virtual namespace are what its own additions and removals make of them |
| RoutingPlacement.PlaceIsReference | resolver.go:22-36 | in every run from the start, if its slots share no position, the ring's answer for a workflow id is the reference placement of that id among the active namespaces, and no other slot is |
| RoutingPlacement.LookupIsReference | resolver.go:32-34 | what a miss looks up and writes to the cache is that placement |
| RoutingSafety.OrdinaryStepShrinks | resolver.go:22-36 | no step but an admin call or a completion adds a home that a request may be sent to |
| RoutingSafety.AdminExact | virtualnamespace.go:166-180 | an admin call keeps the homes of an id in agreement if and only if it is calm for it |
| RoutingSafety.DeleteExact | proxy.go:261-269 | the same for the cache delete of a completion |
| RoutingSafety.FinishExact | proxy.go:261-278 | the same for a completion deleted and forwarded in one step |
| RoutingSafety.StepExact | proxy.go:217-287 | every step keeps the homes in agreement if and only if it is calm |
| RoutingSafety.AgreedIsNotBroken | proxy.go:217-226 | in agreement the workflow is open at most once and nothing is about to be misrouted |
| RoutingSafety.CalmRunsAreSafe | proxy.go:217-287 | every interleaving of calm steps stays in agreement and unbroken |
| RoutingSafety.ClaimAgainstOpen | proxy.go:217-226 | a second home beside an open one lets calm steps break a promise |
| RoutingSafety.AgreedIsNotEndangered | proxy.go:217-287 | from agreement no calm continuation breaks a promise |
| RoutingSafety.DisagreementEndangers | proxy.go:217-287 | where the homes disagree and a new request can be routed, some calm continuation does |
| RoutingRuns.StepsRefineResolve | resolver.go:22-36 | the split steps of a resolve, uninterrupted, do to the cache what one Resolve does and bind the request to its answer |
| RoutingRuns.CallIsRun | resolver.go:22-36 | the steps for a resolve, creation, addition or removal do to cache and registry what the whole call does |
| RoutingRuns.FinishIsDeleteThenClose | proxy.go:261-278 | cache delete and forwarding with nothing in between are the completion in one step; accepted, it ends the execution as if it had ended by itself |
| RoutingRuns.CalmRunsNeverBreak | proxy.go:217-287 | no state along a calm run is broken, not only the last |
| RoutingExact.UncalmStepEndangers | virtualnamespace.go:166-180 | from agreement a step leads into a state from which calm steps break a promise if and only if it is not calm |
| RoutingExact.CalmIsExact | proxy.go:201-287 | for every run from the start: all steps are calm for an id if and only if no state on the way is endangered |
| RoutingExact.AgreementIsExact | proxy.go:201-287 | in every reachable state calm steps can break a promise if and only if the homes disagree and the workflow is open or can still be opened |
| SerialCalls.CallExact | proxy.go:201-287 | every possible call runs to its end, and its steps are calm if and only if the call is, judged before it |
| SerialCalls.UncalmCallMisroutes | proxy.go:261-278 | after a call that is not calm the next plain request for the workflow is misrouted |
| SerialCalls.SerialExact | proxy.go:201-287 | calls one at a time, rejected ones included: the workflow keeps one home that every request reaches if and only if each call is calm |
| SerialCalls.SerialExtends | proxy.go:201-287 | every possible call can be carried out |
| SerialCalls.AcceptingCallsAreCalm | proxy.go:261-278 | if no completion is rejected by the home it is open on, every call is calm, whatever is added and removed |
| SerialCalls.SerialCallsKeepOneHome | proxy.go:201-287 | then no promise is ever broken |
| RoutingCoverage.CoveredStep | connpark.go:115-128 | every step keeps cached values, requests in flight and open homes among the listed namespaces |
| RoutingCoverage.DrainCoverage | connpark.go:53-77 | in every run a cached namespace is still listed for polling after cordoning, requests go to listed homes only, and the ring's answer is active at the moment of the lookup |
| RoutingCoverage.RegisteredRun | apis.go:72-79 | every listed slot was built from a name and address that were registered |
| RoutingCoverage.SendsRegisteredNames | proxy.go:217-226 | with clean names every request carries exactly a registered namespace and host of its virtual namespace |
| RoutingCoverage.WithinRun | resolver.go:22-36 | without removals, completions and handouts, all that is in motion for an id comes from its old owner or an added slot |
| RoutingCoverage.OverlappingResults | resolver.go:22-36 | of any number of overlapping resolves each, whether it looked up the ring or hit another's entry, and the entry itself, name the old owner or an added slot |
| RoutingCoverage.CachedStays | resolver.go:22-36 | without additions either, the cached value stays |
| RoutingCoverage.OverlappingAgree | resolver.go:22-36 | then all overlapping resolves return the same slot and leave it cached |
| RoutingCoverage.AdditionIsCalm | virtualnamespace.go:166-171 | an addition is calm for every id whose placement does not move to it |
| RoutingFailures.OverlappingStartsSplit | resolver.go:22-36 | two starts around admin calls that move the placement to another home can open the workflow on both |
| RoutingFailures.StartsCanSplit | resolver.go:22-36 | for every hash, id and two namespaces a run from the start that does so |
| RoutingCoverage.LateAnswer | resolver.go:32-34 | after any run between lookup and write, what a miss writes to the cache is active at that moment if and only if the slot's last addition or removal since the lookup, if any, is not a removal |
| RoutingFailures.CordonedAfterLookup | resolver.go:32-34 | a reachable state in which an answer about to be cached has meanwhile been cordoned |
| RoutingFailures.RejectedCompletionMisroutes | proxy.go:261-278 | calls one at a time from the start, for every hash: a rejected completion after the home was replaced, and the next request is misrouted |
| RoutingFailures.DeleteEndangers | proxy.go:263-269 | between cache delete and forwarding, a request for an open workflow whose placement has moved can be misrouted by calm steps |
| RoutingFailures.DeleteWindowMisroutes | proxy.go:263-269 | for every hash a reachable state in which this window opens |
| Varints.ReadUvarint | proxy.go:294-299 | the reading loop of binary.Uvarint computes the declarative value and count |
| Varints.ReadLoopIsUvarint | proxy.go:294-299 | accumulating weighted digits spells the little-endian base-128 number, with the ten-byte limit |
| Varints.UvarintPrefix | proxy.go:314-318 | a well-formed varint is read back whatever follows it |
| Varints.UvarintSound | proxy.go:314-318 | a positive count means that many bytes form a well-formed varint of the value |
| Varints.UvarintRoundTrip | proxy.go:314-318 | every 64-bit value survives encoding and reading |
| TokenWalk.SignedIsInt64 | proxy.go:321-326 | the wrapped sum is the 64-bit integer with the same low bits |
| Rounds.StopsIff | proxy.go:292-293 | any loop over one index that leaves from n on ends if and only if no index comes up twice, and then within n + 1 rounds |
| Rounds.OneOutcome | proxy.go:292-293 | a loop has at most one outcome |
| TokenWalk.LoopStopsIff | proxy.go:292-293 | so does the walker, for every byte sequence, with n the token's length |
| TokenWalk.ParseIsBounded | proxy.go:293-333 | without a wrapped sum the index grows each round, every slice is in range and the loop ends after at most one round more than the token has bytes |
| TokenWalk.PathIsWalked | proxy.go:293-333 | a chain of skipped fields to a taken one makes the loop return its payload |
| TokenWalk.WalkIsPath | proxy.go:293-333 | what the loop returns without a wrapped sum was reached by such a chain |
| TokenWalk.PathToEnd | proxy.go:333 | skipped fields up to the end give the not-found error |
| TaskTokens.SkipsAreSteppedOver | proxy.go:304-330 | a complete field of wire type 0, 1, 2 or 5 other than the id is stepped over exactly, wherever it sits in a token |
| TaskTokens.CarriersAreTaken | proxy.go:313-325 | a complete length-delimited field 2 is taken with exactly its payload, wherever it sits |
| TaskTokens.TokenJustified | proxy.go:294-330 | conversely whatever is stepped over or taken within a token is a complete field of the wire format |
| TaskTokens.ExtractWorkflowID | proxy.go:291-334 | for every byte sequence: the outcome of the unbounded loop, or None if and only if the loop never ends |
| TaskTokens.Complete | proxy.go:291-334 | a well-formed token gives its workflow id |
| TaskTokens.Sound | proxy.go:291-334 | an id returned without a wrapped sum comes from a well-formed token, exhibited field by field |
| TaskTokens.ParseExact | proxy.go:291-334 | both directions together, and an id returned by whichever walk is the token's own if and only if no sum wrapped |
| TaskTokens.TokenParseIsBounded | proxy.go:293-326 | the walker on every token without a wrapped sum: no panic, a growing index, at most one round more than the token has bytes |
| TaskTokens.MessageShape | proxy.go:304-330 | an encoded message is its skipped fields, its first id field and the rest |
| TaskTokens.RoundTrip | proxy.go:291-334 | parsing any encoded list of fields gives the first length-delimited field 2, or not-found |
| TaskTokens.WrappedLengthMisleads | proxy.go:313-326 | a wrapped length makes the parser return an id from a token that is no sequence of fields |
| TaskTokens.EndlessNeverStops | proxy.go:313-326 | a field that ends, modulo 2^64, where it starts makes the loop run forever, whatever follows |
| TokenFailures.FailureExact | proxy.go:293-333 | it fails with a given error without a wrapped sum if and only if the token is complete skipped fields and a rest with that fault: no varint where one is due, an unsupported wire type, an id cut off, or no id at all |
| TokenFailures.PanicsExact | proxy.go:291-326 | it panics if and only if it comes to an id that ends at or beyond 2^63, or to another field that ends there but before 2^64 |
| Frames.EncodeGRPCPayload | proxy.go:587-601 | fills the buffer with flag 0, the payload's length modulo 2^32 in big-endian order, and the payload |
| Frames.FrameRoundTrip | connpark.go:312-337 | a framed payload is extracted unchanged and uncompressed if and only if it is not empty |
| Frames.ExtractExact | connpark.go:317-337 | whatever the length bytes say, a flag of 1 inflates the rest or fails as gzip does, any other flag takes it as it is, and a body that ends with its header is refused as too short |
| Frames.HeaderLength | proxy.go:590-594 | the flag is 0 and the four length bytes give the payload length modulo 2^32, hence exactly below 2^32 |
| FanOut.TaskInExact | connpark.go:102-128 | a reply carries a task if and only if it is a 200 response whose bytes after the five-byte header, inflated if the flag is 1 and gzip reads them, decode to a task with a non-empty token |
| FanOut.FramedTaskArrives | connpark.go:102-128 | a task framed uncompressed in a 200 response is delivered |
| FanOut.CompressedTaskArrives | connpark.go:105-114 | so is a compressed one, and one flagged compressed that gzip cannot read |
| FanOut.AnswerIsPromised | connpark.go:85-144 | the answer is the first task to arrive, else the last empty response, else the last error |
| FanOut.LateResults | connpark.go:126-128 | results after a task change nothing |
| FanOut.KindIgnoresOrder | connpark.go:85-144 | whether the answer is a task, an empty response or an error depends only on the multiset of results |
| FanOut.ReceiveAll | connpark.go:85-144 | the receiving loop gives that answer and writes the cache at the returned task's workflow id only |
| FanOutRuns.InvStep | connpark.go:63-88 | every step of goroutines, closer and consumer keeps the accounts and the consumer's faithfulness |
| FanOutRuns.RunInv | connpark.go:63-88 | so does every run, and each step uses up the step budget |
| FanOutRuns.FanOutIsSafe | connpark.go:63-88 | unsent, buffered and received results add up to N, no sender meets a full or closed channel, and a run has at most 3N + 2 steps |
| FanOutRuns.ClosedAfterAll | connpark.go:66-83 | the channel is closed only after every goroutine has sent its result and called Done |
| FanOutRuns.NoDeadlock | connpark.go:63-88 | while the consumer waits some step is possible, and an unsent goroutine can always send |
| FanOutRuns.FanOutAnswer | connpark.go:206-277 | in every interleaving the returned answer is the promised one for all results, later ones included |
| FanOutRuns.FanOutWrite | connpark.go:115-121 | the cache is written at the returned task's workflow id if it has one, to the polled namespace that supplied that task, and nowhere else |
| PollSteps.PollIsHandout | connpark.go:85-128 | in every interleaving, a poll over listed namespaces whose tasks come from open executions changes the router as a handout by the supplying namespace and the cache write after it, or not at all |

## Left out

- TaskTokens.ExtractWorkflowID: counts rounds, which the source does not, in order to return at all where the source loops forever.
- ConsistentHashing.ConsistentHash.AddSlot: the list is a value that is reassigned, so sorting in place and spare capacity are not visible; the lock is the atomicity of the call.
- RoutingSafety.DisagreementEndangers: one direction, for any state in which a request can be routed; `RoutingExact.AgreementIsExact` is the equivalence, for every reachable state.
- Rejected or lost store operations, the cache hit and miss counters, and Redis itself: the store is a map.
- Murmur3, gzip, protobuf marshalling and JSON: parameters or left out; a failing marshal after a rewrite is not modelled.
- The fallback from an empty workflow id to the request's resource id (proxy.go:250-254): a request is modelled from the id it ends up with.
- A completion whose slot does not parse: the source deletes the cache entry before it panics, the model keeps it; the only such slot in a run is the empty one, which reads as a miss either way.
- HTTP transport, reverse proxying, response writing, path dispatch, context cancellation of losing polls and logging: input and output.
- The handlers for cancel, signal, query and history one by one: they resolve and rewrite like a start and appear as the kind `Touch`.
- ExecutePollActivity and pollSingleActivityCluster beside their workflow counterparts: the same code for the other task type.
- The admin handlers' parsing and status codes, and that creating a virtual namespace takes the registry lock twice: each admin call is one enabled step.
- The ticker and the outer loop over virtual namespaces of the checkpoint: a checkpoint is an instantaneous snapshot of one virtual namespace.
- GetAllSlots and GetSize: read-only helpers that the routing never calls.
- Cron runs, child workflows and signals inside a cluster: they bypass the proxy.
