# Verification of the native ownership layer

This project models the logic that stands between OCaml and the native renderer: who owns a native
resource, which handles still name it, and what happens when a call is refused or an allocation fails
half way. Four pieces of state are covered.

* **The Yoga node registry.** A fixed table of generation-checked slots that stores a forest through
  parent handles, over native ordered child lists. `YogaForest` is the theory of the forest,
  `YogaNative` its agreement with the child lists, `YogaSpec` the steps and the runs, `YogaEffects` when each
  step succeeds and all it changes, `YogaRegistry` the array with its scans, worklists and walks.
* **The measure-target protocol.** Claims, measure flags, user counts, view counts and closed flags
  across nodes, buffers, views and renderables. `Ownership` says what each operation does,
  `OwnershipProofs` what that keeps, `OwnershipEffects` when each operation succeeds and all it changes,
  `Session` runs the operations on objects with their rollbacks.
* **The span-feed protocol.** Three generation-checked tables and a per-feed journal of what a failed
  allocation left pending. `SpanFeedSpec` gives the steps, `SpanFeedProofs` and `SpanFeedRuns` the
  invariant and the runs, `SpanFeedCalls` the calls that end reservations, `SpanFeedLosses` the offers
  that give spans back and the spans lost, `SpanFeedStranding` the feeds that can no longer be closed,
  `SpanFeedEffects` when each call succeeds and what it leaves alone, `SpanFeedTokens` and `SpanFeedHandles`
  how long a token stays good or dead, `SpanFeedExamples` short runs that go wrong, `SpanFeedTables` the
  arrays, `SpanFeedClient` the typed spans and reservations over them.
* **Two rings and one borrow discipline.** `EventQueue` and `EventRing` (drops the newest, latches a
  flag), `DiagnosticsRing` (overwrites the oldest, drains a few at a time), `TextMemory` (every byte array
  the native registry borrows stays reachable).

In each, pure steps over a value state carry the properties, and an imperative class over arrays or
objects is proved equal to those steps. Capacities are symbolic: more than 1 and at most 65536 slots
for the tables, which the 16-bit index in a handle allows. Native statuses and failed allocations are
parameters of each call, so every theorem holds for all of them. Ghost results named `defensive` or
`rolledBack` are raised in the branches that only a broken invariant could reach and proved never raised.

## What is assumed of the native side

* A new node, stream, span or reservation differs from those before it.
* Freeing a Yoga node recursively destroys it and all nodes its child lists reach. Insert and remove
  change one child list. Failed native calls change nothing.
* A reserve succeeds only when the feed has no active reservation, and so does a close, which otherwise
  answers Busy (docs/archive/design-2026-08-11.md, lines 574 to 582).
* An append registers its array, possibly even when it reports failure; a failed replace or register borrows
  nothing; a reset or destroy empties the registry.

## What turned out not to hold

* The raw release entry point offers a span twice when it is given the token that a feed still has
  pending: cleanup offers the span, frees the slot, and the release goes on to offer it again
  (`RunOffersOnceExactly`, `PendingReleaseOffersTwice`). The typed layer never does this.
* The raw commit and cancel, given a token that a feed still has pending, go on after cleanup has cancelled
  that very reservation: a commit copies its bytes into it and calls the native commit for it
  (`RunEndsOnceExactly`, `PendingCommitFollowsCleanup`). The typed layer never does this.
* When the cancel that cleanup asks for is refused, the journal and the slot are cleared all the same;
  nothing can end that reservation any more, so the feed can neither reserve nor close
  (`StepStrandsExactly`, `StrandedForEver`, `RefusedCancelStrands`). A full reservation table would do the
  same, but cannot occur with the source's capacities (`NoRoomUnreachable`). The same loss one level up is
  `LostReservation`.
* A span whose cleanup offer is refused, or that a drain can neither keep nor give back, is never offered
  again (`StepLosesExactly`, `RunLosesExactly`, `SettledForEver`, `RefusedCleanUpLosesSpan`).
* A view is counted on its buffer before its object is allocated. If that fails, the count stays and the
  buffer can never be closed (`ViewLostExactly`, `LostViewForEver`, `LostViewExample`). A node whose creation
  raises after the native node was made keeps its slot for good (`OrphanMadeExactly`, `OrphanForEver`,
  `OrphanExample`).
* An overflow poll clears the flag before it allocates its answer. If that allocation raises, the report
  is lost and a later "empty" certifies nothing (`EmptyCertifies`, `LostReportExample`). An event poll is
  safe: the head moves after the allocation.
* A sink whose handle could not be allocated stays active, and no sink can be created after it
  (`SinkStaysActive`, `ActiveSinkDelivered`, `UndeliveredSinkExample`).
* A diagnostics drain removes its lines before it allocates the list (`DeliveredExactly`,
  `LostLineExample`). It cuts its limit to a C int, so a large limit may drain less than it says, and
  `max_int` drains nothing (`LimitHonouredExactly`, `LargestLimitDrainsNothing`).
* `set_text` leaves an array borrowed but unrooted exactly when an allocation raises after the native
  side took it and before the storage field is stored, and leaves one to be lost by the next call when
  the id is not stored either (`SetKeepsSoundExactly`, `UncoveredExample`, `NextSetUncovers`).

## Model

| member | source | states |
|---|---|---|
| Handles.HandleRoundTrip | packages/opentui-raw/yoga_stubs.c:71-81 | index and generation come back out of a handle unchanged, so distinct slots or generations have distinct handles |
| Handles.GenerationClosedForm | packages/opentui-raw/yoga_stubs.c:83-93 | after n > 0 allocations a fresh slot has generation ((n - 1) mod 65535) + 1, so it is never 0 |
| Handles.GenerationRecurs | packages/opentui-raw/yoga_stubs.c:83-93 | a generation comes round again exactly after a multiple of 65535 allocations |
| Slots.AllocateFresh | packages/opentui-raw/span_feed_stubs.c:104-156 | an allocation in any span-feed table resolves a token nobody had, keeps every live token, and fails exactly on a full table |
| YogaForest.LinkKeepsForest | packages/opentui-raw/yoga_stubs.c:425-437 | linking keeps every parent live and the chains acyclic, given the tests made before it |
| YogaForest.UnlinkKeepsForest | packages/opentui-raw/yoga_stubs.c:453-458 | unlinking keeps the forest |
| YogaForest.NoCycle | packages/opentui-raw/yoga_stubs.c:179-195 | no chain of parents returns to its start |
| YogaForest.SubtreeReleaseKeepsForest | packages/opentui-raw/yoga_stubs.c:131-148 | releasing a root with all its descendants leaves a forest |
| YogaForest.ReleasedRootBreaksForest | packages/opentui-raw/yoga_stubs.c:131-148 | releasing the slots one by one, root first, does not keep the forest on the way: after the root of a pair it is broken, after both it holds |
| YogaNative.DescendantsAreSubtree | packages/opentui-raw/yoga_stubs.c:389-405 | what the native recursive free destroys, following child lists down, is exactly the set of slots whose parent chain leads up to the root |
| YogaNative.ChildCountExact | packages/opentui-raw/yoga_stubs.c:492-504 | each child list has no duplicates, its elements are exactly the nodes of the live slots naming that parent, and its length is their number |
| YogaSpec.StepKeepsValid | packages/opentui-raw/yoga_stubs.c:352-490 | create, free, recursive free, insert, remove, move, claim, release and measure flag each keep the invariant: a forest of live handles in full agreement with the native child lists |
| YogaSpec.RunKeepsValid | packages/opentui-raw/yoga_stubs.c:352-490 | the invariant holds after every run of these calls |
| YogaSpec.MoveIsTheMove | packages/opentui-raw/yoga_stubs.c:462-490 | a successful move puts the child at the requested final index, permutes the list, keeps the order of the others and changes nothing else; the second step is in range |
| YogaSpec.RemoveUndoesInsert | packages/opentui-raw/yoga_stubs.c:407-460 | a successful insert puts the child at the requested index, keeps the others in order and sets its parent, and a remove then restores everything |
| YogaSpec.InsertUndoesRemove | packages/opentui-raw/yoga_stubs.c:407-460 | a removed child inserted where it was is accepted again and restores everything |
| YogaSpec.FreedIsUnreferenced | packages/opentui-raw/yoga_stubs.c:370-387 | a node that plain free accepts is nobody's parent |
| YogaSpec.FreshTableGeneration | packages/opentui-raw/yoga_stubs.c:87-105 | from the initial table, each slot's generation after any run is given by its number of allocations |
| YogaSpec.HandleResolvesAgain | packages/opentui-raw/yoga_stubs.c:87-119 | a once live handle resolves after a run exactly when its slot is live after a multiple of 65535 allocations, so it is rejected through the 65534 after its release |
| YogaSpec.CreateFailsExactlyWhenFull | packages/opentui-raw/yoga_stubs.c:352-368 | creation fails exactly when every usable slot is live or the native allocator fails; a new handle is not 0 and resolves nothing old |
| YogaSpec.ClaimedSurvives | packages/opentui-raw/yoga_stubs.c:378-400 | no call but its own release ends, unclaims or changes a claimed node |
| YogaSpec.RecursiveFreeAllowed | packages/opentui-raw/yoga_stubs.c:389-400 | recursive free goes ahead exactly on a live root with no claimed node below it |
| YogaSpec.RecursiveFreeExact | packages/opentui-raw/yoga_stubs.c:402-404 | recursive free releases exactly the root and its descendants, in the table and natively, and leaves every other slot and child list alone |
| YogaEffects.RefusalChangesNothing | packages/opentui-raw/yoga_stubs.c:352-490 | a refused call leaves table and child lists as they were and answers stale or invalid; a refused creation answers a native failure and at most spends the generation of a free slot |
| YogaEffects.CreatedExactly | packages/opentui-raw/yoga_stubs.c:359-367 | a new node takes a free slot, unclaimed, unmeasured, with no parent and no children; nothing else changes |
| YogaEffects.FreeExactly | packages/opentui-raw/yoga_stubs.c:370-383 | plain free succeeds exactly on a live unclaimed root that no live slot names as its parent, and answers stale exactly on a dead handle |
| YogaEffects.FreedExactly | packages/opentui-raw/yoga_stubs.c:384-386 | after a plain free the handle, the slot and the native node are gone, and every other slot, node and child list is as before |
| YogaEffects.FreedAllExactly | packages/opentui-raw/yoga_stubs.c:402-404 | after a recursive free the handles, slots and native nodes of the root and all its descendants are gone, and no others |
| YogaEffects.InsertExactly | packages/opentui-raw/yoga_stubs.c:407-433 | an insert succeeds exactly between live nodes, under an unmeasured parent, of a root that the parent is not below, at an index up to the number of slots naming the parent |
| YogaEffects.InsertedExactly | packages/opentui-raw/yoga_stubs.c:434-438 | the child then has its parent and stands at that index of the old list, and nothing else changes |
| YogaEffects.RemoveExactly | packages/opentui-raw/yoga_stubs.c:441-452 | a remove succeeds exactly when both handles are live and the child's slot names the parent |
| YogaEffects.RemovedExactly | packages/opentui-raw/yoga_stubs.c:453-459 | the child is then a root and out of the list, and nothing else changes |
| YogaEffects.MoveExactly | packages/opentui-raw/yoga_stubs.c:462-482 | a move succeeds exactly when both handles are live, the child's slot names the parent and the index is below the number of slots naming it |
| YogaEffects.FlagsExactly | packages/opentui-raw/yoga_stubs.c:744-792 | when claim, release and measure flag succeed, and that each changes nothing but the two flags of its slot |
| YogaRegistry.Registry.NodeFromHandle | packages/opentui-raw/yoga_stubs.c:107-119 | the lookup accepts exactly the current handles of live slots |
| YogaRegistry.Registry.AllocateNode | packages/opentui-raw/yoga_stubs.c:87-105 | the scan takes the first free slot and its next generation, and answers 0 exactly when there is none |
| YogaRegistry.Registry.ReleaseSubtree | packages/opentui-raw/yoga_stubs.c:131-148 | the worklist loop, run on a table it is breaking, ends with exactly the subtree of the root released; no push passes the end of the stack |
| YogaRegistry.Registry.SubtreeHasNativeRenderable | packages/opentui-raw/yoga_stubs.c:150-177 | answers true exactly when the root or a descendant is claimed; the stale-node and full-stack exits are never taken |
| YogaRegistry.Registry.WouldCreateCycle | packages/opentui-raw/yoga_stubs.c:179-195 | the upward walk ends, and answers true exactly when the child is the parent or one of its ancestors; the stale exit is never taken |
| YogaRegistry.Registry.Create | packages/opentui-raw/yoga_stubs.c:352-368 | the in-place table ends up as the creation step says |
| YogaRegistry.Registry.Free | packages/opentui-raw/yoga_stubs.c:370-387 | the in-place table ends up as the free step says |
| YogaRegistry.Registry.FreeRecursive | packages/opentui-raw/yoga_stubs.c:389-405 | the in-place table ends up as the recursive free step says |
| YogaRegistry.Registry.InsertChild | packages/opentui-raw/yoga_stubs.c:407-439 | the in-place table and child list end up as the insert step says, error cases included |
| YogaRegistry.Registry.RemoveChild | packages/opentui-raw/yoga_stubs.c:441-460 | the in-place table and child list end up as the remove step says, error cases included |
| YogaRegistry.Registry.MoveChild | packages/opentui-raw/yoga_stubs.c:462-490 | the in-place child list ends up as the move step says, error cases included |
| YogaRegistry.Registry.ChildCount | packages/opentui-raw/yoga_stubs.c:492-504 | answers the length of the child list, or stale |
| YogaRegistry.Registry.ClaimNativeRenderable | packages/opentui-raw/yoga_stubs.c:744-758 | claims an unclaimed live node and no other |
| YogaRegistry.Registry.ReleaseNativeRenderable | packages/opentui-raw/yoga_stubs.c:760-773 | clears both flags of a live node |
| YogaRegistry.Registry.SetNativeMeasureAttached | packages/opentui-raw/yoga_stubs.c:775-792 | sets the measure flag only on a claimed node |
| YogaRegistry.ScanRoom | packages/opentui-raw/yoga_stubs.c:138-144 | while a popped node is scanned, the stack and that node are distinct live slots, so there is room for one more push |
| OwnershipProofs.DoKeepsSound | packages/opentui-raw/native_renderable.ml:65-200 | every operation on nodes, buffers, views and renderables keeps the ownership invariant, whatever the native side answers and whichever creation raises |
| OwnershipProofs.RunKeepsSound | packages/opentui-raw/native_renderable.ml:65-200 | the ownership invariant holds after every run |
| OwnershipProofs.MeasuredExactly | packages/opentui-raw/native_renderable.ml:65-180 | a node's measure flag is set exactly when an open renderable holds both the node and a target; a measured node has no children |
| OwnershipProofs.ClaimOneToOne | packages/opentui-raw/native_renderable.ml:75-110 | a node is claimed exactly when some open renderable holds it, and then exactly one does |
| OwnershipProofs.TargetInUse | packages/opentui-raw/text_buffer_view.ml:270-279 | whatever a renderable measures through natively is its recorded target, and that view, its native view and its buffer are still there |
| OwnershipProofs.TargetCounted | packages/opentui-raw/text_buffer_view.ml:291-292 | the user count of a targeted view is above 0, so its guarded decrement never stops at 0 |
| OwnershipProofs.CloseAllowed | packages/opentui-raw/text_buffer.ml:286-297 | a view closes exactly when no open renderable targets it, an open buffer exactly when no open view reads it and no view of it was lost: both counts are exact |
| OwnershipProofs.ViewLostExactly | packages/opentui-raw/text_buffer_view.ml:41-49 | a buffer counts a view it will never have exactly when an allocation fails after the count went up |
| OwnershipProofs.LostViewForEver | packages/opentui-raw/text_buffer.ml:286-305 | such a buffer stays open over every later run, and every close of it is refused |
| OwnershipProofs.LostViewExample | packages/opentui-raw/text_buffer_view.ml:41-49 | a first buffer whose first view is lost: it counts one view, no view object exists, and its close is refused |
| OwnershipProofs.OrphanMadeExactly | packages/opentui-raw/yoga_stubs.c:352-368 | a created node is left without an object exactly when the creation raises after it, unless an object from a multiple of 65535 allocations ago still carries its handle |
| OwnershipProofs.OrphanForEver | packages/opentui-raw/yoga.ml:169-211 | such a node stays live over every later run: its slot is lost |
| OwnershipProofs.OrphanExample | packages/opentui-raw/yoga_stubs.c:352-368 | a first node whose creation raises: its slot is live, no object names it, and the smallest table is full |
| OwnershipProofs.RefusedChangesNothing | packages/opentui-raw/native_renderable.ml:65-163 | an operation that is refused or closed leaves every object, flag, count and table entry as it was, but for the one generation a failed node creation spends; a creation that raises leaves exactly its native object, its counted view or its slot behind, and nothing else raises with a change |
| OwnershipEffects.SetTargetExactly | packages/opentui-raw/native_renderable.ml:59-63 | a target can be set exactly when renderable, view and buffer are open, the native side agrees, and the renderable holds no node or one that no live slot names as its parent |
| OwnershipEffects.TargetSetExactly | packages/opentui-raw/native_renderable.ml:112-163 | the renderable then measures through the view here and natively, its node is marked, the old view has one user fewer and the new one one more, and nothing else changes |
| OwnershipEffects.ClearTargetExactly | packages/opentui-raw/native_renderable.ml:165-180 | the answer of a clear, and that target, flag and user go together and nothing else changes |
| OwnershipEffects.AttachExactly | packages/opentui-raw/native_renderable.ml:65-90 | a node can be attached exactly to an open renderable that holds none, when it is unfreed, live and unclaimed, childless if there is a target, and the native side agrees; every other answer is told too |
| OwnershipEffects.AttachedExactly | packages/opentui-raw/native_renderable.ml:91-110 | the renderable then holds the node here and natively, the node is claimed, and measured if there is a target, and nothing else changes |
| OwnershipEffects.CloseRenderableExactly | packages/opentui-raw/native_renderable.ml:182-190 | an open renderable closes exactly when the native side agrees; closing again changes nothing |
| OwnershipEffects.RenderableClosedExactly | packages/opentui-raw/native_renderable.ml:190-200 | it is then closed with no node and no target, its node live, unclaimed and unmeasured, its view one user fewer, and every other object and slot as before |
| OwnershipEffects.NewRenderableExactly | packages/opentui-raw/native_renderable.ml:15-25 | when a renderable is made, that it is open and holds nothing, and what is left when the object cannot be allocated |
| OwnershipEffects.NewBufferExactly | packages/opentui-raw/text_buffer.ml:21-34 | when a buffer is made, that it is open and counts no view, and what is left when the object cannot be allocated |
| OwnershipEffects.NewViewExactly | packages/opentui-raw/text_buffer_view.ml:33-49 | when a view is made, counted on its buffer and on no other, and what each failed allocation leaves |
| OwnershipEffects.CloseViewExactly | packages/opentui-raw/text_buffer_view.ml:270-279 | a view closes exactly when no renderable targets it; it and its native view are then gone, its buffer counts one view fewer, and nothing else changes |
| OwnershipEffects.CloseBufferExactly | packages/opentui-raw/text_buffer.ml:286-297 | a buffer closes exactly when it has neither an open nor a lost view; nothing but its open flag changes |
| OwnershipEffects.NewNodeExactly | packages/opentui-raw/yoga.ml:169-172 | a node object is made exactly when the native side made a node, a slot is free and the object can be allocated; it names a slot that was free |
| OwnershipEffects.FreeNodeExactly | packages/opentui-raw/yoga.ml:174-182 | a node is freed exactly when it is live, held by no renderable, a root and childless; its handle and native node are then gone and nothing else changes |
| OwnershipEffects.FreeNodesExactly | packages/opentui-raw/yoga.ml:183-190 | a node is freed with all below it exactly when it is a live root and no renderable holds any of them; exactly those slots and native nodes go |
| OwnershipEffects.FreedNodeStays | packages/opentui-raw/yoga.ml:174-190 | freeing a freed node changes nothing |
| OwnershipEffects.InsertNodeExactly | packages/opentui-raw/yoga.ml:192-197 | inserting succeeds exactly between unfreed live nodes, under an unmeasured one, in range and without a cycle; objects, counts and flags stay |
| OwnershipEffects.RemoveAndMoveExactly | packages/opentui-raw/yoga.ml:199-211 | removing succeeds exactly on an unfreed live child of an unfreed live parent, moving exactly when the index is in range too; objects, counts and flags stay |
| Session.Bindings.AttachYogaNode | packages/opentui-raw/native_renderable.ml:65-110 | claim, mark, attach and store, with rollback, come to all of the attachment or none of it; the failed-mark branch is never taken |
| Session.Bindings.ClaimAndAttach | packages/opentui-raw/native_renderable.ml:77-110 | after any failure the claim and the measure flag are as they were |
| Session.Bindings.FinishAttach | packages/opentui-raw/native_renderable.ml:91-110 | whichever of the mark and the native call fails, the claim is taken back and the failure answered |
| Session.Bindings.ReleaseNodeClaim | packages/opentui-raw/native_renderable.ml:31-43 | the rollback always succeeds and clears both flags |
| Session.Bindings.SetMeasureTarget | packages/opentui-raw/native_renderable.ml:112-163 | claim, native call, mark, release of the old view and store come to one change of target or none; the restore branch is never taken |
| Session.Bindings.ClearMeasureTarget | packages/opentui-raw/native_renderable.ml:165-180 | native target, measure flag, user count and field are cleared together or not at all |
| Session.Bindings.CloseRenderable | packages/opentui-raw/native_renderable.ml:182-200 | closing clears the target, gives back the claim and closes, or changes nothing |
| Session.Bindings.CreateNode | packages/opentui-raw/yoga.ml:169-172 | a node object is made exactly when the registry made a node and the answer could be allocated |
| Session.Bindings.FreeNode | packages/opentui-raw/yoga.ml:174-190 | both frees mark the object freed exactly on success and are harmless when repeated |
| Session.Bindings.InsertChild | packages/opentui-raw/yoga.ml:192-197 | inserts only between objects that were not freed, with the registry's answer |
| Session.Bindings.RemoveChild | packages/opentui-raw/yoga.ml:199-204 | removes only between objects that were not freed, with the registry's answer |
| Session.Bindings.MoveChild | packages/opentui-raw/yoga.ml:206-211 | moves only between objects that were not freed, with the registry's answer |
| Session.Bindings.CreateBuffer | packages/opentui-raw/text_buffer.ml:21-34 | a buffer object is made exactly when the native side made one and the object could be allocated |
| Session.Bindings.CreateRenderable | packages/opentui-raw/native_renderable.ml:15-25 | a renderable object, holding nothing, is made exactly when the native side made one and the object could be allocated |
| Session.Bindings.CreateView | packages/opentui-raw/text_buffer_view.ml:33-49 | a view of an open buffer is counted on it before its object is made; if the object cannot be allocated the count stays |
| Session.Bindings.CloseView | packages/opentui-raw/text_buffer_view.ml:270-279 | a view with users is refused; otherwise it is uncounted and closed, once |
| Session.Bindings.CloseBuffer | packages/opentui-raw/text_buffer.ml:286-297 | a buffer with open views is refused; otherwise it is closed, once |
| SpanFeedProofs.CleanUpKeepsInv | packages/opentui-raw/span_feed_stubs.c:166-191 | cleanup keeps the invariant and leaves the feed with nothing pending |
| SpanFeedRuns.StepKeepsInv | packages/opentui-raw/span_feed_stubs.c:383-710 | every entry point keeps the invariant of the three tables, the journal and the record of drained spans, for every native status and allocation failure |
| SpanFeedRuns.RunKeepsInv | packages/opentui-raw/span_feed_stubs.c:383-710 | the invariant holds after every run, releases of pending tokens included, and offers are only added |
| SpanFeedRuns.RunOffersOnceExactly | packages/opentui-raw/span_feed_stubs.c:683-710 | over any run no span is offered again after it was accepted or offered by cleanup, exactly when no release names a token that is pending when it is made |
| SpanFeedRuns.SpanConserved | packages/opentui-raw/span_feed_stubs.c:630-710 | every drained span is in exactly one place: pending on one feed, held in one delivered slot, offered back for good, or dropped with its feed |
| SpanFeedRuns.RunRemembers | packages/opentui-raw/span_feed_stubs.c:630-710 | over any run no drained span is forgotten, and one that is back or dropped stays so |
| SpanFeedRuns.StepMoves | packages/opentui-raw/span_feed_stubs.c:166-191 | the only moves any call can make: pending to back, held to back by its own accepted release, held to dropped by a close |
| SpanFeedRuns.ReleaseOffersOnceExactly | packages/opentui-raw/span_feed_stubs.c:683-710 | a release keeps "never offered again" exactly when its token is not one still pending on a feed |
| SpanFeedLosses.StepOffers | packages/opentui-raw/span_feed_stubs.c:166-178 | the complete list of the offers a call makes: that of its cleanup, then that of a release or of a drain that finds no slot |
| SpanFeedLosses.StepLosesExactly | packages/opentui-raw/span_feed_stubs.c:166-178 | a span is lost - offered back for good and never taken back - after a call exactly when it was lost before, or the cleanup for the call is refused it and the call is not its own granted release, or the call drains it, can give it no slot and is refused its return |
| SpanFeedLosses.RunLosesExactly | packages/opentui-raw/span_feed_stubs.c:166-178 | over every run a span is lost exactly when it was so before or some call of the run loses it |
| SpanFeedLosses.SettledForEver | packages/opentui-raw/span_feed_stubs.c:166-178 | a span offered back for good or dropped is never offered again over any run, so a lost span stays lost |
| SpanFeedRuns.NeverPendingAndDelivered | packages/opentui-raw/span_feed_stubs.c:504-536 | a feed with a pending reservation has no other live reservation slot |
| SpanFeedRuns.FeedNeverStale | packages/opentui-raw/span_feed_stubs.c:557-565 | every live span or reservation slot names a live feed, so the stale-feed exits of release, commit and cancel are unreachable |
| SpanFeedRuns.CloseKillsTokens | packages/opentui-raw/span_feed_stubs.c:415-437 | after a successful close neither the feed's token nor any span or reservation token of it resolves |
| SpanFeedHandles.ClosedTokensStayDead | packages/opentui-raw/span_feed_stubs.c:45-59 | the closed feed's own token and those of its spans and reservations stay rejected through 65534 further allocations of their own slots, whatever feeds are opened meanwhile |
| SpanFeedHandles.FreshTablesGeneration | packages/opentui-raw/span_feed_stubs.c:104-156 | after any run the generation of every feed, span and reservation slot is given by its number of allocations |
| SpanFeedHandles.DeadUntilWrapped | packages/opentui-raw/span_feed_stubs.c:125-156 | a dead token resolves again exactly when its slot is live after a multiple of 65535 allocations |
| SpanFeedStranding.StepStrandsExactly | packages/opentui-raw/span_feed_stubs.c:166-191 | a call leaves a feed with an active native reservation and no slot for it exactly when it was so before, or the cleanup made for the call is refused the cancel of what the feed has pending and the call is not itself a granted commit or cancel, or a reserve finds the table full and is refused the cancel |
| SpanFeedStranding.NoRoomUnreachable | packages/opentui-raw/span_feed_stubs.c:514-524 | with at least as many reservation slots as feed slots, as in the source, the last of these cannot happen |
| SpanFeedStranding.RoomToReserve | packages/opentui-raw/span_feed_stubs.c:217-234 | an idle feed then always finds a free reservation slot |
| SpanFeedStranding.CleanUpStrands | packages/opentui-raw/span_feed_stubs.c:179-190 | cleanup by itself strands a feed exactly when it had a reservation pending and the cancel is refused |
| SpanFeedStranding.StrandedForEver | packages/opentui-raw/span_feed_stubs.c:179-190 | over every later run such a feed stays so, and no reserve and no close of it succeeds |
| SpanFeedEffects.DrainExactly | packages/opentui-raw/span_feed_stubs.c:344-363 | a drain of a non-empty queue delivers the head exactly when the answer can be allocated, a span slot is free after the cleanup, and the span is empty or pointer, offset and length stay within 64 bits and the pointer is not 0; otherwise the span is offered back or left pending, as told |
| SpanFeedEffects.ReserveExactly | packages/opentui-raw/span_feed_stubs.c:478-536 | a reserve succeeds exactly on a live feed for a length that is not negative, when the native side agrees, the answer can be allocated and a slot is free; it delivers the native pointer and length, and leaves them pending when only the answer fails |
| SpanFeedEffects.FinishExactly | packages/opentui-raw/span_feed_stubs.c:538-613 | a commit or cancel succeeds exactly on a live token when the native side agrees, a commit only of a length in range and staged, into memory that is there; the bytes copied and the call made are told |
| SpanFeedEffects.ReleaseExactly | packages/opentui-raw/span_feed_stubs.c:683-710 | a release succeeds exactly on a live token when the native side agrees; the span is then back and the token dead |
| SpanFeedEffects.ProduceExactly | packages/opentui-raw/span_feed_stubs.c:439-476 | a write or commit succeeds exactly on a live feed when not rejected and accepted natively; the new spans queue up behind the others |
| SpanFeedEffects.CreateExactly | packages/opentui-raw/span_feed_stubs.c:383-413 | a feed is made exactly from valid options, a native stream, an accepted attachment and a free slot; it starts empty with nothing pending, and nothing else changes |
| SpanFeedEffects.CloseExactly | packages/opentui-raw/span_feed_stubs.c:415-437 | a close succeeds exactly on a live feed when the native side agrees; its slot and stream are then gone, and no other |
| SpanFeedEffects.RejectedChangesNothing | packages/opentui-raw/span_feed_stubs.c:383-710 | a call with a dead token or with arguments out of range changes nothing and answers stale or invalid |
| SpanFeedEffects.OtherFeedsUntouched | packages/opentui-raw/span_feed_stubs.c:166-191 | a call leaves every feed but its own as it was, with its native stream |
| SpanFeedExamples.PendingReleaseOffersTwice | packages/opentui-raw/span_feed_stubs.c:683-710 | a run that drains under a failed allocation and then releases the pending token offers one span twice |
| SpanFeedExamples.RefusedCleanUpLosesSpan | packages/opentui-raw/span_feed_stubs.c:166-178 | a run that drains under a failed allocation and is then refused the span by the cleanup of the next call loses it |
| SpanFeedExamples.PendingCommitFollowsCleanup | packages/opentui-raw/span_feed_stubs.c:538-585 | a run that reserves under a failed allocation and commits the pending token: cleanup cancels the reservation, then bytes are copied into it and the native commit is called for it |
| SpanFeedExamples.RefusedCancelStrands | packages/opentui-raw/span_feed_stubs.c:179-190 | a run that reserves under a failed allocation and is then refused the cancel strands the feed |
| SpanFeedTokens.StepKeepsHeld | packages/opentui-raw/span_feed_stubs.c:193-201 | no call ends a delivered span but its own accepted release or the close of its feed: cleanup never touches it |
| SpanFeedTokens.StepKeepsStanding | packages/opentui-raw/span_feed_stubs.c:587-613 | no call ends a delivered reservation but its own commit or cancel, not even a close |
| SpanFeedTokens.StepKeepsReturned | packages/opentui-raw/span_feed_stubs.c:166-191 | a span that is back, or pending to go back, stays so through every call |
| SpanFeedTokens.DrainFacts | packages/opentui-raw/span_feed_stubs.c:630-681 | a drain takes the head of the native queue and either delivers it with its bytes under a token nobody holds or has it back or pending |
| SpanFeedTokens.ReserveFacts | packages/opentui-raw/span_feed_stubs.c:478-536 | a successful reserve delivers a standing reservation of the native length under a token nobody holds |
| SpanFeedCalls.FinishCallsOnceExactly | packages/opentui-raw/span_feed_stubs.c:538-613 | a commit or cancel calls the native side for a reservation already ended exactly when it gets as far as that call, its token is still pending on its feed, and the cleanup before it was granted the cancel |
| SpanFeedCalls.RunKeepsCalls | packages/opentui-raw/span_feed_stubs.c:383-710 | over every run no reservation standing in a slot has been ended, and calls are only added |
| SpanFeedCalls.RunEndsOnceExactly | packages/opentui-raw/span_feed_stubs.c:538-613 | over any run no commit, copy, cancel or cleanup follows an accepted end of the same reservation, exactly when no commit or cancel that reaches the native side names a token that was pending when it was made and whose cancel its own cleanup was granted |
| SpanFeedCalls.RunKeepsTruth | packages/opentui-raw/span_feed_stubs.c:166-191 | over every run the reservations the native side has ended are exactly those of which an end call was accepted |
| SpanFeedCalls.FinishEndsOwn | packages/opentui-raw/span_feed_stubs.c:538-613 | a successful commit or cancel of any resolving token, delivered or not, ends exactly its own native reservation, which had not ended before, and uses the token up |
| SpanFeedTokens.LostReservation | packages/opentui-raw/span_feed.ml:147-161 | when the object for a new reservation cannot be made, the reservation is left standing exactly when the native side refuses the cancel |
| SpanFeedTables.Tables.FromToken | packages/opentui-raw/span_feed_stubs.c:125-137 | the lookup accepts exactly the current tokens of live slots |
| SpanFeedTables.Tables.AllocateSlot | packages/opentui-raw/span_feed_stubs.c:139-156 | the scan takes the first free slot and its next generation, and answers 0 exactly when there is none |
| SpanFeedTables.Tables.CleanupFeedPending | packages/opentui-raw/span_feed_stubs.c:166-191 | in-place cleanup equals the cleanup step |
| SpanFeedTables.Tables.Create | packages/opentui-raw/span_feed_stubs.c:383-413 | equals the creation step |
| SpanFeedTables.Tables.InvalidateFeedSpans | packages/opentui-raw/span_feed_stubs.c:365-372 | the scan frees exactly the live span slots of the feed |
| SpanFeedTables.Tables.ReleaseFeedReservations | packages/opentui-raw/span_feed_stubs.c:374-381 | the scan frees exactly the live reservation slots of the feed |
| SpanFeedTables.Tables.Close | packages/opentui-raw/span_feed_stubs.c:415-437 | equals the close step |
| SpanFeedTables.Tables.CallNative | packages/opentui-raw/span_feed_stubs.c:439-476 | write and commit equal the produce step |
| SpanFeedTables.Tables.Reserve | packages/opentui-raw/span_feed_stubs.c:478-536 | equals the reserve step, with the journal set before and cleared after the token is delivered |
| SpanFeedTables.Tables.Finish | packages/opentui-raw/span_feed_stubs.c:538-613 | commit and cancel equal the finish step |
| SpanFeedTables.Tables.Drain | packages/opentui-raw/span_feed_stubs.c:630-681 | equals the drain step |
| SpanFeedTables.Tables.TakeSpan | packages/opentui-raw/span_feed_stubs.c:647-681 | journals, slots, copies and delivers a drained span as the drain step says |
| SpanFeedTables.Tables.Release | packages/opentui-raw/span_feed_stubs.c:683-710 | equals the release step |
| SpanFeedClient.StepKeepsOthers | packages/opentui-raw/span_feed.ml:73-137 | a call leaves every other feed, span and reservation object with the token it relies on |
| SpanFeedClient.GoodAnswers | packages/opentui-raw/span_feed.ml:83-92 | a release, commit or cancel through an object is never stale: it gets the native answer, or a missing native pointer |
| SpanFeedClient.Client.ReleaseSpan | packages/opentui-raw/span_feed.ml:83-92 | a span is released at most once; after a refusal it stays usable |
| SpanFeedClient.Client.FinishReservation | packages/opentui-raw/span_feed.ml:108-137 | a reservation is committed or cancelled at most once in total; a refusal leaves it active |
| SpanFeedClient.Client.ReserveFeed | packages/opentui-raw/span_feed.ml:139-161 | on success a new active object for a new token; when it cannot be allocated the token is cancelled |
| SpanFeedClient.Client.DrainOne | packages/opentui-raw/span_feed.ml:180-193 | one round of the drain loop: a usable object for the head span, or that span is back or pending |
| SpanFeedClient.Client.ReleaseAll | packages/opentui-raw/span_feed.ml:177-179 | release is attempted on every listed span and no queued span is touched |
| SpanFeedClient.Client.Drain | packages/opentui-raw/span_feed.ml:172-213 | all or nothing: every queued span in native order with its bytes, or an error - the list or the error may itself fail to be allocated, and the releases are then made again - and every span taken is back or pending; it succeeds exactly when no allocation fails, every span can be read and there is a slot for each |
| SpanFeedClient.Client.Write | packages/opentui-raw/span_feed.ml:63-71 | write and commit through an open feed |
| SpanFeedClient.Client.CreateFeed | packages/opentui-raw/span_feed.ml:57-61 | a feed object exactly for a delivered token that no open feed has |
| SpanFeedClient.Client.CloseFeed | packages/opentui-raw/span_feed.ml:215-222 | a close is harmless when repeated and takes the whole owner along exactly on success |
| EventQueue.RunIsFifo | packages/opentui-raw/raw_stubs.c:1936-2039 | over any calls by anyone while the sink is not destroyed - refused creates, stale polls and destroys of other handles included - what waited and what was accepted is, in order, what was polled and what waits; the queue never exceeds its capacity |
| EventQueue.FlagIsExact | packages/opentui-raw/raw_stubs.c:1945-1949 | over the same runs the flag is up exactly when something was dropped since it was last clear |
| EventQueue.DropsLeaveTraces | packages/opentui-raw/raw_stubs.c:2019-2039 | over the same runs something was dropped exactly when the flag is up, an overflow was reported, or a report was lost |
| EventQueue.EmptyCertifies | packages/opentui-raw/raw_stubs.c:2019-2039 | over the same runs, when no overflow was reported and the sink then answers "empty", the events polled are exactly those emitted, if and only if no overflow report was lost to a failed allocation |
| EventQueue.LostReportExample | packages/opentui-raw/raw_stubs.c:2026-2029 | an event too long to queue whose report is lost: the queue then answers "empty" |
| EventQueue.ReportIsTrue | packages/opentui-raw/raw_stubs.c:2026-2029 | over the same runs, an overflow answer means that fewer events were polled than emitted |
| EventQueue.SinkStaysActive | packages/opentui-raw/raw_stubs.c:1989-2017 | an active sink stays so until its own destroy, and until then every create is refused, even when its handle was never delivered |
| EventQueue.SinkWasMade | packages/opentui-raw/raw_stubs.c:1989-2017 | the sink active after a run was made by one create of that run, and nobody destroyed it since |
| EventQueue.ActiveSinkDelivered | packages/opentui-raw/raw_stubs.c:1989-2004 | its handle reached a caller exactly when that create did not raise; no later answer can tell it |
| EventQueue.UndeliveredSinkExample | packages/opentui-raw/raw_stubs.c:1989-2004 | a first create whose answer cannot be allocated leaves its sink active, and the next create is refused |
| EventQueue.QueuedExactly | packages/opentui-raw/raw_stubs.c:1936-1959 | an active sink queues an event exactly when it has at most 256 name bytes and 4096 data bytes and a slot is free; any other raises the flag |
| EventQueue.ArrivedIsPolled | packages/opentui-raw/raw_stubs.c:1936-2039 | an event of such a size that arrives while a slot is free has its place among the events polled and waiting, and was polled once nothing waits |
| EventQueue.SinkChangesExactly | packages/opentui-raw/raw_stubs.c:1989-2017 | a create starts an empty queue exactly when no sink is active, and tells its handle unless it raises; a destroy ends the active sink and no other |
| EventRing.Ring.Reset | packages/opentui-raw/raw_stubs.c:1917-1921 | empties the ring and clears the flag |
| EventRing.Ring.Callback | packages/opentui-raw/raw_stubs.c:1936-1959 | the ring takes the event at its tail, or drops it and raises the flag, as the emit step says |
| EventRing.Ring.Create | packages/opentui-raw/raw_stubs.c:1989-2004 | equals the create step |
| EventRing.Ring.Destroy | packages/opentui-raw/raw_stubs.c:2006-2017 | equals the destroy step |
| EventRing.Ring.Poll | packages/opentui-raw/raw_stubs.c:2019-2039 | equals the poll step, the index wrapping included |
| EventRing.CreateSink | packages/opentui-raw/event_sink.ml:11-15 | a sink object exactly when a new sink became active and its handle arrived |
| EventRing.EventSink.Close | packages/opentui-raw/event_sink.ml:17-21 | closing again does nothing, so it cannot destroy a later sink |
| EventRing.EventSink.Poll | packages/opentui-raw/event_sink.ml:23-32 | an open sink is never stale; each answer tells the state of the queue exactly |
| DiagnosticsRing.Line | packages/opentui-wgpu/src/wgpu_stubs.c:61-64 | a line is the longest prefix without a zero byte that leaves room for the terminator |
| DiagnosticsRing.PushedExactly | packages/opentui-wgpu/src/wgpu_stubs.c:61-71 | a push keeps the text up to its first zero byte and at most 255 bytes of it, and drops the oldest line exactly when the ring is full |
| DiagnosticsRing.NewestNeverLost | packages/opentui-wgpu/src/wgpu_stubs.c:61-71 | under every interleaving of pushes and drains, the lines taken are in push order, each once, what is kept is the newest lines, and of the newest `capacity` lines every one was taken or is kept |
| DiagnosticsRing.NothingLost | packages/opentui-wgpu/src/wgpu_stubs.c:110-131 | while no more lines are pushed than fit, the lines taken and kept are exactly those pushed |
| DiagnosticsRing.DeliveredExactly | packages/opentui-wgpu/src/wgpu_stubs.c:132-138 | all lines taken reach the caller exactly when no drain that took some failed to allocate its list |
| DiagnosticsRing.LostLineExample | packages/opentui-wgpu/src/wgpu_stubs.c:110-138 | a failed allocation loses a drained line, and a limit of 2^32 drains nothing |
| DiagnosticsRing.LimitHonouredExactly | packages/opentui-wgpu/src/wgpu_stubs.c:110-124 | a drain takes min(max, size) lines whatever is kept exactly when the C int that max is cut to is max itself, or is not below the capacity, or stays at most 0 with it |
| DiagnosticsRing.LargestLimitDrainsNothing | packages/opentui-wgpu/src/wgpu_stubs.c:112-118 | the largest limit an OCaml caller can name is cut to -1 and drains nothing |
| DiagnosticsRing.DrainedSlot | packages/opentui-wgpu/src/wgpu_stubs.c:119-122 | the wrapped index is never negative and finds the next undrained line |
| DiagnosticsRing.Diagnostics.Push | packages/opentui-wgpu/src/wgpu_stubs.c:61-71 | the ring keeps the newest lines, the oldest overwritten when it is full |
| DiagnosticsRing.Diagnostics.Drain | packages/opentui-wgpu/src/wgpu_stubs.c:110-140 | returns the oldest min(max, size) lines in push order, with max cut to a C int, and keeps the rest |
| TextMemory.SetFineExactly | packages/opentui-raw/text_buffer.ml:196-239 | a whole set answers fine exactly when the native side replaced or registered the array, in a slot below 256, and has the expected size; slot, storage and id then name the new array, and the old one is retained when its slot is another |
| TextMemory.ResetIsNew | packages/opentui-raw/text_buffer.ml:47-55 | after a reset nothing is borrowed, retained or stored, and the next set is answered as on a new buffer |
| TextMemory.SetKeepsSoundExactly | packages/opentui-raw/text_buffer.ml:196-239 | a set keeps the borrow invariant exactly unless an allocation raises between the native registration and the stores that root the new array |
| TextMemory.SetUncoversExactly | packages/opentui-raw/text_buffer.ml:196-239 | right after it, a borrowed array is unrooted exactly when neither field was stored |
| TextMemory.UncoveredExample | packages/opentui-raw/text_buffer.ml:196-239 | the first set of an empty buffer, cut short after the registration, leaves its array unrooted |
| TextMemory.NextSetUncovers | packages/opentui-raw/text_buffer.ml:222-230 | a set cut short before its id is stored looks harmless, but the next plain set unroots an array |
| TextMemory.RunCovered | packages/opentui-raw/text_buffer.ml:40-61 | over every other run of append, set, clear and reset each array the native registry borrows is retained or is the text storage; a clear keeps the registry and the roots |
| TextMemory.CollapseLength | packages/opentui-raw/text_buffer.ml:169-184 | collapsing removes one byte for each CR LF pair |
| TextMemory.CollapseLeavesPair | packages/opentui-raw/text_buffer.ml:169-184 | a CR LF pair is left exactly where a CR stood before a pair: collapsing is done once, not to a fixed point |
| TextMemory.NormalizedSizeAccepted | packages/opentui-raw/text_buffer_stubs.c:313-325 | the size test passes exactly when the native size is the number of bytes less the number of pairs, modulo 2^32 |
| TextMemory.NormalizedByteSize | packages/opentui-raw/text_buffer.ml:169-184 | the loop's count is the length of the collapsed text, cut to 32 bits |
| TextMemory.StableCopy | packages/opentui-raw/text_buffer.ml:159-167 | a new array with the same bytes |
| TextMemory.ByteStore.Append | packages/opentui-raw/text_buffer.ml:186-194 | retains a copy before the native side may borrow it, in whatever slot, and keeps it when the append fails |
| TextMemory.ByteStore.SetText | packages/opentui-raw/text_buffer.ml:196-239 | replace, re-register after a native failure, retain the old array when its slot stays borrowed, then store and set; the invariant is kept exactly as stated above |
| TextMemory.ByteStore.Reset | packages/opentui-raw/text_buffer.ml:47-55 | drops the roots only when the native registry was emptied |
| TextMemory.ByteStore.Close | packages/opentui-raw/text_buffer.ml:286-297 | refused with open views; else ends every borrow and closes, once |

## Left out

- The Zig core, Yoga layout, text layout and the span feed's own chunks: only the contracts above.
- Yoga styles, layout results, dirty flags and the measure callback: floats and calls back into OCaml.
- `load_file` in text_buffer.ml: it drops the storage on the strength of native behaviour that is not part of this model.
- Statistics of a span feed (span_feed_stubs.c:615-628): cleanup and a read.
- The options of a feed and their checks: one flag, `valid`, stands for them.
- Failed allocations inside the steps of attach, set-target and clear-target (an option or a result block); those of every creation are modelled.
- SpanFeedTables.Tables.Finish: records how many bytes a commit copies into which reservation, not the native memory itself.
- The bytes of an event slot or diagnostics line beyond its length.
- Span identity: a native span is compared by a ghost number, where the code compares chunk, offset and length.
- Garbage-collector rooting, tuple packing and tag checks of the foreign interface.
- Highlights and `set_styled_text` of text_buffer.ml: the OCaml side keeps nothing for them.
- Renderer, hit grid, drawing, image and syntax-style wrappers, and the rest of wgpu_stubs.c.
- Threads in the diagnostics ring: the mutex makes each call one step, so runs are interleavings of whole calls.
