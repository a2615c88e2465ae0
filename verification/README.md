# A verified model of the browser-automation runtime

This project models the Python runtime of the application (`python/seleniumbase_cdp`) in Dafny and
proves what its protocols, caches and numeric algorithms keep. Code that updates objects in place is
modelled by classes and loops; each method is proved against a specification function, and the
theorems are about those functions and about whole runs of them.

| file | what it models |
|---|---|
| `registry_facts.dfy`, `registry_history.dfy`, `registry_confluence.dfy`, `registry.dfy` | the flattened CDP session and frame registry: facts, what they are in terms of the messages, confluence of event streams, the four redundant maps with their cached routes |
| `document_epochs.dfy` | document epochs and what an accepted frame lock guarantees |
| `frame_discovery.dfy`, `frame_resolution.dfy` | breadth-first frame discovery and frame-path resolution |
| `control_polling.dfy`, `runtime_scheduler.dfy` | deferring page work behind control traffic without starving it |
| `threshold_fit.dfy` | threshold calibration and its global optimality |
| `track_segments.dfy` | gap bridging and segment extraction on a slider track |
| `slider_control.dfy`, `slider_end_stops.dfy` | the feedback-controlled slider and its learned gain; the same on a track with ends |
| `lattice_shape.dfy` | recognising rows and columns of a grid |
| `grid_actions.dfy`, `grid_service.dfy`, `grid_attempts.dfy`, `grid_controller.dfy` | clicking only on an unchanged grid; how such a call ends; bounded attempts; executor and controller together |
| `stable_marks.dfy`, `scope_lock.dfy` | geometry-free identities and the scope lock built on them |
| `crop_boxes.dfy`, `render_stability.dfy` | pixel boxes of marks; the document stability loop |
| `common.dfy` | shared datatypes and arithmetic |

`dafny verify dfyconfig.toml` checks the whole project.

## How to read the model

- Pages, clocks, vision and the answers of the browser are parameters: functions from the number of
  the request to an arbitrary answer. A theorem therefore holds against every page and every clock
  with the stated order of readings.
- Floating-point numbers are modelled over `real`. Python's `round` is modelled with ties to even.
- Hashes are injective: a hash is the record of the fields that enter it.
- An exception of the source is an `Err`, a missing value is `None` or the empty string.

## What the code does that one might not expect

These are proved, each with a concrete input or an exact condition.

- A context with id 0 outlives its own destroy message, because `contextId or -1` turns 0 into -1
  (`RegistryFacts.DestroyRemovesItsContext`). Positive ids are not affected.
- A context message that arrives after the detach of its session registers the session anew, with a
  new generation. Interleavings of the same streams therefore always agree on sessions and contexts
  but not always on generations, and so not always on routes (`RegistryConfluence.LateContextsRace`).
  They agree exactly when each session that is still live was last registered at the same turn
  (`RegistryConfluence.ExactConfluence`); it suffices that no session registers during the run.
- The epoch of a frame restarts after `Page.frameDetached`, so a detached frame can show an epoch it
  had before (`DocumentEpochs.DetachedFrameCanReuseEpoch`); and equal routing generations do not
  exclude a visit to another session in between (`DocumentEpochs.RouteCanVisitAnotherSession`). The
  messages that do move a route are `DocumentEpochs.Displaces`, exactly
  (`DocumentEpochs.RouteStaysIffUndisturbed`).
- A note that arrives after the quiet window has lapsed restarts the deferral without running
  anything. The starvation bound holds per burst, and control traffic with a period of at least the
  window never triggers page work by itself (`ControlPolling.PeriodicTrafficPollsIffFast`; for any
  traffic `ControlPolling.TrafficPollsIffSomeBurstIsLong`).
- The length comparison of the click plan does not notice an id that no tile carries when two tiles
  share another (`GridActions.SharedIdsPassTheLengthCheck`). Both callers take the ids from the state
  they pass along, and for such ids the comparison is exact
  (`GridActions.LengthCheckIsExactForPresentIds`); the controller's own comparison of id sets then
  never rejects a submitted call (`GridController.SolvedMeansClickedOnce`).
- Marks that start in the same pixel overlap after rounding (`CropBoxes.SeparationSurvivesRounding`).
- A slider plant with gain above 5/3 can need the third drag (`SliderControl.LargerGainsNeedThreeDrags`).
- The discovery loop's test of `visited` never succeeds: every queued path is new
  (`FrameDiscovery.VisitNext`).

## Model

| member | source | states |
|---|---|---|
| `Registry.FlatCdpTargetRegistry.StoredMapsAreConsistent` | python/seleniumbase_cdp/task_browser_worker_oopif_impl.py:185-252 | In every state between events, for any frame and session: a frame has a cached route iff some session has a candidate for it; the route is the candidate of the unique newest of those sessions; the frame sets are the inverse of the candidate table; no row is empty; live generations are distinct, positive and at most the counter |
| `Registry.NewestCandidate` | python/seleniumbase_cdp/task_browser_worker_oopif_impl.py:190-190 | The winner is one of the candidates and no candidate has a higher generation |
| `Registry.FlatCdpTargetRegistry.constructor` | python/seleniumbase_cdp/task_browser_worker_oopif_impl.py:48-54 | A new registry has agreeing, empty maps |
| `Registry.FlatCdpTargetRegistry.SelectFrameRoute` | python/seleniumbase_cdp/task_browser_worker_oopif_impl.py:185-191 | Whatever the cached route of the frame was, afterwards it is the winner of the stored row, and no other frame is disturbed |
| `Registry.FlatCdpTargetRegistry.RegisterSession` | python/seleniumbase_cdp/task_browser_worker_oopif_impl.py:154-183 | A known session keeps its generation, a new one gets the next counter value and an empty frame set; the maps agree with the facts after either |
| `Registry.FlatCdpTargetRegistry.RecordContext` | python/seleniumbase_cdp/task_browser_worker_oopif_impl.py:193-209 | The session (registered first when unknown) has exactly this context for the frame, and all four maps follow |
| `Registry.FlatCdpTargetRegistry.StoreCandidate` | python/seleniumbase_cdp/task_browser_worker_oopif_impl.py:200-209 | The table row of the frame gains or replaces the one candidate of the session and the route of the frame is recomputed; all other rows and routes stay |
| `Registry.FlatCdpTargetRegistry.DropCandidate` | python/seleniumbase_cdp/task_browser_worker_oopif_impl.py:216-222 | Removing one candidate from the table leaves table and routes agreeing with the facts minus that one context |
| `Registry.FlatCdpTargetRegistry.DestroyContext` | python/seleniumbase_cdp/task_browser_worker_oopif_impl.py:211-222 | Exactly the contexts of the session that answer to the destroyed id are gone; everything else is untouched |
| `Registry.FlatCdpTargetRegistry.DropAllCandidates` | python/seleniumbase_cdp/task_browser_worker_oopif_impl.py:226-231 | The loop shared by clear and detach removes all candidates of the session and re-routes each of its frames |
| `Registry.FlatCdpTargetRegistry.ClearSessionContexts` | python/seleniumbase_cdp/task_browser_worker_oopif_impl.py:224-232 | The session stays registered, with its generation, and has no context left |
| `Registry.FlatCdpTargetRegistry.DetachSession` | python/seleniumbase_cdp/task_browser_worker_oopif_impl.py:234-252 | The session and its candidates are gone, and nothing else changed |
| `Registry.FlatCdpTargetRegistry.HandleEvent` | python/seleniumbase_cdp/task_browser_worker_oopif_impl.py:115-152 | Each message, with its guards on missing ids, moves the four maps exactly as the one-line reference step moves the facts, and keeps the invariant |
| `Registry.FlatCdpTargetRegistry.HandleEventWithFrameLifecycle` | python/seleniumbase_cdp/task_browser_worker_oopif.py:253-274 | The overlay runs the registry step and the epoch step of the same message |
| `Registry.FlatCdpTargetRegistry.ReaderLoop` | python/seleniumbase_cdp/task_browser_worker_oopif_impl.py:95-113 | Over any finite stream of messages the in-place maps end where the run of reference steps ends |
| `Registry.FlatCdpTargetRegistry.RouteOf` | python/seleniumbase_cdp/task_browser_worker_oopif_impl.py:386-389 | The cached answer equals the newest candidate recomputed from the facts |
| `RegistryFacts.RunConcat` | python/seleniumbase_cdp/task_browser_worker_oopif_impl.py:95-113 | Handling two streams one after the other is handling their concatenation |
| `RegistryFacts.StampAfterStep` | python/seleniumbase_cdp/task_browser_worker_oopif_impl.py:154-183 | A generation survives a step unchanged, disappears, or is the fresh counter value of the session the message names |
| `RegistryFacts.StepKeepsWellFormed` | python/seleniumbase_cdp/task_browser_worker_oopif_impl.py:154-183 | One step keeps live generations distinct, positive and bounded by a counter that never goes back |
| `RegistryFacts.ReachableIsWellFormed` | python/seleniumbase_cdp/task_browser_worker_oopif_impl.py:154-252 | The same in every reachable state |
| `RegistryFacts.SomeWinner` | python/seleniumbase_cdp/task_browser_worker_oopif_impl.py:185-191 | Every row has a winner: none for the empty row, otherwise a candidate nobody outranks |
| `RegistryFacts.RouteIsTheNewest` | python/seleniumbase_cdp/task_browser_worker_oopif_impl.py:185-191 | In a well-formed state a frame has exactly one winner, so a result is a winner of its row iff it is the route |
| `RegistryFacts.DetachIsLocal` | python/seleniumbase_cdp/task_browser_worker_oopif_impl.py:234-247 | Detaching a session removes its own candidate from each row and nothing else |
| `RegistryFacts.DetachFallsBack` | python/seleniumbase_cdp/task_browser_worker_oopif_impl.py:234-247 | A frame routed elsewhere keeps its route; a frame of the detached session falls back to the newest remaining candidate |
| `RegistryFacts.DestroyIsInertIffStale` | python/seleniumbase_cdp/task_browser_worker_oopif_impl.py:211-222 | A destroy changes the state iff the named session holds a context answering to that id |
| `RegistryFacts.ReplacedContextIsSafe` | python/seleniumbase_cdp/task_browser_worker_oopif_impl.py:193-222 | For positive ids, a late destroy of a replaced context leaves its replacement, and every other session, alone |
| `RegistryFacts.DestroyRemovesItsContext` | python/seleniumbase_cdp/task_browser_worker_oopif_impl.py:217-217 | A stored context survives its own destroy message iff its id is 0, because 0 is compared as -1 |
| `RegistryFacts.OldStampsMeanContinuousLife` | python/seleniumbase_cdp/task_browser_worker_oopif_impl.py:154-183 | A generation no newer than an earlier counter value belongs to a session that stayed registered at every moment since |
| `RegistryConfluence.StepIsLocal` | python/seleniumbase_cdp/task_browser_worker_oopif_impl.py:115-152 | A message changes only the session it names, and changes it as it would alone |
| `RegistryConfluence.RunIsLocal` | python/seleniumbase_cdp/task_browser_worker_oopif_impl.py:95-152 | Over any interleaving each session ends as it would after its own stream alone, given the generations it was handed |
| `RegistryConfluence.Confluence` | python/seleniumbase_cdp/task_browser_worker_oopif_impl.py:185-252 | Two interleavings of the same per-session streams that register sessions in the same order end in the same state, with the same route for every frame |
| `RegistryConfluence.RunHasSkeleton` | python/seleniumbase_cdp/task_browser_worker_oopif_impl.py:95-152 | Up to generations a session ends as its own stream alone makes it end |
| `RegistryConfluence.RegistrationsAreCounted` | python/seleniumbase_cdp/task_browser_worker_oopif_impl.py:154-183 | How often a run registers a session is determined by the stream of that session |
| `RegistryConfluence.RunHandsOutTurns` | python/seleniumbase_cdp/task_browser_worker_oopif_impl.py:168-174 | The generation of a live session is the turn of its last registration in the run, or its old one |
| `RegistryConfluence.OnlyGenerationsCanDiffer` | python/seleniumbase_cdp/task_browser_worker_oopif_impl.py:115-252 | Without any condition, all interleavings of the same streams end with the same sessions, targets, contexts and counter; only generations can differ |
| `RegistryConfluence.ExactConfluence` | python/seleniumbase_cdp/task_browser_worker_oopif_impl.py:115-252 | Two interleavings of the same streams end in the same state iff every session that is live at the end and was registered on the way had its last registration at the same turn in both |
| `RegistryConfluence.SettledIffNoRegistration` | python/seleniumbase_cdp/task_browser_worker_oopif_impl.py:193-200 | Nothing is registered during a run iff no single stream attaches or creates a context while its session is not live |
| `RegistryConfluence.SettledConfluence` | python/seleniumbase_cdp/task_browser_worker_oopif_impl.py:185-252 | For sessions already registered whose detach is final, every interleaving ends with the same contexts and the same routes |
| `RegistryConfluence.LateContextsRace` | python/seleniumbase_cdp/task_browser_worker_oopif_impl.py:195-199 | An order that matters, as an instance: two sessions re-registered by late context messages win the shared frame in the order of arrival; the exact condition is the one of ExactConfluence |
| `RegistryHistory.HoldsAfterStep` | python/seleniumbase_cdp/task_browser_worker_oopif_impl.py:115-252 | One message: a session holds context c for a frame iff the message is a default context message with that id, or it held c and the message neither replaces, clears, detaches nor destroys it |
| `RegistryHistory.HeldIffStored` | python/seleniumbase_cdp/task_browser_worker_oopif_impl.py:115-252 | After any stream, from the messages alone: a session holds context c for a frame iff the stream has a default context message of the session for the frame with id c and no later one with any id, no later detach or clear of the session and no later destroy of that id, 0 counting as -1 |
| `RegistryHistory.SessionAfterStep` | python/seleniumbase_cdp/task_browser_worker_oopif_impl.py:115-183 | One message registers a session iff it attaches it or reports a default context of it while it is not live; it records target, type and parent of the attach message, or none of them |
| `RegistryHistory.LiveIffOpen` | python/seleniumbase_cdp/task_browser_worker_oopif_impl.py:115-252 | After any stream a session is live iff a message registered it and no later one detached it; the generation counter is the number of messages that opened a session |
| `RegistryHistory.SessionFromMessages` | python/seleniumbase_cdp/task_browser_worker_oopif_impl.py:154-183 | A live session carries the target, type and parent of the message that opened it after its last detach, and as generation the number of openings up to that message |
| `RegistryHistory.OpenedOnce` | python/seleniumbase_cdp/task_browser_worker_oopif_impl.py:154-183 | That message is unique |
| `RegistryHistory.RouteFromMessages` | python/seleniumbase_cdp/task_browser_worker_oopif_impl.py:185-209 | After any stream, from the messages alone: a frame is answered with a candidate iff its context is stored and not ended and its session, opened by a message of the stream, was opened last among those with a stored context for the frame; id, target and generation are those of the two messages |
| `DocumentEpochs.EpochCountsNavigations` | python/seleniumbase_cdp/task_browser_worker_oopif.py:240-274 | Over a run without a detach of the frame, its epoch grows by exactly its navigations |
| `DocumentEpochs.EpochRunConcat` | python/seleniumbase_cdp/task_browser_worker_oopif.py:253-274 | Epochs after two streams in a row are epochs after their concatenation |
| `DocumentEpochs.EpochRestartsAtDetach` | python/seleniumbase_cdp/task_browser_worker_oopif.py:270-274 | After a detach the epoch counts navigations since the last detach only |
| `DocumentEpochs.EpochFromMessages` | python/seleniumbase_cdp/task_browser_worker_oopif.py:240-274 | After any stream the epoch of a frame is the number of positions at which it navigates with no detach of it later on |
| `DocumentEpochs.AcceptedLockIsSound` | python/seleniumbase_cdp/scope_locked_grid_site_adapter.py:569-584 | Equal epoch and routing generation, without a detach of the frame: no navigation happened, and the route is served by the same session, registered at every moment in between |
| `DocumentEpochs.RoutingLockIsSound` | python/seleniumbase_cdp/scope_locked_grid_site_adapter.py:582-583 | Equal routing generations alone: no route at either end, or the same session, registered at every moment in between |
| `DocumentEpochs.RouteStaysOneStep` | python/seleniumbase_cdp/task_browser_worker_oopif_impl.py:185-252 | A message leaves a frame with its session iff it is neither a default context of another unregistered or newer session for the frame nor a detach, clear or matching destroy of the session itself |
| `DocumentEpochs.RouteStaysIffUndisturbed` | python/seleniumbase_cdp/task_browser_worker_oopif_impl.py:185-252 | A frame is served by the same session at every moment of a run iff no message of the run is one of these |
| `DocumentEpochs.EpochLockIsExact` | python/seleniumbase_cdp/scope_locked_grid_site_adapter.py:580-581 | Without a detach the epoch comparison accepts iff nothing navigated the frame |
| `DocumentEpochs.DetachedFrameCanReuseEpoch` | python/seleniumbase_cdp/task_browser_worker_oopif.py:271-274 | With a detach it is not exact: navigated once, detached, navigated once again shows the old epoch |
| `DocumentEpochs.RouteCanVisitAnotherSession` | python/seleniumbase_cdp/scope_locked_grid_site_adapter.py:582-583 | An accepted lock does not exclude a displacing event: an instance where a newer session takes the frame and leaves again; the exact condition is the one of RouteStaysIffUndisturbed |
| `FrameDiscovery.Discover` | python/seleniumbase_cdp/task_browser_worker_oopif_impl.py:515-556 | For any page, unbounded or failing: at most `limit` paths are dequeued, each once; keys are distinct, prefix-closed and in non-decreasing depth, depth being path length; each entry is a listed frame with the right name and URL; below the limit nothing is missing; paths of one document come in the order of its list, and those of a document dequeued earlier come first; the overshoot is less than the children of the last expanded frame |
| `FrameDiscovery.Expand` | python/seleniumbase_cdp/task_browser_worker_oopif_impl.py:533-555 | The inner loop records each new selector once, in order, and queues it while below the limit and resolvable |
| `FrameDiscovery.RecordStep` | python/seleniumbase_cdp/task_browser_worker_oopif_impl.py:539-555 | Recording one child keeps the whole loop state, queued or not |
| `FrameDiscovery.RecordKeepsOrder` | python/seleniumbase_cdp/task_browser_worker_oopif_impl.py:533-555 | A new child stands behind everything found so far: behind its earlier siblings, and behind the children of documents dequeued earlier |
| `FrameDiscovery.VisitNext` | python/seleniumbase_cdp/task_browser_worker_oopif_impl.py:523-525 | The `visited` set is exactly the dequeued paths, so its test never fires |
| `FrameDiscovery.DequeueStep` | python/seleniumbase_cdp/task_browser_worker_oopif_impl.py:521-532 | Dequeuing a path and refreshing the URL of its entry keeps the loop state |
| `FrameDiscovery.DrainedMeansComplete` | python/seleniumbase_cdp/task_browser_worker_oopif_impl.py:519-556 | When the queue drains below the limit, every frame of the tree was recorded |
| `FrameDiscovery.SmallPagesAreComplete` | python/seleniumbase_cdp/task_browser_worker_oopif_impl.py:515-556 | A page with fewer than `limit` frames is listed exactly |
| `FrameResolution.ResolvePath` | python/seleniumbase_cdp/task_browser_worker_oopif_impl.py:482-513 | The loop returns the frame and the summed offsets of the path, or the error of its first failing step |
| `FrameResolution.ResolveConcat` | python/seleniumbase_cdp/task_browser_worker_oopif_impl.py:482-513 | Resolving a concatenated path is resolving its parts in turn with the offsets adding |
| `FrameResolution.EmptySelectorsDoNothing` | python/seleniumbase_cdp/task_browser_worker_oopif_impl.py:492-492 | A path resolves like the same path without its empty selectors |
| `FrameResolution.WalkResolves` | python/seleniumbase_cdp/task_browser_worker_oopif_impl.py:482-513 | A path resolves along each of its walks through the frames: to the last frame, at the sums of the x and of the y of the owner elements met, or at 0 when offsets are not wanted |
| `FrameResolution.ResolvedMeansWalk` | python/seleniumbase_cdp/task_browser_worker_oopif_impl.py:482-513 | A path that resolves has such a walk |
| `FrameResolution.ErrorsMean` | python/seleniumbase_cdp/task_browser_worker_oopif_impl.py:482-513 | A path that does not resolve can be walked up to a step where the child is missing, or, when offsets are wanted, the owner is missing or has no size; the error tells which |
| `FrameResolution.DiscoveredPathsResolve` | python/seleniumbase_cdp/task_browser_worker_oopif_impl.py:482-556 | On a static frame tree each discovered path that leads to a frame resolves to that very frame: always without offsets, and with offsets iff every owner element on the way is visible |
| `ControlPolling.ControlAwareAdapter.NoteControlActivity` | python/seleniumbase_cdp/control_aware_seleniumbase_adapter.py:89-112 | A note changes the scheduling state as the specification says, the poll it may trigger included, and is cut short exactly when the work of that poll raises |
| `ControlPolling.ControlAwareAdapter.PollRuntime` | python/seleniumbase_cdp/control_aware_seleniumbase_adapter.py:122-158 | A poll runs, is skipped or is absorbed as the specification says; neither what its page work calls back into the adapter nor an exception of that work shows in the state; the exception is passed on |
| `ControlPolling.ControlAwareAdapter.Perform` | python/seleniumbase_cdp/control_aware_seleniumbase_adapter.py:89-158 | Any sequence of calls on the adapter ends in the state of the run |
| `ControlPolling.ControlAwareAdapter.PassiveObservation` | python/seleniumbase_cdp/control_aware_seleniumbase_adapter.py:114-120 | The depth is restored; an observation that only reads leaves the scheduling state as it was |
| `ControlPolling.RunsAreConsistent` | python/seleniumbase_cdp/control_aware_seleniumbase_adapter.py:89-158 | After every timed run the deferral start and the quiet window agree with the clock and with each other, and no poll is left in progress |
| `ControlPolling.RunningPollAbsorbsEverything` | python/seleniumbase_cdp/control_aware_seleniumbase_adapter.py:90-124 | Notes during a poll or a passive observation, and polls during a poll, change nothing |
| `ControlPolling.WorkIsAbsorbed` | python/seleniumbase_cdp/control_aware_seleniumbase_adapter.py:89-158 | Nested passive observations, notes and polls made while a poll is running leave no trace, and so do notes made under passive observation |
| `ControlPolling.ObservationIsFree` | python/seleniumbase_cdp/control_aware_seleniumbase_adapter.py:114-120 | Reading telemetry is invisible to the scheduling state, however often it notes control activity and however deeply it nests |
| `ControlPolling.NoteEnforcesCeiling` | python/seleniumbase_cdp/control_aware_seleniumbase_adapter.py:89-112 | After every unsuppressed note that is not cut short the deferral age is below the ceiling, and the poll a note triggers always runs |
| `ControlPolling.QuietBurstIsShort` | python/seleniumbase_cdp/control_aware_seleniumbase_adapter.py:89-158 | In a burst without a runtime poll, all unsuppressed notes fall within one ceiling of the deferral start |
| `ControlPolling.BurstsAreNotStarved` | python/seleniumbase_cdp/control_aware_seleniumbase_adapter.py:89-158 | In a burst whose notes arrive inside the previous window, a note at least one ceiling after an earlier one implies that a poll ran in between, whatever else happened |
| `ControlPolling.SlowNotesNeverPoll` | python/seleniumbase_cdp/control_aware_seleniumbase_adapter.py:107-108 | Notes spaced at least the quiet window apart restart the deferral each time and never run a poll |
| `ControlPolling.FastNotesKeepDeferral` | python/seleniumbase_cdp/control_aware_seleniumbase_adapter.py:107-112 | Notes spaced closer keep the deferral start until the ceiling |
| `ControlPolling.PeriodicTrafficPollsIffFast` | python/seleniumbase_cdp/control_aware_seleniumbase_adapter.py:89-112 | Periodic control traffic triggers a poll by itself iff its period is shorter than the quiet window |
| `ControlPolling.TrafficSoFar` | python/seleniumbase_cdp/control_aware_seleniumbase_adapter.py:89-112 | Until the first such poll the deferral start is the start of the current burst |
| `ControlPolling.TrafficPollsIffSomeBurstIsLong` | python/seleniumbase_cdp/control_aware_seleniumbase_adapter.py:89-112 | Any series of notes triggers a poll by itself iff some note arrives, its burst unbroken, at least the ceiling after the burst began |
| `ControlPolling.WatchdogRunsAreOwed` | python/seleniumbase_cdp/control_aware_seleniumbase_adapter.py:152-155 | Forced watchdog polls never exceed the navigations that owe them, and the debt is at most one |
| `ControlPolling.PollSkipsIffQuiet` | python/seleniumbase_cdp/control_aware_seleniumbase_adapter.py:122-158 | A poll that is not nested skips iff the quiet window is open and the deferral is unset or younger than 2 seconds; otherwise it adds one run, clears the deferral and settles a pending navigation by one watchdog poll |
| `ControlPolling.QuietPollsWork` | python/seleniumbase_cdp/control_aware_seleniumbase_adapter.py:122-158 | After any run, a poll at least 0.9 seconds after the last unsuppressed note does the page work |
| `ControlPolling.NavigationStaysPending` | python/seleniumbase_cdp/control_aware_seleniumbase_adapter.py:152-155 | A navigation stays pending through any run without page work |
| `ControlPolling.NavigationIsServed` | python/seleniumbase_cdp/control_aware_seleniumbase_adapter.py:152-155 | The first page work after a navigation, in a poll or in a starved note and whatever came in between, does the watchdog poll and settles it |
| `ControlPolling.NoteExtendsWindow` | python/seleniumbase_cdp/control_aware_seleniumbase_adapter.py:89-112 | An unsuppressed note that is not starved moves the window to 0.9 seconds ahead and starts the deferral unless it was running inside an open window |
| `ControlPolling.StarvedNotePolls` | python/seleniumbase_cdp/control_aware_seleniumbase_adapter.py:89-112 | A note at the ceiling inside an open window does the page work first |
| `RuntimeScheduler.SingleOwnerRuntimeScheduler.QueueTimeout` | python/seleniumbase_cdp/runtime_poll_scheduler.py:22-24 | The wait never exceeds the request, never sleeps past the due time, and reaches it when the caller may wait that long |
| `RuntimeScheduler.SingleOwnerRuntimeScheduler.PollIfDue` | python/seleniumbase_cdp/runtime_poll_scheduler.py:26-32 | A poll happens iff forced or due, and re-arms the timer one interval after the call |
| `RuntimeScheduler.UnforcedPollsAreSpaced` | python/seleniumbase_cdp/runtime_poll_scheduler.py:26-32 | Over any run of calls, forced ones included, each unforced poll comes at least an interval after the poll before it, so n of them need n - 1 intervals |
| `RuntimeScheduler.PollsIffSomeCallIsDue` | python/seleniumbase_cdp/runtime_poll_scheduler.py:26-32 | A run of calls polls at all iff one of them is forced or reaches the due time |
| `ThresholdFit.CountCase` | python/seleniumbase_cdp/siglip_calibration_latency_probe.py:173-182 | The four counters advance by the confusion counts of the case |
| `ThresholdFit.ThresholdMetrics` | python/seleniumbase_cdp/siglip_calibration_latency_probe.py:162-197 | The one-pass loop computes the metrics of the threshold |
| `ThresholdFit.CountersAreClassSizes` | python/seleniumbase_cdp/siglip_calibration_latency_probe.py:173-182 | Each counter is the number of indexes in its class |
| `ThresholdFit.F1IsDice` | python/seleniumbase_cdp/siglip_calibration_latency_probe.py:183-185 | F1 is twice the true positives over twice the true positives plus both errors, and 0 without true positives |
| `ThresholdFit.SameSideSameCounts` | python/seleniumbase_cdp/siglip_calibration_latency_probe.py:162-197 | Thresholds with every score on the same side are indistinguishable |
| `ThresholdFit.DistinctScores` | python/seleniumbase_cdp/siglip_calibration_latency_probe.py:201-201 | Strictly increasing, and exactly the scores that occur |
| `ThresholdFit.CandidatesIncrease` | python/seleniumbase_cdp/siglip_calibration_latency_probe.py:204-207 | The candidate thresholds are strictly increasing |
| `ThresholdFit.CandidateSplits` | python/seleniumbase_cdp/siglip_calibration_latency_probe.py:204-207 | Candidate k accepts exactly the scores from position k on |
| `ThresholdFit.EveryThresholdHasACandidate` | python/seleniumbase_cdp/siglip_calibration_latency_probe.py:204-207 | Every real threshold has the same metrics as one of the finitely many candidates |
| `ThresholdFit.FitThreshold` | python/seleniumbase_cdp/siglip_calibration_latency_probe.py:200-223 | Fails iff there are fewer than two distinct scores; otherwise returns a candidate that no candidate beats and that beats all earlier ones |
| `ThresholdFit.FitIsGloballyOptimal` | python/seleniumbase_cdp/siglip_calibration_latency_probe.py:200-223 | No real threshold has more exact cases than the fitted one, nor as many with a better F1, nor as many with the same F1 and a better balanced accuracy |
| `ThresholdFit.FitIsTheSmallestBest` | python/seleniumbase_cdp/siglip_calibration_latency_probe.py:216-222 | The fitted threshold is the smallest of the best candidates |
| `ThresholdFit.FitIsCentred` | python/seleniumbase_cdp/siglip_calibration_latency_probe.py:204-206 | With scores on both sides, no threshold that accepts the same scores keeps further away from its nearest score than the fitted one |
| `ThresholdFit.FitOutsideScores` | python/seleniumbase_cdp/siglip_calibration_latency_probe.py:202-207 | Without scores on both sides the fitted threshold lies outside all scores by a millionth of their spread, and at least a millionth |
| `ThresholdFit.LowerThresholdsAreWorse` | python/seleniumbase_cdp/siglip_calibration_latency_probe.py:216-222 | A threshold that accepts a score the fit rejects has a smaller key |
| `ThresholdFit.MetricsMeaning` | python/seleniumbase_cdp/siglip_calibration_latency_probe.py:162-197 | The metrics of a threshold in terms of tiles: the cases selected exactly, the precision, recall and F1 of the accepted tiles over all cases, and the balanced accuracy as the mean of recall and the share of unwanted tiles rejected |
| `ThresholdFit.ExactIsCounted` | python/seleniumbase_cdp/siglip_calibration_latency_probe.py:168-172 | The exact cases are those in which every expected tile exists and is accepted, and nothing else is |
| `ThresholdFit.CountersAreTotals` | python/seleniumbase_cdp/siglip_calibration_latency_probe.py:173-182 | Over all cases each counter is the total of the sizes of its class |
| `ThresholdFit.SeparableMeansExactFit` | python/seleniumbase_cdp/siglip_calibration_latency_probe.py:200-223 | The fit is exact on every case iff some real threshold is |
| `ThresholdFit.RankingSummary` | python/seleniumbase_cdp/siglip_calibration_latency_probe.py:226-241 | Fails iff a case lacks a target or a distractor; otherwise counts the cases some threshold separates and returns the mean and the least margin |
| `ThresholdFit.PositiveMarginMeansSeparable` | python/seleniumbase_cdp/siglip_calibration_latency_probe.py:232-234 | A positive margin means exactly that some threshold separates the case |
| `ThresholdFit.SeparableAloneIsNotTogether` | python/seleniumbase_cdp/siglip_calibration_latency_probe.py:226-241 | An instance: cases that are all separable alone but have no common threshold; the exact condition is the one of CommonThresholdIffApart |
| `ThresholdFit.CommonThresholdIffApart` | python/seleniumbase_cdp/siglip_calibration_latency_probe.py:200-241 | All cases share a threshold iff every target score of any case exceeds every distractor score of any case and only existing tiles are expected |
| `TrackSegments.BridgeSmallGaps` | python/seleniumbase_cdp/slider_target_grounder.py:289-301 | In place: a position ends active iff it was active or lies in an inactive stretch of at most the gap between two active ones |
| `TrackSegments.BridgingOnlyAdds` | python/seleniumbase_cdp/slider_target_grounder.py:289-301 | No active position is lost |
| `TrackSegments.RemainingGapsAreWide` | python/seleniumbase_cdp/slider_target_grounder.py:289-301 | Every gap that is left is wider than the limit |
| `TrackSegments.BridgingIsIdempotent` | python/seleniumbase_cdp/slider_target_grounder.py:289-301 | Bridging a bridged array changes nothing |
| `TrackSegments.Segments` | python/seleniumbase_cdp/slider_target_grounder.py:304-315 | The segments are sorted, disjoint, maximal and reconstruct the array exactly |
| `TrackSegments.SegmentationIsUnique` | python/seleniumbase_cdp/slider_target_grounder.py:304-315 | An array has only one such segmentation |
| `TrackSegments.MergeShape` | python/seleniumbase_cdp/slider_target_grounder.py:289-315 | Merged segments are spaced more than the gap apart and keep the outer ends |
| `TrackSegments.MergeCovers` | python/seleniumbase_cdp/slider_target_grounder.py:289-315 | Merged segments cover the original ones and the small gaps between them, nothing else |
| `TrackSegments.BridgingIsMerging` | python/seleniumbase_cdp/slider_target_grounder.py:289-315 | The merged original segments are a segmentation of the bridged array |
| `TrackSegments.BridgedSegments` | python/seleniumbase_cdp/slider_target_grounder.py:237-238 | Bridging in place and then cutting yields exactly the original segments with close neighbours merged |
| `SliderControl.SliderActionExecutor.Apply` | python/seleniumbase_cdp/slider_action_executor.py:51-203 | For a slider: resets the gain on a new calibration, reports done at once within tolerance, and otherwise reports what the run of drags did; it reports verified iff it was complete or within 0.02 on entry, or the last state read is complete, or an unfailed slider within 0.02 of the target; for anything else it reports nothing and keeps its state |
| `SliderControl.SliderActionExecutor.CorrectionLoop` | python/seleniumbase_cdp/slider_action_executor.py:102-176 | The loop and the field `gain` follow the specified run of at most four drags |
| `SliderControl.SliderActionExecutor.DragOnce` | python/seleniumbase_cdp/slider_action_executor.py:103-176 | One pass stops, or drags, learns and decides, as specified |
| `SliderControl.LearningKeepsRange` | python/seleniumbase_cdp/slider_action_executor.py:435-445 | The learned gain never leaves [0.15, 2.5] |
| `SliderControl.LoopIsSafe` | python/seleniumbase_cdp/slider_action_executor.py:102-176 | Whatever the page answers: at most four drags, each starting outside the tolerance, each command a noticeable move and inside the admissible range, every learned gain in range |
| `SliderControl.RunIsRecorded` | python/seleniumbase_cdp/slider_action_executor.py:102-176 | On any page the attempts a run reports record what it did: each drag starts where the previous one ended, corrects by the gain known then, and learns from what was seen; the run gives up only when finished, failed, gone, on target, after four drags, when nothing moved, or with nothing left to command |
| `SliderControl.SettledIsTheFirstToShow` | python/seleniumbase_cdp/slider_action_executor.py:447-461 | After a drag the first of five polls that shows an end, a failure or a movement is taken, or else the fifth |
| `SliderControl.OvershootIs` | python/seleniumbase_cdp/slider_action_executor.py:409-425 | The first command passes the target by 8% of the distance, at least 0.008 and at most 0.035 of the track, or goes to 1.02 for a target at the end; a native range is commanded the target itself |
| `SliderControl.CorrectionIs` | python/seleniumbase_cdp/slider_action_executor.py:427-433 | A correction commands the error divided by the gain, plus 18% of the error but at most 0.012, cut off at the ends of the track |
| `SliderControl.LearningIs` | python/seleniumbase_cdp/slider_action_executor.py:435-445 | A drag changes the gain only if at least 0.005 was commanded and 0.001 observed in the same direction at a ratio of 0.08 to 4; the first such drag sets it to the ratio limited to 0.15 to 2.5, a later one moves it 40% of the way there |
| `SliderControl.ExactMeasurement` | python/seleniumbase_cdp/slider_action_executor.py:435-445 | A proportional response is measured exactly: a first noticeable drag learns the gain of the plant, a later one shrinks the error of a stale gain to 0.6 of it, and a drag below the guards teaches nothing |
| `SliderControl.StaleGainConverges` | python/seleniumbase_cdp/slider_action_executor.py:435-445 | After drags of any lengths on a linear plant, n of them noticeable, the error of the learned gain is 0.6 to the n-th power of what it was |
| `SliderControl.FirstCommandIsFar` | python/seleniumbase_cdp/slider_action_executor.py:409-425 | The first command is at least 0.02 away from the slider |
| `SliderControl.CorrectionLands` | python/seleniumbase_cdp/slider_action_executor.py:427-433 | A correction with the true gain overshoots the target by exactly gain times dither |
| `SliderControl.DragOnPlant` | python/seleniumbase_cdp/slider_action_executor.py:103-176 | One pass of the loop against a linear plant, away from the ends of the track |
| `SliderControl.LinearPlantConverges` | python/seleniumbase_cdp/slider_action_executor.py:92-183 | A linear plant with any gain in [0.15, 2.5], fresh calibration and no saturation comes to rest within 0.02 of the target, verified, within three drags, within two when the gain is at most 5/3, and its gain is learned exactly |
| `SliderControl.SecondDragConverges` | python/seleniumbase_cdp/slider_action_executor.py:92-183 | From the second drag on; the second one suffices iff gain times dither is within tolerance |
| `SliderControl.LargerGainsNeedThreeDrags` | python/seleniumbase_cdp/slider_action_executor.py:427-433 | 5/3 is sharp: for every larger gain there is a start that needs the third drag |
| `SliderEndStops.DragToStop` | python/seleniumbase_cdp/slider_action_executor.py:103-176 | One pass of the loop against a plant that stops at the ends of its track |
| `SliderEndStops.ClampedCommandMiss` | python/seleniumbase_cdp/slider_action_executor.py:427-433 | Clamping a correction to the track never makes it miss further, except by the part a weak plant leaves |
| `SliderEndStops.KnownGainStep` | python/seleniumbase_cdp/slider_action_executor.py:427-445 | With the true gain a correction ends within the dither, or at a quarter of the error with the gain confirmed |
| `SliderEndStops.FirstAtEnd` | python/seleniumbase_cdp/slider_action_executor.py:409-445 | A first drag that is stopped at an end leaves the slider there with a gain measured too small by a bounded amount |
| `SliderEndStops.LeavesEnd` | python/seleniumbase_cdp/slider_action_executor.py:427-445 | The correction from the end passes the target by little and mends 0.4 of the gain |
| `SliderEndStops.MendedGainReaches` | python/seleniumbase_cdp/slider_action_executor.py:427-433 | The next correction is within tolerance |
| `SliderEndStops.SteadyPlantConverges` | python/seleniumbase_cdp/slider_action_executor.py:92-183 | A plant of gain 0.75 to 1.1 that stops at the ends of its track comes to rest within 0.02 of the target, verified, within three drags from every start for every target, end targets included, with or without overshooting |
| `LatticeShape.ClusterCount` | python/seleniumbase_cdp/extended_grid_site_adapter.py:741-748 | Counts the clusters of the sorted values, means recomputed for each value |
| `LatticeShape.ScriptClusterCount` | python/seleniumbase_cdp/extended_grid_site_adapter.py:89-102 | The incremental-mean version of the script returns the same count |
| `LatticeShape.RunningMean` | python/seleniumbase_cdp/extended_grid_site_adapter.py:97-98 | The incremental update yields the exact mean of the extended cluster |
| `LatticeShape.ClustersAreClustering` | python/seleniumbase_cdp/extended_grid_site_adapter.py:741-748 | The clusters cut the sorted values into consecutive pieces: each value of a piece is within the tolerance of the mean of those before it, and each piece begins beyond the tolerance of the mean of the whole previous one |
| `LatticeShape.MeanBounds` | python/seleniumbase_cdp/extended_grid_site_adapter.py:744-744 | A mean lies between the bounds of its values |
| `LatticeShape.PrefixClusters` | python/seleniumbase_cdp/extended_grid_site_adapter.py:741-748 | After each sorted prefix the clusters are exactly the groups met so far, and the last one holds values of one group only |
| `LatticeShape.GroupsAreCounted` | python/seleniumbase_cdp/extended_grid_site_adapter.py:741-748 | Values forming k groups no wider than the tolerance and further apart than it give k, in any order |
| `LatticeShape.LevelsAreCounted` | python/seleniumbase_cdp/extended_grid_site_adapter.py:734-735 | Centres taking exactly the values of spaced levels give as many clusters as levels |
| `LatticeShape.LatticeIsRecognised` | python/seleniumbase_cdp/extended_grid_site_adapter.py:714-738 | Every lattice of 2 to 8 rows and columns of equal non-overlapping cells with sides above 6 is inferred as itself, in any listing order |
| `LatticeShape.PartOfLatticeIsInferredIffFull` | python/seleniumbase_cdp/extended_grid_site_adapter.py:714-738 | Tiles taken from a lattice, every row and column being met, are inferred as it iff they are as many as its cells and it has 2 to 8 rows and columns; with a cell left out or out of range they have no shape |
| `LatticeShape.GroupedTilesAreInferred` | python/seleniumbase_cdp/extended_grid_site_adapter.py:714-748 | Tiles of positive size that are neither equal nor aligned: if their centres form r rows and c columns no wider than the tolerance (45% of the mean side, between 6 and 36) and further apart than it, the shape is (r, c) iff both are 2 to 8 and the tiles are r times c, and none otherwise |
| `LatticeShape.UnusableTilesHaveNoShape` | python/seleniumbase_cdp/extended_grid_site_adapter.py:714-733 | No tiles, a tile without a rectangle, or one without a positive size: no shape |
| `LatticeShape.CompleteLatticeIsInferred` | python/seleniumbase_cdp/extended_grid_site_adapter.py:714-738 | ... and a listing with a missing rectangle never is |
| `GridActions.OrderedIndexes` | python/seleniumbase_cdp/proximity_grid_action_executor.py:369-404 | Computes the specified click order |
| `GridActions.Best` | python/seleniumbase_cdp/proximity_grid_action_executor.py:391-401 | The pick strictly precedes every other candidate by distance, y, x and index |
| `GridActions.GreedyPicksNearest` | python/seleniumbase_cdp/proximity_grid_action_executor.py:386-404 | When all centres resolve, each click goes to the nearest tile still to come, seen from the previous one |
| `GridActions.OrderIsPermutation` | python/seleniumbase_cdp/proximity_grid_action_executor.py:369-404 | The order is a permutation of the selection, whatever the marks look like |
| `GridActions.GreedyIgnoresListing` | python/seleniumbase_cdp/proximity_grid_action_executor.py:386-404 | The order depends on which tiles are selected, not on how they were listed |
| `GridActions.ProximityGridActionExecutor.ClickTo` | python/seleniumbase_cdp/proximity_grid_action_executor.py:223-245 | The cursor starts mid-viewport and moves only when a click went through |
| `GridActions.ProximityGridActionExecutor.ClickMarks` | python/seleniumbase_cdp/proximity_grid_action_executor.py:110-155 | The click loop performs the specified interaction, and the clicked ids are a prefix of the plan |
| `GridActions.ProximityGridActionExecutor.SubmitMarks` | python/seleniumbase_cdp/proximity_grid_action_executor.py:157-181 | The closing poll, the optional submit and the final poll, as specified |
| `GridActions.ProximityGridActionExecutor.ApplyMarks` | python/seleniumbase_cdp/proximity_grid_action_executor.py:64-181 | The whole call performs the specified interaction and returns its outcome, for every page |
| `GridActions.ClickAllIsDisciplined` | python/seleniumbase_cdp/proximity_grid_action_executor.py:110-155 | Each click of the loop follows a matching poll and aims at the tile carrying the id in that poll |
| `GridActions.SubmitIsDisciplined` | python/seleniumbase_cdp/proximity_grid_action_executor.py:157-181 | The submit click, too, directly follows a matching poll |
| `GridActions.ActsOnlyOnUnchangedGrid` | python/seleniumbase_cdp/proximity_grid_action_executor.py:64-181 | Against any page: every click directly follows a poll showing the expected grid, none follows a different one, clicked ids are a prefix of the plan, and a submit happens at most once and only after the whole plan |
| `GridActions.MatchesIffSameGrid` | python/seleniumbase_cdp/proximity_grid_action_executor.py:305-317 | A state passes the comparison iff it is a grid with as many tiles as the observed one, showing at each position the same source, or the same semantic signature where there is none |
| `GridActions.ClicksAreJustified` | python/seleniumbase_cdp/proximity_grid_action_executor.py:64-181 | Against any page, in terms of the states: every click directly follows a poll that shows that same grid and hits the middle of the first tile carrying the clicked id in that poll; after any other poll nothing is clicked |
| `GridActions.TilesAreTheTiles` | python/seleniumbase_cdp/proximity_grid_action_executor.py:305-311 | The tiles read of a state are exactly its tile marks, in order |
| `GridService.VisitsNearestFirst` | python/seleniumbase_cdp/proximity_grid_action_executor.py:369-404 | Distinct tiles with a size are visited from the one that is highest, then leftmost; each next one is the nearest to the previous by the distance of the middles, ties going to the higher, the more left, the earlier one |
| `GridService.UnknownPlacesKeepTheOrder` | python/seleniumbase_cdp/proximity_grid_action_executor.py:369-385 | A selection with a tile without a size, or with a tile listed twice, keeps its order |
| `GridService.RefusesIffStale` | python/seleniumbase_cdp/proximity_grid_action_executor.py:84-107 | A call refuses before its first click iff the observed state is no grid, the plan fails the length comparison or the first poll shows another grid; then nothing was clicked |
| `GridService.CallEnds` | python/seleniumbase_cdp/proximity_grid_action_executor.py:110-181 | Any other call stops at the first planned id that is gone, has no size, whose click fails or whose poll shows another grid, and says which; or it clicks the whole plan and submits iff asked to, the closing poll shows the same grid, there is something to press and the click goes through |
| `GridService.CooperativePageIsServed` | python/seleniumbase_cdp/proximity_grid_action_executor.py:64-181 | On a page that keeps showing the observed grid the whole plan is clicked and, if asked for, submitted |
| `GridService.ReportedIndexesWereClicked` | python/seleniumbase_cdp/proximity_grid_action_executor.py:123-152 | Each index reported is that of the first tile with the planned id in the poll before its click |
| `GridService.SubmitIsPressed` | python/seleniumbase_cdp/proximity_grid_action_executor.py:167-169 | The submit click hits the middle of the submit control in the poll before it, or the confirmation control where that has no size |
| `GridService.CursorIsContinuous` | python/seleniumbase_cdp/proximity_grid_action_executor.py:223-245 | Each click sets out from where the last one left the cursor, the first from the middle of the viewport; a failed click leaves the cursor where it was |
| `GridActions.PlanRepeatsIffIdsRepeat` | python/seleniumbase_cdp/proximity_grid_action_executor.py:73-84 | The plan has no duplicate iff the selected tiles carry distinct ids |
| `GridActions.PlanIsCompleteIffPresent` | python/seleniumbase_cdp/proximity_grid_action_executor.py:73-83 | The plan reaches every requested id iff all of them are on the page |
| `GridActions.LengthCheckIsExactForPresentIds` | python/seleniumbase_cdp/proximity_grid_action_executor.py:73-84 | For ids taken from the observed state the length comparison passes iff the tiles carrying them have distinct ids |
| `GridActions.PassingPlanIsRightIffPresent` | python/seleniumbase_cdp/proximity_grid_action_executor.py:84-84 | For any ids, a plan that passes the comparison clicks each exactly once iff all of them are on the page |
| `GridActions.SharedIdsPassTheLengthCheck` | python/seleniumbase_cdp/proximity_grid_action_executor.py:84-84 | What the length comparison can miss is an id that no tile carries, which neither caller requests: two tiles sharing an id pass in its place |
| `GridActions.SubmittedIsCompleteIffDistinct` | python/seleniumbase_cdp/auto_interaction_controller.py:252-257 | For any requested ids, a submitted call clicked exactly those iff the tiles it planned on carried distinct ids |
| `GridAttempts.VerifyGrid` | python/seleniumbase_cdp/auto_interaction_controller.py:369-387 | The polling loop returns the specified verification |
| `GridAttempts.VerifiedIffExplicitlyComplete` | python/seleniumbase_cdp/auto_interaction_controller.py:369-387 | Verified iff, before the deadline, a poll reports completion and no earlier one an outcome; explicit failure likewise |
| `GridAttempts.TimeoutReportsChange` | python/seleniumbase_cdp/auto_interaction_controller.py:369-387 | A verification that runs into its deadline reports a transition iff some look before it showed no grid or another signature |
| `GridAttempts.VerifiedInTime` | python/seleniumbase_cdp/auto_interaction_controller.py:288-317 | A call that clicked and submitted everything is verified iff, within 2.5 seconds, a poll reports explicit completion and no earlier one an outcome |
| `GridAttempts.AutoInteractionController.HandleGrid` | python/seleniumbase_cdp/auto_interaction_controller.py:83-319 | Attempts and last signature change, and the reply is given, as specified, on every branch |
| `GridAttempts.ActsExactlyWhenAllowed` | python/seleniumbase_cdp/auto_interaction_controller.py:92-292 | The executor is called iff the grid is actionable, new, below its attempts, classified and fully addressable; a signature becomes the last verified one iff that call clicked all, submitted and saw explicit completion |
| `GridAttempts.AttemptsAreCountedExactly` | python/seleniumbase_cdp/auto_interaction_controller.py:83-319 | An attempt is counted iff the grid is actionable, new, below three attempts and vision gave no error, even if nothing can be selected; a verified call takes all attempts of its signature back, no other signature is touched, and the reply carries the attempt |
| `GridAttempts.RefusalsMean` | python/seleniumbase_cdp/auto_interaction_controller.py:92-204 | Each reply of a call that does not reach the executor, as an exact condition on the view, the attempts and the answer of vision |
| `GridAttempts.OutcomesMean` | python/seleniumbase_cdp/auto_interaction_controller.py:252-319 | Each reply of a call that did: unfinished iff not one mark per selected tile with exactly their ids was clicked or nothing was submitted; the last attempt reports itself used up unless the grid went stale or failed explicitly |
| `GridAttempts.OneCall` | python/seleniumbase_cdp/auto_interaction_controller.py:83-319 | One call never gives attempts back except by verifying, and counts each executor call |
| `GridAttempts.AttemptsAreBounded` | python/seleniumbase_cdp/auto_interaction_controller.py:83-319 | Over any run, executor calls for a signature are at most three per verification of it, plus three |
| `GridAttempts.ExhaustedIsFinal` | python/seleniumbase_cdp/auto_interaction_controller.py:112-124 | A signature out of attempts is never acted on again |
| `GridAttempts.VerifiedIsLeftAlone` | python/seleniumbase_cdp/auto_interaction_controller.py:101-109 | The last verified signature is left alone until another one is verified |
| `GridController.RequestedAreMapped` | python/seleniumbase_cdp/auto_interaction_controller.py:177-186 | The ids that reach the executor are those of the selected tiles, and all are on the page |
| `GridController.ExecutorServesController` | python/seleniumbase_cdp/auto_interaction_controller.py:237-256 | Called by the controller, against any page, the executor clicks at all only if the selected tiles carry distinct ids, clicks none twice, and submits once, after all of them; a submitted call passes the set comparison of the controller |
| `GridController.SolvedMeansClickedOnce` | python/seleniumbase_cdp/auto_interaction_controller.py:83-292 | A signature is taken for solved iff acting was allowed, the call submitted and completion was explicit; then each selected id was clicked exactly once, each click directly after a poll showing the expected grid |
| `StableMarks.BuildStableMarks` | python/seleniumbase_cdp/stable_marks.py:9-61 | One mark per element, in order, each with the identity and meaning of its element |
| `StableMarks.IdentityAndMeaning` | python/seleniumbase_cdp/stable_marks.py:25-61 | A mark is identified by scope, role and the first given of structural key and selector, or its slot; it means the first given of semantic signature, caption, source and role; confidence is cut to 0 to 1 |
| `StableMarks.DigestIgnoresGeometry` | python/seleniumbase_cdp/stable_marks.py:104-114 | Digests agree iff the elements agree in role, key, meaning and source; bounds, confidence and time play no part |
| `StableMarks.IdsAreDistinctIffKeysAre` | python/seleniumbase_cdp/stable_marks.py:29-36 | Marks of one observation have distinct ids iff no two elements share role and structural key |
| `ScopeLock.ScopeLockedGridSiteAdapter.PollOnce` | python/seleniumbase_cdp/scope_locked_grid_site_adapter.py:166-188 | A poll changes lock, generation and signature and replies as specified, on every branch |
| `ScopeLock.ScopeLockedGridSiteAdapter.WithGeneration` | python/seleniumbase_cdp/scope_locked_grid_site_adapter.py:586-603 | The generation goes up by one iff the signature differs from the last one |
| `ScopeLock.FreshLockMatches` | python/seleniumbase_cdp/scope_locked_grid_site_adapter.py:547-584 | A lock matches the state it was built from |
| `ScopeLock.PollRespectsLock` | python/seleniumbase_cdp/scope_locked_grid_site_adapter.py:166-188 | A reply marked as locked satisfies the lock then held; discovery runs iff no lock served the poll; a terminal local state releases the lock and is returned as it is |
| `ScopeLock.PollMeans` | python/seleniumbase_cdp/scope_locked_grid_site_adapter.py:166-188 | A poll told by what the page shows: a finished local state is reported and releases the lock; the locked grid is reported as locked; else the discovered grid is reported, re-read if that shows the same grid, and locked if it is plausible and can be |
| `ScopeLock.SameIdentityMeans` | python/seleniumbase_cdp/scope_locked_grid_site_adapter.py:528-545 | Two states have one identity iff scope, dimensions and tile count agree and at each position the tiles have the same id and the same source, or the same meaning where there is none |
| `ScopeLock.SameSignatureMeans` | python/seleniumbase_cdp/scope_locked_grid_site_adapter.py:586-603 | Two states have one signature iff kind, scope, tile count, instruction, outcome, frame, epoch, routing generation and, at each position, id and meaning agree |
| `ScopeLock.LockAcceptsMeans` | python/seleniumbase_cdp/scope_locked_grid_site_adapter.py:547-584 | Which states can be locked, and what a lock accepts later: a grid of the same identity and, for a frame, the same path, frame, epoch and routing generation |
| `ScopeLock.DiscoveryLocksWhatItFound` | python/seleniumbase_cdp/scope_locked_grid_site_adapter.py:176-188 | After a discovery a lock is held iff the reply says so, only for a plausible grid and with the identity of the discovered one; the re-read state is reported only if it shows the same grid |
| `ScopeLock.EqualGenerationsMeanEqualSignatures` | python/seleniumbase_cdp/scope_locked_grid_site_adapter.py:586-603 | Over any run the generation never goes back, and an unchanged generation means an unchanged signature |
| `ScopeLock.GenerationCountsChanges` | python/seleniumbase_cdp/scope_locked_grid_site_adapter.py:586-603 | Over any run the generation counts the changes of signature along all states that were read, discovered and re-read ones included |
| `ScopeLock.LockLastsWithoutDiscovery` | python/seleniumbase_cdp/scope_locked_grid_site_adapter.py:166-188 | Between two locked replies without a discovery the lock stays the same |
| `ScopeLock.LocksNameTheirGrids` | python/seleniumbase_cdp/scope_locked_grid_site_adapter.py:547-567 | After every run the scope of a held lock is the scope of its grid |
| `ScopeLock.LockedRepliesShowOneGrid` | python/seleniumbase_cdp/scope_locked_grid_site_adapter.py:166-188 | Two locked replies with no discovery between them show the same grid, tile by tile, and for a frame lock the same frame, epoch and routing generation |
| `ScopeLock.SteadyRunIsFree` | python/seleniumbase_cdp/scope_locked_grid_site_adapter.py:166-176 | A run of polls on an unchanged locked grid discovers nothing and changes nothing |
| `ScopeLock.GeometryIsInvisible` | python/seleniumbase_cdp/scope_locked_grid_site_adapter.py:528-603 | States that differ only in geometry, certainty or time have the same signature, identity and lock, and match the same locks |
| `ScopeLock.PollIgnoresGeometry` | python/seleniumbase_cdp/scope_locked_grid_site_adapter.py:166-188 | Such pages leave the adapter in the same state after a poll |
| `ScopeLock.RunsIgnoreGeometry` | python/seleniumbase_cdp/scope_locked_grid_site_adapter.py:166-188 | ... and after any run of polls, with the same locks, discoveries and generations |
| `ScopeLock.MatchingFrameLockIsSound` | python/seleniumbase_cdp/scope_locked_grid_site_adapter.py:569-584 | A frame lock that matches again, route and epoch being read one after the other with messages in between: without a detach of the frame it was not navigated between the two epoch reads, and its session was registered at every moment between the two route reads and still serves it |
| `CropBoxes.Round` | python/seleniumbase_cdp/screenshot_grid_tile_provider.py:117-120 | To the nearest integer, ties to the even one |
| `CropBoxes.Crop` | python/seleniumbase_cdp/screenshot_grid_tile_provider.py:82-124 | Empty iff the image or the list is empty or some mark cannot be cropped; otherwise one box per mark, in order |
| `CropBoxes.BoxesAreInside` | python/seleniumbase_cdp/screenshot_grid_tile_provider.py:117-123 | Every box is non-empty and inside the image |
| `CropBoxes.EdgesAreExact` | python/seleniumbase_cdp/screenshot_grid_tile_provider.py:117-120 | An edge of a box that the image does not cut off lies within half a pixel of the scaled edge of its mark; a box is larger only to keep one pixel |
| `CropBoxes.BoxFollowsMark` | python/seleniumbase_cdp/screenshot_grid_tile_provider.py:94-120 | On each axis a mark is scaled by image size over viewport size, and not at all when the viewport is unknown |
| `CropBoxes.DroppedIffOutside` | python/seleniumbase_cdp/screenshot_grid_tile_provider.py:105-123 | A mark has no box iff it has no size or its near corner, to the nearest pixel, lies to the right of the image or below it |
| `CropBoxes.SeparationSurvivesRounding` | python/seleniumbase_cdp/screenshot_grid_tile_provider.py:117-120 | Marks one after the other on an axis give separated boxes iff they start at different pixels, in particular when the first spans a pixel after rounding |
| `CropBoxes.BoxesStaySeparated` | python/seleniumbase_cdp/screenshot_grid_tile_provider.py:117-123 | The same for whole boxes, horizontally and vertically |
| `CropBoxes.TinyMarksCanOverlap` | python/seleniumbase_cdp/screenshot_grid_tile_provider.py:119-120 | A mark narrower than a pixel can overlap its neighbour |
| `RenderStability.RenderedDocument` | python/seleniumbase_cdp/product_monitor_browser.py:101-132 | Stable at the first snapshot whose unchanged, ready run is long enough; not stable only if the deadline passed before any such snapshot |
| `RenderStability.StableRunMeaning` | python/seleniumbase_cdp/product_monitor_browser.py:122-126 | All snapshots of the run show one document, and it was interactive or complete |
| `RenderStability.StableRunIsMaximal` | python/seleniumbase_cdp/product_monitor_browser.py:122-126 | The comparison before the run saw a change or an unready document |
| `RenderStability.StableRunIsLongIff` | python/seleniumbase_cdp/product_monitor_browser.py:122-126 | The run is n or longer iff each of the last n comparisons saw the same document twice, interactive or complete |

## Left out

- The registry's `_root_sessions` and `_root_frames`, the session flags `initializing`, `initialized` and `error`, and `ensure_target`: `ensure_target` releases the lock between its updates, so no containment holds across threads; events are atomic here.
- The `generation` parameter of `_register_session`: no caller passes it.
- Websocket transport, request futures, threads, waiting for a route, and remote-object release: replaced by atomic event methods and by page answers that may fail.
- JSON field coercion (`str(x or "")`, `int(x or 0)`, `float(x or 0.0)`) and `strip()`: messages and states are typed records.
- FrameDiscovery.Discover: a page answers per path and frame, at most one question each; two evaluations that fail for different reasons are one failure.
- Rounding of reported numbers (six or four digits) and every other floating-point effect: values are reals.
- The joined text that is hashed: fields are kept as a record, so texts containing the separator do not collide here, nor does a slot number with a key that spells it out.
- The traces, screenshots and challenge handling of `goto`: only its flag for deferred navigation work is modelled.
- ControlPolling.ControlAwareAdapter.PollRuntime: what the page work does to the page; its calls back into the adapter and its exceptions are modelled, a navigation from within is not.
- StableMarks.IdsAreDistinctIffKeysAre: the prefix and the truncation of mark ids to twelve hexadecimal digits; an id is the full record that is hashed.
- SliderEndStops.SteadyPlantConverges: plants with a gain outside 0.75 to 1.1 on a track with ends; for them convergence is proved away from the ends (SliderControl.LinearPlantConverges).
- `_apply_state`, the fallback of the index-based `apply` for tiles without ids: it revalidates nothing, so no such guarantee exists for it.
- The choice of the best global grid candidate and its plausibility test: discovery is a page answer carrying that verdict.
- GridAttempts.AutoInteractionController.HandleGrid: the recorded diagnostics, the `acted` flag of the reply and the slider branch of the controller.
- SliderControl.SliderActionExecutor.Apply: cursor paths, drag modes, point counts and the count of direction changes.
- The scoring of track columns around `_bridge_small_gaps` and `_segments`: statistics of pixel values without an invariant of their own.
- DOM-scanning scripts other than `clusterCount`, vision inference, image decoding, instruction patterns, cursor motion, popups and checkout.
- User interface, Electron typings, service launcher, profiles, cookies, policies, outcome summaries and file rotation: plumbing or one-function facts.
