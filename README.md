# OSVR input device: bindings, callbacks and dispatch

A Dafny model of the controller-input core of the OSVR Unreal plugin's
`FOSVRInputDevice`.

- **The binding table.** There are 58 `OSVRButton` entries. Each one is
  Digital, Analog or Threshold, and names an interface path.
- **Resolution and registration in the constructor.** The loop resolves
  each path through a path-to-handle map. A path that is already resolved
  reuses its handle. The loop then registers the button or analog callback
  that the binding's type calls for. A failure marks only that binding
  invalid. After the loop come the two hand-interface lookups.
- **The two sample callbacks.** `buttonCallback` queues "pressed or not".
  `analogCallback` queues raw samples on Analog bindings. On Threshold
  bindings it queues only the edges of the level it reads, and latches
  that level in `oldState`.
- **`SendControllerEvents`.** For each valid binding in table order, it
  drains the digital queue (Pressed/Released) and then the analog queue
  (Analog). Every event carries controller 0.
- **`GetControllerTrackingStatus` and the pose guard.**
  `GetControllerTrackingStatus` answers the same for every controller and
  hand. `GetControllerOrientationAndPosition` reports a pose only under
  its guard.
- **The destructor.** It frees each resolved hand interface, then the
  handle of each map entry, one free per entry.

Layout:

| file | module | what it holds |
|---|---|---|
| `wrappers.dfy` | `Wrappers` | `Option` |
| `input_types.dfy` | `InputTypes` | button/threshold types, keys, paths, handles, the client-call log entries, the client oracle, message-handler events, constants |
| `threshold.dfy` | `Threshold` | the threshold predicate, levels, the latch, and the edges a Threshold binding pushes |
| `button.dfy` | `Buttons` | class `Button` (OSVRButton, updated in place), `ButtonCallback`, `AnalogCallback` |
| `dispatch.dfy` | `Dispatch` | `DispatchEvents`, the specification of what a dispatch emits |
| `binding_table.dfy` | `BindingTable` | the 58-entry table, in declaration order |
| `setup.dfy` | `Setup` | `SetupAll`, the constructor loop as a fold over the table, and its properties |
| `device.dfy` | `Devices` | class `InputDevice` (constructor, report delivery, `SendControllerEvents`, tracking, destructor) |

Modelling choices:

- **The client library is an oracle.** `InputTypes.Client` holds two
  functions, one for `osvrClientGetInterface` and one for registration.
  Each answer may depend on the arguments and on the log of every earlier
  call. The device records each call and its answer in `calls`, so the
  specification can talk about exactly what was asked and what came back.
- **The message handler is an output log.** It is the field `events`.
- **The client thread is modelled as method calls.** Report delivery on
  that thread is `DeliverButtonReport` / `DeliverAnalogReport`. These,
  `SendControllerEvents` and the other operations may be called in any
  order.
- **Ghost histories.** Each `Button` has ghost histories: all samples
  received, everything pushed, everything drained. The invariant
  `Button.Consistent` ties the queues and the latch to those histories.
- **The device invariant `InputDevice.Valid`.**
  - Bindings are distinct objects, and each one is consistent.
  - An invalid binding never received anything.
  - Every registration the client accepted belongs to a valid binding,
    with the callback its type calls for.

  This is why a report only ever reaches a valid binding of the right
  type.

## Model

| member | source | states |
|---|---|---|
| InputTypes.CallbackFor | OSVRUnreal/Plugins/OSVR/Source/OSVRInput/Private/OSVRInputDevice.cpp:197-209 | the button callback is chosen exactly for Digital bindings, the analog callback for Analog and Threshold |
| Threshold.Crossed | OSVRUnreal/Plugins/OSVR/Source/OSVRInput/Private/OSVRInputDevice.cpp:81-82 | a sample reads as pressed iff it is strictly above (GreaterThan) or strictly below (LessThan) the threshold; a sample equal to the threshold never reads as pressed |
| Threshold.Levels | OSVRUnreal/Plugins/OSVR/Source/OSVRInput/Private/OSVRInputDevice.cpp:81-82 | one level per sample, the k-th level being the threshold predicate of the k-th sample |
| Threshold.LatchAfter | OSVRUnreal/Plugins/OSVR/Source/OSVRInput/Private/OSVRInputDevice.cpp:84-87 | the latch (`oldState`, initialised false) is false before any sample and afterwards holds the level of the most recent sample, whatever came before it |
| Threshold.Edges | OSVRUnreal/Plugins/OSVR/Source/OSVRInput/Private/OSVRInputDevice.cpp:84-87 | the digital states a Threshold binding pushes over a stream of levels, each level pushed only when it differs from the latch; the latch is always the last state pushed, and false while nothing has been pushed |
| Threshold.EdgesSnoc | OSVRUnreal/Plugins/OSVR/Source/OSVRInput/Private/OSVRInputDevice.cpp:84-87 | one more level pushes that level exactly when it differs from the latch, and the latch becomes that level |
| Threshold.EdgesAlternate | OSVRUnreal/Plugins/OSVR/Source/OSVRInput/Private/OSVRInputDevice.cpp:84-87 | from a false latch (`oldState` starts false), the pushed states alternate starting with true, and the latch is true iff an odd number of states was pushed |
| Threshold.EdgesBound | OSVRUnreal/Plugins/OSVR/Source/OSVRInput/Private/OSVRInputDevice.cpp:84-87 | a Threshold binding never pushes more states than it received samples |
| Threshold.SameSidePushesNothing | OSVRUnreal/Plugins/OSVR/Source/OSVRInput/Private/OSVRInputDevice.cpp:84-87 | a sample on the same side as the latched level pushes nothing |
| Threshold.ThresholdExample | OSVRUnreal/Plugins/OSVR/Source/OSVRInput/Private/OSVRInputDevice.cpp:80-88 | samples below, above, above again, below a GreaterThan threshold push exactly pressed then released |
| Buttons.Button.constructor | OSVRUnreal/Plugins/OSVR/Source/OSVRInput/Private/OSVRInputDevice.cpp:49-60 | the three-argument binding takes threshold 0.75 and GreaterThan, starts valid with a false latch and empty queues |
| Buttons.Button.WithThreshold | OSVRUnreal/Plugins/OSVR/Source/OSVRInput/Private/OSVRInputDevice.cpp:51-55 | the five-argument binding keeps the given threshold settings, starts valid with a false latch and empty queues |
| Buttons.ButtonCallback | OSVRUnreal/Plugins/OSVR/Source/OSVRInput/Private/OSVRInputDevice.cpp:73-76 | appends exactly `state == PRESSED` to the digital queue; the analog queue, the latch and the validity are unchanged; a consistent Digital binding stays consistent |
| Buttons.AnalogCallback | OSVRUnreal/Plugins/OSVR/Source/OSVRInput/Private/OSVRInputDevice.cpp:78-92 | Threshold: pushes the new level iff it differs from the latch, then latches it, analog queue untouched; otherwise appends the raw sample to the analog queue and leaves the digital queue and latch alone; a consistent binding stays consistent (its queue holds the edges of its levels) |
| Buttons.ThresholdQueueAlternates | OSVRUnreal/Plugins/OSVR/Source/OSVRInput/Private/OSVRInputDevice.cpp:84-87 | in a consistent Threshold binding the queued states alternate and the last queued state equals the latch |
| Dispatch.DigitalEvent | OSVRUnreal/Plugins/OSVR/Source/OSVRInput/Private/OSVRInputDevice.cpp:301-310 | a digital state becomes a press if true and a release if false, with the binding's key, controller 0 and never a repeat |
| Dispatch.DigitalEvents | OSVRUnreal/Plugins/OSVR/Source/OSVRInput/Private/OSVRInputDevice.cpp:301-310 | draining a digital queue yields one event per queued state |
| Dispatch.DigitalEventsPointwise | OSVRUnreal/Plugins/OSVR/Source/OSVRInput/Private/OSVRInputDevice.cpp:301-310 | the k-th event is Pressed for a true state and Released for a false one, with the binding's key, controller 0 and no repeat |
| Dispatch.AnalogEvents | OSVRUnreal/Plugins/OSVR/Source/OSVRInput/Private/OSVRInputDevice.cpp:311-315 | draining an analog queue yields one event per queued value |
| Dispatch.AnalogEventsPointwise | OSVRUnreal/Plugins/OSVR/Source/OSVRInput/Private/OSVRInputDevice.cpp:311-315 | the k-th event is Analog with the k-th value, the binding's key and controller 0 |
| Dispatch.BindingEvents | OSVRUnreal/Plugins/OSVR/Source/OSVRInput/Private/OSVRInputDevice.cpp:300-316 | an invalid binding emits nothing; a valid one emits exactly one event per digital state and one per analog sample it holds |
| Dispatch.BindingEventsPointwise | OSVRUnreal/Plugins/OSVR/Source/OSVRInput/Private/OSVRInputDevice.cpp:300-316 | a valid binding's digital states come first, each as a press or release with its key, then its analog samples unchanged and in queue order |
| Dispatch.DispatchEvents | OSVRUnreal/Plugins/OSVR/Source/OSVRInput/Private/OSVRInputDevice.cpp:298-317 | one event per state or sample held by a valid binding: nothing dropped, nothing duplicated |
| Dispatch.DispatchAppend | OSVRUnreal/Plugins/OSVR/Source/OSVRInput/Private/OSVRInputDevice.cpp:298-317 | dispatching two runs of bindings emits the events of the first run, then those of the second |
| Dispatch.DispatchOrder | OSVRUnreal/Plugins/OSVR/Source/OSVRInput/Private/OSVRInputDevice.cpp:298-317 | binding j's events form one block after every earlier binding's and before every later one's |
| Dispatch.BindingEventsTagged | OSVRUnreal/Plugins/OSVR/Source/OSVRInput/Private/OSVRInputDevice.cpp:300-316 | a binding emits only if valid, and every event carries its key and controller 0 |
| Dispatch.DispatchEventsTagged | OSVRUnreal/Plugins/OSVR/Source/OSVRInput/Private/OSVRInputDevice.cpp:296-317 | every dispatched event carries controller 0 and the key of some valid binding |
| BindingTable.Table | OSVRUnreal/Plugins/OSVR/Source/OSVRInput/Private/OSVRInputDevice.cpp:110-179 | the table has 58 entries; every entry with its own threshold is a Threshold stick direction at +0.25 GreaterThan or -0.25 LessThan; the Threshold entries with default settings are the two triggers |
| BindingTable.LeftHandBindings | OSVRUnreal/Plugins/OSVR/Source/OSVRInput/Private/OSVRInputDevice.cpp:111-126 | 15 left-hand entries, every one reading an interface under `/controller/left/`, with well-formed thresholds |
| BindingTable.RightHandBindings | OSVRUnreal/Plugins/OSVR/Source/OSVRInput/Private/OSVRInputDevice.cpp:129-144 | 15 right-hand entries, every one reading an interface under `/controller/right/`, with well-formed thresholds |
| BindingTable.GamepadButtons | OSVRUnreal/Plugins/OSVR/Source/OSVRInput/Private/OSVRInputDevice.cpp:146-159 | 12 gamepad-style button aliases, all Digital |
| BindingTable.GamepadAxes | OSVRUnreal/Plugins/OSVR/Source/OSVRInput/Private/OSVRInputDevice.cpp:161-179 | 16 gamepad-style stick and trigger aliases, none Digital, with well-formed thresholds |
| Setup.SetupOne | OSVRUnreal/Plugins/OSVR/Source/OSVRInput/Private/OSVRInputDevice.cpp:183-209 | one iteration adds one resolution and one flag, keeps the earlier resolutions, flags, calls and map entries |
| Setup.SetupAll | OSVRUnreal/Plugins/OSVR/Source/OSVRInput/Private/OSVRInputDevice.cpp:182-211 | the loop produces one resolution and one validity flag per binding |
| Setup.SetupKeysResolved | OSVRUnreal/Plugins/OSVR/Source/OSVRInput/Private/OSVRInputDevice.cpp:186-194 | every path in the map was resolved by some binding naming it, and maps to the handle that binding got |
| Setup.SetupHandlesInMap | OSVRUnreal/Plugins/OSVR/Source/OSVRInput/Private/OSVRInputDevice.cpp:186-194 | every binding that did not fail has its path in the map, with its handle (so the keys are exactly the successfully resolved paths) |
| Setup.SetupCallsInMap | OSVRUnreal/Plugins/OSVR/Source/OSVRInput/Private/OSVRInputDevice.cpp:188-191 | every successful lookup put its handle in the map under its path |
| Setup.SetupReuse | OSVRUnreal/Plugins/OSVR/Source/OSVRInput/Private/OSVRInputDevice.cpp:184-194 | a binding reuses a handle iff an earlier binding with the same path resolved it; a path that failed is asked for again |
| Setup.SetupReuseLast | OSVRUnreal/Plugins/OSVR/Source/OSVRInput/Private/OSVRInputDevice.cpp:184-194 | the reuse property for the last binding processed |
| Setup.SetupReuseSameHandle | OSVRUnreal/Plugins/OSVR/Source/OSVRInput/Private/OSVRInputDevice.cpp:192-194 | every later binding naming a resolved path reuses exactly that handle |
| Setup.SetupFailedInvalid | OSVRUnreal/Plugins/OSVR/Source/OSVRInput/Private/OSVRInputDevice.cpp:188-189 | a binding whose path could not be resolved is invalid |
| Setup.SetupRegistrationsMatch | OSVRUnreal/Plugins/OSVR/Source/OSVRInput/Private/OSVRInputDevice.cpp:197-209 | every registration is for a binding that resolved, with its handle and the callback its type calls for, and succeeded iff the binding ended valid |
| Setup.SetupRegistrationOrder | OSVRUnreal/Plugins/OSVR/Source/OSVRInput/Private/OSVRInputDevice.cpp:182-209 | registrations come in table order, so at most one per binding |
| Setup.SetupRegistered | OSVRUnreal/Plugins/OSVR/Source/OSVRInput/Private/OSVRInputDevice.cpp:197-209 | every binding that resolved registered the callback its type calls for, with its handle and its own outcome |
| Setup.SetupAsked | OSVRUnreal/Plugins/OSVR/Source/OSVRInput/Private/OSVRInputDevice.cpp:184-191 | every binding that did not reuse a handle asked the client for its path, and recorded the client's answer |
| Setup.SetupResolvesOnce | OSVRUnreal/Plugins/OSVR/Source/OSVRInput/Private/OSVRInputDevice.cpp:184-194 | after a successful lookup of a path the loop never asks for that path again |
| Devices.HandFrees | OSVRUnreal/Plugins/OSVR/Source/OSVRInput/Private/OSVRInputDevice.cpp:230-236 | one free per resolved hand interface, none for an unresolved one, the left hand's first |
| Devices.FreeCalls | OSVRUnreal/Plugins/OSVR/Source/OSVRInput/Private/OSVRInputDevice.cpp:237-242 | one free per path of the order, of that path's handle |
| Devices.DistinctKeysLength | OSVRUnreal/Plugins/OSVR/Source/OSVRInput/Private/OSVRInputDevice.cpp:237-242 | a duplicate-free run of exactly the map's keys has the map's size, so there is exactly one free per map entry |
| Devices.NewButton | OSVRUnreal/Plugins/OSVR/Source/OSVRInput/Private/OSVRInputDevice.cpp:110-179 | an entry is built with the constructor it was written with: defaults for three arguments, its own threshold settings for five |
| Devices.NewButtons | OSVRUnreal/Plugins/OSVR/Source/OSVRInput/Private/OSVRInputDevice.cpp:110-179 | one fresh, distinct, valid, untouched binding per table entry, in table order |
| Devices.InputDevice.constructor | OSVRUnreal/Plugins/OSVR/Source/OSVRInput/Private/OSVRInputDevice.cpp:99-225 | without a ready context nothing is built, resolved or registered; otherwise the table is built, bindings, map and flags are those of SetupAll, then the left and the right hand are looked up; the invariant holds and no event was sent |
| Devices.InputDevice.Build | OSVRUnreal/Plugins/OSVR/Source/OSVRInput/Private/OSVRInputDevice.cpp:110-217 | builds the bindings, runs the loop, looks up both hands; the result is ConstructedFrom the table and satisfies the invariant |
| Devices.InputDevice.BuildBindings | OSVRUnreal/Plugins/OSVR/Source/OSVRInput/Private/OSVRInputDevice.cpp:110-211 | the bindings are built from the table and the map, resolutions, calls and flags are exactly those SetupAll describes |
| Devices.InputDevice.ResolveHands | OSVRUnreal/Plugins/OSVR/Source/OSVRInput/Private/OSVRInputDevice.cpp:213-217 | the left hand is looked up, then the right; each valid flag says whether its lookup succeeded; the bindings are untouched |
| Devices.InputDevice.ConstructedValid | OSVRUnreal/Plugins/OSVR/Source/OSVRInput/Private/OSVRInputDevice.cpp:182-217 | after the loop and the hand lookups every accepted registration belongs to a valid binding with the callback its type calls for |
| Devices.InputDevice.ResolveBinding | OSVRUnreal/Plugins/OSVR/Source/OSVRInput/Private/OSVRInputDevice.cpp:183-209 | one iteration of the loop, in place: its map, resolutions, calls and the binding's flag are one SetupOne step |
| Devices.InputDevice.ResolvedAll | OSVRUnreal/Plugins/OSVR/Source/OSVRInput/Private/OSVRInputDevice.cpp:182-211 | once the loop has covered every binding, the state is the one SetupAll describes |
| Devices.InputDevice.ResolveNext | OSVRUnreal/Plugins/OSVR/Source/OSVRInput/Private/OSVRInputDevice.cpp:182-210 | one turn of the loop takes the state from the first i bindings to the first i + 1, leaving other bindings unchanged |
| Devices.InputDevice.ResolveBindings | OSVRUnreal/Plugins/OSVR/Source/OSVRInput/Private/OSVRInputDevice.cpp:182-211 | the loop over all bindings leaves the state SetupAll describes |
| Devices.InputDevice.RegisteredBinding | OSVRUnreal/Plugins/OSVR/Source/OSVRInput/Private/OSVRInputDevice.cpp:197-209 | a binding with an accepted registration is valid and of the type that callback is for |
| Devices.InputDevice.DeliverButtonReport | OSVRUnreal/Plugins/OSVR/Source/OSVRInput/Private/OSVRInputDevice.cpp:73-76 | a button report reaches its registered binding, appends `state == PRESSED` to its digital queue, leaves its analog queue, latch and validity as they were, changes no other binding, and keeps the invariant |
| Devices.InputDevice.DeliverAnalogReport | OSVRUnreal/Plugins/OSVR/Source/OSVRInput/Private/OSVRInputDevice.cpp:78-92 | an analog report reaches its registered binding: Analog appends the sample and keeps its latch; Threshold pushes the sample's level iff it differs from the latch and latches that level; validity is unchanged, no other binding changes, and the invariant is kept |
| Devices.InputDevice.ReportKeepsValid | OSVRUnreal/Plugins/OSVR/Source/OSVRInput/Private/OSVRInputDevice.cpp:73-92 | a report that changes one valid binding consistently keeps the device invariant |
| Devices.InputDevice.DrainDigitalQueue | OSVRUnreal/Plugins/OSVR/Source/OSVRInput/Private/OSVRInputDevice.cpp:301-310 | the digital queue is popped front to back into Pressed/Released events and ends empty; nothing else about the binding changes |
| Devices.InputDevice.DrainAnalogQueue | OSVRUnreal/Plugins/OSVR/Source/OSVRInput/Private/OSVRInputDevice.cpp:311-315 | the analog queue is popped front to back into Analog events and ends empty; nothing else about the binding changes |
| Devices.InputDevice.DrainBinding | OSVRUnreal/Plugins/OSVR/Source/OSVRInput/Private/OSVRInputDevice.cpp:299-316 | a valid binding emits its digital then its analog events and ends with empty queues; an invalid one emits nothing and is unchanged |
| Devices.InputDevice.DispatchNext | OSVRUnreal/Plugins/OSVR/Source/OSVRInput/Private/OSVRInputDevice.cpp:298-317 | one turn of the dispatch loop drains binding i and leaves every other binding as it was |
| Devices.InputDevice.DispatchAll | OSVRUnreal/Plugins/OSVR/Source/OSVRInput/Private/OSVRInputDevice.cpp:298-317 | the loop emits DispatchEvents of what the bindings held, in table order, and drains every valid binding |
| Devices.InputDevice.SendControllerEvents | OSVRUnreal/Plugins/OSVR/Source/OSVRInput/Private/OSVRInputDevice.cpp:295-318 | the events appended are exactly DispatchEvents of what the bindings held; valid bindings end with both queues empty, invalid ones unchanged, latches unchanged; the invariant is kept |
| Devices.InputDevice.DispatchKeepsValid | OSVRUnreal/Plugins/OSVR/Source/OSVRInput/Private/OSVRInputDevice.cpp:295-318 | draining changes no flag, registration or hand interface, so the invariant is kept |
| Devices.InputDevice.HandInterface | OSVRUnreal/Plugins/OSVR/Source/OSVRInput/Private/OSVRInputDevice.cpp:264 | the pose query reads the left interface for Left and the right one for Right; while the flags agree with the handles it is present exactly when that hand's flag is set |
| Devices.InputDevice.GetControllerTrackingStatus | OSVRUnreal/Plugins/OSVR/Source/OSVRInput/Private/OSVRInputDevice.cpp:279-285 | Tracked iff the context is valid and either hand interface resolved |
| Devices.InputDevice.TrackingStatusUniform | OSVRUnreal/Plugins/OSVR/Source/OSVRInput/Private/OSVRInputDevice.cpp:279-285 | the status is the same for every controller index and hand, and Tracked implies a hand interface is held |
| Devices.InputDevice.GetControllerOrientationAndPosition | OSVRUnreal/Plugins/OSVR/Source/OSVRInput/Private/OSVRInputDevice.cpp:259-276 | a pose is reported only for controller index 0 (a constant of its own, unrelated to the controller id of dispatched events), only when the status check succeeds and only when the pose query on that hand's interface succeeds |
| Devices.InputDevice.UnresolvedHandNotPosed | OSVRUnreal/Plugins/OSVR/Source/OSVRInput/Private/OSVRInputDevice.cpp:262-267 | a hand whose interface did not resolve never reports a pose, given a pose query that fails on no interface |
| Devices.InputDevice.Release | OSVRUnreal/Plugins/OSVR/Source/OSVRInput/Private/OSVRInputDevice.cpp:227-244 | without a context nothing is freed; with one, the resolved left then right hand interfaces are freed, then the handle of every map entry, one free per entry |
| Devices.InputDevice.FreeMapInterfaces | OSVRUnreal/Plugins/OSVR/Source/OSVRInput/Private/OSVRInputDevice.cpp:237-242 | every path of the map is visited exactly once and its handle freed, in the order returned |

## Left out

- Sample precision: analog samples are `real`. The report's `double` is narrowed to the queue's `float` (and the thresholds are `float`); this rounding is not modelled. Nor are the non-finite values (NaN, ±infinity), which `real` cannot represent: a NaN sample compares false both ways, so it reads as not pressed on GreaterThan and LessThan bindings alike.
- Concurrency: the client's callback thread and the game thread's dispatch are modelled as sequential method calls in any order. `std::queue` thread-safety is not modelled.
- Client library: `osvrClientGetInterface`, `osvrRegisterButtonCallback` / `osvrRegisterAnalogCallback`, `osvrClientCheckStatus`, `osvrGetPoseState` and `osvrClientFreeInterface` are oracle parameters or recorded calls. The distinction between `!= OSVR_RETURN_SUCCESS` and `== OSVR_RETURN_FAILURE` collapses to a boolean answer.
- Callback userdata: the binding's address passed as userdata becomes the binding's index.
- Context: obtaining the context from the plugin module is left out. Its presence and the constructor-time status check are the constructor's parameters.
- Devices.InputDevice.GetControllerOrientationAndPosition: only the boolean guard is modelled. The status check and the pose query are parameters. The pose conversion, the world-to-meters scaling and the output parameters are float math through helpers that are not part of this model. The contract states only that a pose implies the guard held.
- Devices.InputDevice.Release: the order of the map's free calls is whatever order the method returns, not the container's iteration order. Two entries may hold the same handle if the client returned it for two paths; that handle is then freed twice, as in the source. The `if (iface.second)` null check is always true here, because a handle in the map is never null.
- Devices.InputDevice.Release: when the context exists but is not ready, the hand lookups never run. The model takes both hand handles as absent then, because their initial value is declared outside the source modelled. So no hand interface is freed in that case, and `UnresolvedHandNotPosed` treats such a hand as unresolved.
- Hands: a failed hand lookup stores no handle (`None`). The C++ out-parameter's content after a failure is not modelled. `EControllerHand` values other than Left are treated as the right hand.
- Engine glue: `RegisterModularFeature`, `GEngine->MotionControllerDevices`, `Tick`'s `osvrClientUpdate` pump, `CheckOSVR` logging, and the empty `RegisterNewKeys`, `EventReport`, `Exec`, `SetChannelValue(s)` and `SetMessageHandler` are not modelled. None of them touches the bindings.
- OSVRHMD.h is not part of this model: it holds declarations of the head-mounted-display side, not of the input device.
