# tamepad input pipeline, modelled in Dafny

tamepad turns a game controller into a virtual keyboard. Three threads are joined by
channels. The SDL reader normalises controller events into `InputEvent`s. The resolution
step turns those into key `Action`s. The uinput emitter writes each action to
`/dev/uinput` as a batch of raw input events.

This project models what the code of that pipeline does:

- `sdl.dfy` (src/sdl.rs):
  - the `id_enum!` conversions of SDL buttons and axes;
  - the controller registry that gates `Added` and `Removed` notifications;
  - the startup enumeration and the event-pump loop.
- `state.dfy` (src/state.rs): the resolution step. A press or release of button A on any
  device becomes a press or release of `Key::A`, and every other event is dropped. It runs
  as a loop over the input channel that stops on a failed send.
- `linux.dfy` (src/linux.rs): the emitter. It holds the `KEY_TO_UINPUT` table, the device
  setup with one key bit per key variant, and the loop that writes one
  `[key event, SYN_REPORT]` batch per key action, skips any other action, and logs failed
  writes.
- `actions.dfy` (src/actions.rs): the earlier emitter, which src/main.rs no longer declares as a
  module. It writes keys untranslated and registers only `Key::A`.
- `pipeline.dfy` (src/main.rs): the three tasks composed. One lemma shows that a press then a
  release of A produces `[A PRESSED, SYN_REPORT]` then `[A RELEASED, SYN_REPORT]`.
- `types.dfy`, `input_linux.dfy`, `wrappers.dfy`: the shared vocabulary (src/types.rs), the
  `input_linux` types the emitters use, and Option/Result.

How the outside world is represented:

- **Channels.** A task's input channel is the sequence of values it receives, in order. A
  flag `closed` says whether the channel is disconnected after them. If it is not, the task
  ends `Blocked`, still waiting. The receiving end of an output channel is given as
  `accepts`: the number of deliveries it takes before it is dropped (`None`: never dropped).
- **The SDL event pump.** It is a finite sequence of `SdlEvent`s.
- **SDL queries.** `device_guid`, `name_for_index`, `is_game_controller` and `open` answer
  through a `Probe` record. Startup answers come from one record per device index. Device-added
  events get theirs from a function of the pump position. The setup calls `init`,
  `joystick`, `game_controller`, `num_joysticks` and `event_pump` answer through `SdlSetup`.
- **uinput system calls.** `open`, `set_evbit`, `set_keybit`, `create`, `write` and
  `dev_destroy` answer through the `Uinput` record. Calls made more than once are answered
  by call number.
- **The serde round trip behind `KEY_TO_UINPUT`.** It is a parameter
  `decode: string -> Option<UinputKey>` applied to the variant name. A failed round trip
  gives `Unknown`.

Where the code and the wider design disagree, this model follows the code:

- **The missing engine.** src/gui.rs imports `CachedConfig`, `State`, `ButtonHandler` and
  `StateMapping` and calls `find_*_handler` lookups (src/gui.rs:19-20, 245, 276, 301). A
  chord, overlay and stick engine would provide these, but no such engine is in the source.
  src/state.rs holds only the A-button filter, so the model has no chords, overlays or
  stick sectors.
- **Two `Key` types.** The `Action` of src/types.rs:46-49 carries `input_linux::Key`, and
  src/actions.rs consumes it. src/state.rs and src/linux.rs instead use a crate-level `Key`
  enum whose definition is not in the source. `Action<K>` is therefore generic over the key
  type. The `Action` that src/linux.rs matches on is the crate-level one too, and it is not
  defined in the source either. Its `_ => {}` arm (src/linux.rs:69) allows for other
  variants besides `KeyDown` and `KeyUp`, but does not show that any exist: Rust accepts such
  an arm after both variants are matched, with only an `unreachable_patterns` warning.
  Because the type is not known, the emitter receives a `Linux.Received`, which is a key
  action or `NonKey`. If `Action` has only the two variants, no `NonKey` ever occurs, and
  the emitter's input is `Linux.AsReceived` of the actions, of which `Linux.KeyActionsOfKeys`
  keeps every one. The `Action` of src/types.rs:46-49 has only the two variants, and
  src/actions.rs has no such arm. The crate's `Key` is represented by its variant name. Its
  variant list, in `Key::iter()` order, is a parameter `variants`. `key as usize` is taken
  to be the position of the key in that list (`Linux.Discriminant`). This assumes that the
  crate's `Key` has no explicit discriminants, as the table built from `Key::iter()` and
  indexed by `key as usize` does (src/linux.rs:15-18, 31, 58, 65).
- **Device ids.** SDL reports a device index in the added event and an instance id in the
  removed event. src/sdl.rs uses both as the same registry key (src/sdl.rs:33, 44), and the
  model does the same.

## Model

| member | source | states |
|---|---|---|
| `Sdl.ButtonFrom` | src/sdl.rs:104-130 | every SDL button converts to the crate button of the same name (the same-named reference `SdlButtonOf` is its left inverse) |
| `Sdl.ButtonFromBijective` | src/types.rs:2-24 | the button conversion is injective and reaches all 21 crate buttons |
| `Sdl.AxisFrom` | src/sdl.rs:131-135 | every SDL axis converts to the crate axis of the same name |
| `Sdl.AxisFromBijective` | src/types.rs:27-34 | the axis conversion is injective and reaches all 6 crate axes |
| `Sdl.Addition` | src/sdl.rs:13-41 | `Added(id, name)` is returned exactly when the GUID lookup, the game-controller check and `open` all succeed; the name falls back to the GUID string |
| `Sdl.Register` | src/sdl.rs:29-34 | an id is registered afterwards iff it was before or the device was opened; an opened device's entry is its controller; every other entry keeps its presence and its value |
| `Sdl.Registry.MaybeAddController` | src/sdl.rs:13-41 | returns `Addition(id, probe)` and updates the registry in place as `Register` says; the id is registered whenever `Added` is returned |
| `Sdl.Registry.MaybeRemoveController` | src/sdl.rs:43-45 | reports whether the id was registered and removes it in place |
| `Sdl.Registry.constructor` | src/sdl.rs:11 | the registry starts empty |
| `Sdl.EnumeratedRegisters` | src/sdl.rs:47-55 | after startup an id is registered iff it is below the number of joysticks and the device at that index could be examined and opened |
| `Sdl.Enumerate` | src/sdl.rs:52-54 | the startup loop over `0..available` leaves the registry equal to `Enumerated(probes)` |
| `Sdl.StartupSendsNothing` | src/sdl.rs:47-55 | enumeration at startup sends no event, whatever the devices found |
| `Sdl.Normalised` | src/sdl.rs:63-73 | a forwarded event keeps its device id and raw axis value and carries the converted axis or button |
| `Sdl.PumpForwards` | src/sdl.rs:57-73 | axis motion and button edges are each sent once, normalised, in pump order, and leave the registry unchanged |
| `Sdl.PumpIgnoresOther` | src/sdl.rs:85 | an event the reader does not match sends nothing, leaves the registry as it was, and the loop goes on with the next event |
| `Sdl.PumpBlocked` | src/sdl.rs:57-87 | a stretch of events without `Quit` whose sends the receiver all takes is handled completely, and the loop is then still waiting |
| `Sdl.RunWithAppend` | src/sdl.rs:57-87 | for any per-event step, the loop over `s + t`, once `s` is handled completely, is what `s` sends followed by the loop over `t` from where `s` left off |
| `Sdl.PumpRunIsRunWith` | src/sdl.rs:62-86 | the pump loop is that loop with the reader's match as the step |
| `Sdl.PumpRunAppend` | src/sdl.rs:57-87 | over any mix of forwarded, hotplug and ignored events, once `s` is handled completely, the loop over `s + t` sends what `s` sends and then what the loop over `t` sends, starting from the registry `s` leaves and the deliveries it did not use |
| `Sdl.HotplugGating` | src/sdl.rs:74-83 | a device-added event sends `Added` only when the probe succeeds and then the id is registered; `Removed(id)` is sent only if the id was registered, the id is absent afterwards, and a second removal sends nothing |
| `Sdl.PumpStopsAtQuit` | src/sdl.rs:84-85 | events after the first `Quit` are never looked at, and the loop ends with `Ok(())` unless an earlier send panicked |
| `Sdl.PumpRun` | src/sdl.rs:57-87 | the pump loop sends at most one event per SDL event |
| `Sdl.HandleEvent` | src/sdl.rs:62-86 | the match of the pump loop updates the registry and yields the event to send, as `Handle` defines |
| `Sdl.Pump` | src/sdl.rs:57-87 | the pump loop with its in-place registry computes exactly `PumpRun` |
| `Sdl.SdlTask` | src/sdl.rs:6-90 | `sdl_task` computes exactly `SdlRun`: setup errors are returned (the `num_joysticks` error prefixed with "can't enumerate joysticks: "), then enumeration, then the pump loop |
| `State.Resolve` | src/state.rs:14-26 | an event resolves to `KeyDown(Key::A)` iff it is a press of button A, to `KeyUp(Key::A)` iff it is a release of button A, and to nothing otherwise |
| `State.ResolveIgnoresDevice` | src/state.rs:15-20 | the device id never changes the resolution |
| `State.Resolved` | src/state.rs:9-29 | a stream of events yields at most one action per event |
| `State.ResolvedAppend` | src/state.rs:9-29 | resolution distributes over concatenation, so actions keep the order of the events that caused them |
| `State.ResolvedOnlyKeyA` | src/state.rs:15-23 | every resolved action is a press or release of `Key::A`, caused by an A edge at or after its own position |
| `State.StateRun` | src/state.rs:9-30 | the loop consumes at most its input and sends at most one action per consumed event |
| `State.StateRunDelivers` | src/state.rs:9-30 | when every send succeeds, all events are consumed, all resolved actions are delivered in order, and the task returns the receive error if the channel is disconnected and stays blocked otherwise |
| `State.StateRunStops` | src/state.rs:17-30 | when a send fails, the task returns `Ok(())`, exactly the earlier actions were delivered, and the last event it took is the one whose action could not be sent, so no later event was consumed |
| `State.StateTask` | src/state.rs:5-31 | the `state_task` loop computes exactly `StateRun` |
| `InputLinux.Errors` | src/linux.rs:73-78 | the logged write errors are empty iff every write succeeded, and there are no more of them than writes |
| `InputLinux.ErrorsPrefix` | src/linux.rs:73-78 | the errors logged by fewer write calls are a prefix of those logged by more: the log is only appended to |
| `InputLinux.ErrorsAt` | src/linux.rs:73-78 | a failing write's error is logged, and it follows exactly the errors of the writes before it |
| `InputLinux.ErrorsFrom` | src/linux.rs:73-78 | every logged error is the error of a failing write; the `k`-th one comes from the write with exactly `k` failing writes before it |
| `Linux.Discriminant` | src/linux.rs:58 | `key as usize` is an in-range position holding that key, with no earlier occurrence |
| `Linux.DiscriminantOfVariant` | src/linux.rs:30-31 | for distinct variants, the discriminant of the i-th variant of `Key::iter()` is i |
| `Linux.KeyTable` | src/linux.rs:15-18 | `KEY_TO_UINPUT` has one entry per variant in iteration order: the round trip of its name, or `Unknown` |
| `Linux.Translate` | src/linux.rs:58-65 | indexing the table by `key as usize` yields the key's own round trip, `Unknown` when that fails |
| `Linux.Batch` | src/linux.rs:53-72 | an action's batch has two events, the translated key pressed (`KeyDown`) or released (`KeyUp`) then the sync report, last and only once, all at time (0,0) |
| `Linux.Batches` | src/linux.rs:48-87 | one batch per action, in order |
| `Linux.BuildBatch` | src/linux.rs:53-72 | a key action builds exactly its `Batch`: the key event, then the sync report; any other action matches `_ => {}`, so `events` stays empty and the guard leaves it empty |
| `Linux.RegisterKeys` | src/linux.rs:29-32 | the key bits registered are the table entries in `Key::iter()` order; the loop stops at the first failing call, every earlier call succeeded, and its error is returned |
| `Linux.KeyActionsAppend` | src/linux.rs:50-70 | the key actions of two streams of received actions, one after the other, are the key actions of each, in order |
| `Linux.SkipsNonKey` | src/linux.rs:69-71 | a non-key action anywhere in the stream contributes nothing to what is written |
| `Linux.KeyActionsOfKeys` | src/linux.rs:54-68 | a stream made only of key actions is kept whole and in order |
| `Linux.EmitActions` | src/linux.rs:48-87 | the batches written are those of the key actions received, one each, in order; other actions write nothing; the `k`-th write call's error is logged in order and never retried |
| `Linux.LinuxActionsTask` | src/linux.rs:21-92 | after a successful setup, every key bit is registered, one batch per key action is written, errors are logged, and the task destroys the device when the channel disconnects; otherwise nothing is written and the error of the first failing call among `open`, `set_evbit`, the `set_keybit` calls and `create` is returned |
| `Actions.Batch` | src/actions.rs:40-58 | the batch carries the action's key untranslated, pressed iff `KeyDown`, followed by the sync report; two events, all at time (0,0) |
| `Actions.Batches` | src/actions.rs:35-73 | one batch per action, in order |
| `Actions.BuildBatch` | src/actions.rs:40-58 | both match arms push a key event, so the batch always has the sync report appended and equals `Batch` |
| `Actions.EmitActions` | src/actions.rs:35-73 | each action yields exactly one write of its two-event batch; failed writes are logged and the loop goes on |
| `Actions.ActionsTask` | src/actions.rs:9-79 | after a successful setup only `Key::A` is registered and every action is written; otherwise nothing is written and the error of the first failing call among `open`, `set_evbit`, `set_keybit` and `create` is returned; a disconnect ends the loop and then `dev_destroy` runs |
| `Pipeline.ResolvedKeysIn` | src/main.rs:18-23 | everything the resolution step sends is a key the emitter's table covers, given `Key::A` is a variant, and the emitter keeps every one of those actions |
| `Pipeline.WritesOnlyKeyA` | src/main.rs:18-23 | whatever the controller does, the emitter, receiving the resolved actions as key actions, keeps all of them and writes for each a batch `[A pressed or released, SYN_REPORT]` |
| `Pipeline.ReaderForwardsPress` | src/sdl.rs:68-73 | a press and a release of SDL button A on device `d` reach the resolution step as `ButtonDown(d, A)` then `ButtonUp(d, A)`, whatever controllers were found at startup |
| `Pipeline.StateResolvesPress` | src/state.rs:15-23 | that press and release on any device are delivered as `KeyDown(Key::A)` then `KeyUp(Key::A)` |
| `Pipeline.EmitterWritesPress` | src/linux.rs:53-72 | those two actions, received by the emitter as key actions, are both kept and written as `[A PRESSED, SYN_REPORT]` then `[A RELEASED, SYN_REPORT]`, with `Key::A` translated through `KEY_TO_UINPUT` |
| `Pipeline.PressThenReleaseOfA` | src/main.rs:18-23 | a press then a release of A on one device goes through reader, resolution and emitter (on its own input type) as `[A PRESSED, SYN_REPORT]`, `[A RELEASED, SYN_REPORT]` |

## Left out

- src/gui.rs: left out. It is windowing and drawing code, and the engine it depends on is not in the source.
- src/main.rs: spawning and joining threads and `write_schema` are left out; `pipeline.dfy` composes the three tasks sequentially instead.
- src/handle.rs: left out. It is a receive loop that only logs, and it is not in the module tree.
- Concurrency: the crossbeam channels and `select!` are replaced by the sequences and flags described above. The interleaving of threads is not modelled, and neither is the timing of a receiver being dropped.
- Logging: every `println!` and the `json5` echo of each action are left out. The errors logged after a failed write are modelled as a sequence.
- The uinput device itself is out of scope: the `O_NONBLOCK` open flags, the `InputId` and the device name, and the binary `input_event` encoding produced by `as_raw()`. Events stay structured values, with the key as an `input_linux::Key` name.
- SDL itself is out of scope: the controller handle and its `instance_id`, `name` and `mapping`, and how SDL enumerates devices. These are oracle answers.
- Sdl.Probe: an oracle answer is taken to describe the device at the moment of the call. The model does not relate the answers of two calls about the same device.
- The `lazy_static` initialisation of `KEY_TO_UINPUT` is not modelled as a one-time event: the table is a value computed from `variants` and `decode`.
- `unwrap` on the serde encoding of a key (src/linux.rs:16) is taken never to fail.
