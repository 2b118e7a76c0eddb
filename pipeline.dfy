/** The three tasks as `main` wires them (src/main.rs): the reader's events feed the
    resolution step, whose actions feed the uinput emitter. */
module Pipeline {
  import opened Wrappers
  import opened Types
  import opened InputLinux
  import Sdl
  import State
  import Linux

  /** The uinput key `Key::A` is written as. */
  function KeyAOut(decode: string -> Option<UinputKey>): UinputKey {
    decode(Types.KeyA.name).UnwrapOr(Unknown)
  }

  /** What the emitter receives from the resolution step: its key actions, every one of them
      kept in order. */
  function Emitted(actions: seq<Action<Key>>): seq<Action<Key>> {
    Linux.KeyActions(Linux.AsReceived(actions))
  }

  /** Every resolved action carries `Key::A`, so the emitter can translate the whole stream. */
  lemma ResolvedKeysIn(variants: seq<Key>, events: seq<InputEvent>)
    requires Types.KeyA in variants
    ensures Linux.KeysIn(variants, State.Resolved(events))
    ensures Emitted(State.Resolved(events)) == State.Resolved(events)
  {
    Linux.KeyActionsOfKeys(State.Resolved(events));
    forall k | 0 <= k < |State.Resolved(events)|
      ensures State.Resolved(events)[k].key in variants
    {
      State.ResolvedOnlyKeyA(events, k);
    }
  }

  /** Whatever the controller does, the emitter writes only batches of the form
      `[A pressed or released, SYN_REPORT]`, one per resolved action. */
  lemma WritesOnlyKeyA(variants: seq<Key>, decode: string -> Option<UinputKey>, events: seq<InputEvent>, k: nat)
    requires Types.KeyA in variants
    requires k < |State.Resolved(events)|
    ensures Linux.KeysIn(variants, Emitted(State.Resolved(events)))
    ensures |Linux.Batches(variants, decode, Emitted(State.Resolved(events)))| == |State.Resolved(events)|
    ensures var b := Linux.Batches(variants, decode, Emitted(State.Resolved(events)))[k];
      || b == [KeyEvent(ZERO, KeyAOut(decode), Pressed), SyncReport]
      || b == [KeyEvent(ZERO, KeyAOut(decode), Released), SyncReport]
  {
    ResolvedKeysIn(variants, events);
    State.ResolvedOnlyKeyA(events, k);
    var b := Linux.Batches(variants, decode, State.Resolved(events))[k];
    assert b[1] == SyncReport;
  }

  /** A press then a release of button A on device `d`, with every send and write
      succeeding: the reader forwards both edges, the resolution step turns them into a
      press and a release of `Key::A`, and the emitter writes
      `[A PRESSED, SYN_REPORT]` then `[A RELEASED, SYN_REPORT]`. */
  lemma PressThenReleaseOfA(setup: Sdl.SdlSetup, hotplug: nat -> Sdl.Probe, d: U32,
                            variants: seq<Key>, decode: string -> Option<UinputKey>)
    requires setup.init.None? && setup.joysticks.Ok? && |setup.joysticks.value| <= 0x1_0000_0000
    requires setup.eventPump.None?
    requires Types.KeyA in variants
    ensures var input := Sdl.SdlRun(setup, [Sdl.ControllerButtonDown(d, Sdl.SdlButton.A), Sdl.ControllerButtonUp(d, Sdl.SdlButton.A)], hotplug, None);
      && input.sent == [ButtonDown(d, Button.A), ButtonUp(d, Button.A)]
      && var actions := State.StateRun(input.sent, false, None);
      && actions.sent == [KeyDown(Types.KeyA), KeyUp(Types.KeyA)]
      && Emitted(actions.sent) == actions.sent
      && Linux.Batches(variants, decode, Emitted(actions.sent))
         == [[KeyEvent(ZERO, KeyAOut(decode), Pressed), SyncReport],
             [KeyEvent(ZERO, KeyAOut(decode), Released), SyncReport]]
  {
    ReaderForwardsPress(setup, hotplug, d);
    StateResolvesPress(d);
    EmitterWritesPress(variants, decode);
  }

  /** The reader's part: both edges are forwarded, normalised, in order. */
  lemma ReaderForwardsPress(setup: Sdl.SdlSetup, hotplug: nat -> Sdl.Probe, d: U32)
    requires setup.init.None? && setup.joysticks.Ok? && |setup.joysticks.value| <= 0x1_0000_0000
    requires setup.eventPump.None?
    ensures Sdl.SdlRun(setup, [Sdl.ControllerButtonDown(d, Sdl.SdlButton.A), Sdl.ControllerButtonUp(d, Sdl.SdlButton.A)], hotplug, None).sent
         == [ButtonDown(d, Button.A), ButtonUp(d, Button.A)]
  {
    var pump := [Sdl.ControllerButtonDown(d, Sdl.SdlButton.A), Sdl.ControllerButtonUp(d, Sdl.SdlButton.A)];
    Sdl.PumpForwards(Sdl.Enumerated(setup.joysticks.value), pump, hotplug, 0, None);
    assert seq(|pump|, i requires 0 <= i < |pump| => Sdl.Normalised(pump[i])) == [ButtonDown(d, Button.A), ButtonUp(d, Button.A)];
  }

  /** The resolution step's part: a press and a release of `Key::A`. */
  lemma StateResolvesPress(d: U32)
    ensures State.StateRun([ButtonDown(d, Button.A), ButtonUp(d, Button.A)], false, None).sent
         == [KeyDown(Types.KeyA), KeyUp(Types.KeyA)]
  {
    var events := [ButtonDown(d, Button.A), ButtonUp(d, Button.A)];
    State.StateRunDelivers(events, false, None);
    assert events[1..][1..] == [];
    assert State.Resolved(events) == [KeyDown(Types.KeyA), KeyUp(Types.KeyA)];
  }

  /** The emitter's part: the two batches. */
  lemma EmitterWritesPress(variants: seq<Key>, decode: string -> Option<UinputKey>)
    requires Types.KeyA in variants
    ensures Emitted([KeyDown(Types.KeyA), KeyUp(Types.KeyA)]) == [KeyDown(Types.KeyA), KeyUp(Types.KeyA)]
    ensures Linux.KeysIn(variants, Emitted([KeyDown(Types.KeyA), KeyUp(Types.KeyA)]))
    ensures Linux.Batches(variants, decode, Emitted([KeyDown(Types.KeyA), KeyUp(Types.KeyA)]))
         == [[KeyEvent(ZERO, KeyAOut(decode), Pressed), SyncReport],
             [KeyEvent(ZERO, KeyAOut(decode), Released), SyncReport]]
  {
    Linux.KeyActionsOfKeys([KeyDown(Types.KeyA), KeyUp(Types.KeyA)]);
    var bs := Linux.Batches(variants, decode, [KeyDown(Types.KeyA), KeyUp(Types.KeyA)]);
    assert bs[0][1] == SyncReport && bs[1][1] == SyncReport;
  }
}
