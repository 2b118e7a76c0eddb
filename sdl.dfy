/** The controller reader (src/sdl.rs): SDL's button and axis enums converted into the
    crate's, SDL events normalised into `InputEvent`s, and the registry of open
    controllers that gates the `Added` and `Removed` notifications. */
module Sdl {
  import opened Wrappers
  import opened Types

  /** `sdl2::controller::Button`, in the order the conversion lists it. */
  datatype SdlButton =
    | A | B | X | Y
    | Back | Guide | Start
    | LeftStick | RightStick
    | LeftShoulder | RightShoulder
    | DPadUp | DPadDown | DPadLeft | DPadRight
    | Misc1
    | Paddle1 | Paddle2 | Paddle3 | Paddle4
    | Touchpad

  /** `sdl2::controller::Axis`. */
  datatype SdlAxis = LeftX | LeftY | RightX | RightY | TriggerLeft | TriggerRight

  /** The same-named SDL button: the reference the conversion is checked against. */
  function SdlButtonOf(b: Button): SdlButton {
    match b
    case A => SdlButton.A
    case B => SdlButton.B
    case X => SdlButton.X
    case Y => SdlButton.Y
    case Back => SdlButton.Back
    case Guide => SdlButton.Guide
    case Start => SdlButton.Start
    case LeftStick => SdlButton.LeftStick
    case RightStick => SdlButton.RightStick
    case LeftShoulder => SdlButton.LeftShoulder
    case RightShoulder => SdlButton.RightShoulder
    case DPadUp => SdlButton.DPadUp
    case DPadDown => SdlButton.DPadDown
    case DPadLeft => SdlButton.DPadLeft
    case DPadRight => SdlButton.DPadRight
    case Misc1 => SdlButton.Misc1
    case Paddle1 => SdlButton.Paddle1
    case Paddle2 => SdlButton.Paddle2
    case Paddle3 => SdlButton.Paddle3
    case Paddle4 => SdlButton.Paddle4
    case Touchpad => SdlButton.Touchpad
  }

  /** `From<sdl2::controller::Button> for Button` (the `id_enum!` expansion): every SDL
      button maps to the crate button of the same name, so the conversion is injective. */
  function ButtonFrom(b: SdlButton): (r: Button)
    ensures SdlButtonOf(r) == b
  {
    match b
    case A => Button.A
    case B => Button.B
    case X => Button.X
    case Y => Button.Y
    case Back => Button.Back
    case Guide => Button.Guide
    case Start => Button.Start
    case LeftStick => Button.LeftStick
    case RightStick => Button.RightStick
    case LeftShoulder => Button.LeftShoulder
    case RightShoulder => Button.RightShoulder
    case DPadUp => Button.DPadUp
    case DPadDown => Button.DPadDown
    case DPadLeft => Button.DPadLeft
    case DPadRight => Button.DPadRight
    case Misc1 => Button.Misc1
    case Paddle1 => Button.Paddle1
    case Paddle2 => Button.Paddle2
    case Paddle3 => Button.Paddle3
    case Paddle4 => Button.Paddle4
    case Touchpad => Button.Touchpad
  }

  /** The button conversion is a bijection: injective, and every crate button is reached. */
  lemma ButtonFromBijective()
    ensures forall b, c :: ButtonFrom(b) == ButtonFrom(c) ==> b == c
    ensures forall c :: ButtonFrom(SdlButtonOf(c)) == c
  {
  }

  /** The same-named SDL axis. */
  function SdlAxisOf(a: Axis): SdlAxis {
    match a
    case LeftX => SdlAxis.LeftX
    case LeftY => SdlAxis.LeftY
    case RightX => SdlAxis.RightX
    case RightY => SdlAxis.RightY
    case TriggerLeft => SdlAxis.TriggerLeft
    case TriggerRight => SdlAxis.TriggerRight
  }

  /** `From<sdl2::controller::Axis> for Axis`: name-preserving. */
  function AxisFrom(a: SdlAxis): (r: Axis)
    ensures SdlAxisOf(r) == a
  {
    match a
    case LeftX => Axis.LeftX
    case LeftY => Axis.LeftY
    case RightX => Axis.RightX
    case RightY => Axis.RightY
    case TriggerLeft => Axis.TriggerLeft
    case TriggerRight => Axis.TriggerRight
  }

  /** The axis conversion is a bijection. */
  lemma AxisFromBijective()
    ensures forall a, b :: AxisFrom(a) == AxisFrom(b) ==> a == b
    ensures forall c :: AxisFrom(SdlAxisOf(c)) == c
  {
  }

  /** The SDL events the reader sees; `OtherEvent` stands for every event it ignores. */
  datatype SdlEvent =
    | ControllerAxisMotion(which: U32, axis: SdlAxis, value: I16)
    | ControllerButtonDown(which: U32, button: SdlButton)
    | ControllerButtonUp(which: U32, button: SdlButton)
    | ControllerDeviceAdded(which: U32)
    | ControllerDeviceRemoved(which: U32)
    | Quit
    | OtherEvent

  /** What SDL answers when a device index is examined: the string form of its GUID
      (`None`: `device_guid` failed), its name (`None`: `name_for_index` failed), whether
      it is a game controller, and whether `open` succeeds. */
  datatype Probe = Probe(guid: Option<string>, name: Option<string>, isGameController: bool, opens: bool)

  /** An open `GameController` handle, kept in the registry. */
  datatype GameController = GameController(index: U32)

  /** The controller registry: the `HashMap` from device id to open controller. */
  type Controllers = map<U32, GameController>

  /** What `maybe_add_controller` returns: `Added(id, name)` exactly when the GUID lookup,
      the game-controller check and `open` all succeed, with the device name falling back
      to the GUID string. */
  function Addition(id: U32, probe: Probe): (ev: Option<InputEvent>)
    ensures ev.Some? <==> probe.guid.Some? && probe.isGameController && probe.opens
    ensures ev.Some? ==> ev.value == Added(id, if probe.name.Some? then probe.name.value else probe.guid.value)
  {
    match probe.guid
    case None => None
    case Some(guid) =>
      var name := probe.name.UnwrapOr(guid);
      if !probe.isGameController then None
      else if !probe.opens then None
      else Some(Added(id, name))
  }

  /** The registry after `maybe_add_controller`: the opened controller is inserted under `id`. */
  function Register(reg: Controllers, id: U32, probe: Probe): (reg': Controllers)
    ensures id in reg' <==> id in reg || Addition(id, probe).Some?
    ensures Addition(id, probe).Some? ==> reg'[id] == GameController(id)
    ensures Addition(id, probe).None? && id in reg ==> reg'[id] == reg[id]
    ensures forall k :: k != id ==> (k in reg' <==> k in reg)
    ensures forall k :: k != id && k in reg ==> reg'[k] == reg[k]
  {
    if Addition(id, probe).Some? then reg[id := GameController(id)] else reg
  }

  /** The registry as a mutable object, as the `RefCell<HashMap>` shared by the two closures. */
  class Registry {
    var controllers: Controllers

    constructor ()
      ensures controllers == map[]
    {
      controllers := map[];
    }

    /** `maybe_add_controller`. */
    method MaybeAddController(id: U32, probe: Probe) returns (ev: Option<InputEvent>)
      modifies this
      ensures ev == Addition(id, probe)
      ensures controllers == Register(old(controllers), id, probe)
      ensures ev.Some? ==> id in controllers
    {
      if probe.guid.None? {
        return None;
      }
      var name := probe.name.UnwrapOr(probe.guid.value);
      if !probe.isGameController {
        return None;
      }
      if probe.opens {
        controllers := controllers[id := GameController(id)];
        ev := Some(Added(id, name));
      } else {
        ev := None;
      }
    }

    /** `maybe_remove_controller`: whether the id was registered; afterwards it is not. */
    method MaybeRemoveController(id: U32) returns (removed: bool)
      modifies this
      ensures removed <==> id in old(controllers)
      ensures controllers == old(controllers) - {id}
      ensures id !in controllers
    {
      removed := id in controllers;
      controllers := controllers - {id};
    }
  }

  /** The registry after startup enumeration: `maybe_add_controller` tried on every index
      `0 .. |probes|` in order, its result discarded. */
  function Enumerated(probes: seq<Probe>): (reg: Controllers)
    requires |probes| <= 0x1_0000_0000
    decreases |probes|
  {
    if probes == [] then map[]
    else Register(Enumerated(probes[..|probes| - 1]), |probes| - 1, probes[|probes| - 1])
  }

  /** Startup registers exactly the indices whose controller could be examined and opened. */
  lemma {:induction false} EnumeratedRegisters(probes: seq<Probe>, id: U32)
    requires |probes| <= 0x1_0000_0000
    ensures id in Enumerated(probes) <==> id < |probes| && Addition(id, probes[id]).Some?
    decreases |probes|
  {
    if probes != [] {
      var n := |probes| - 1;
      if id < n {
        EnumeratedRegisters(probes[..n], id);
        assert probes[..n][id] == probes[id];
      } else {
        EnumeratedAbove(probes[..n], id);
      }
    }
  }

  /** No index at or above the number of examined devices is registered at startup. */
  lemma {:induction false} EnumeratedAbove(probes: seq<Probe>, id: U32)
    requires |probes| <= id
    ensures id !in Enumerated(probes)
    decreases |probes|
  {
    if probes != [] {
      EnumeratedAbove(probes[..|probes| - 1], id);
    }
  }

  /** One pump event other than `Quit`: the registry afterwards and what is sent, if
      anything. `probe` is what SDL answers if the event makes the reader examine a device.
      The pump loops stop at `Quit` before handling it, so the `Quit` arm is never reached;
      it is kept only so that the match is total. */
  function Handle(reg: Controllers, ev: SdlEvent, probe: Probe): (Controllers, Option<InputEvent>) {
    match ev
    case ControllerAxisMotion(which, axis, value) => (reg, Some(AxisMotion(which, AxisFrom(axis), value)))
    case ControllerButtonDown(which, button) => (reg, Some(ButtonDown(which, ButtonFrom(button))))
    case ControllerButtonUp(which, button) => (reg, Some(ButtonUp(which, ButtonFrom(button))))
    case ControllerDeviceAdded(which) => (Register(reg, which, probe), Addition(which, probe))
    case ControllerDeviceRemoved(which) => (reg - {which}, if which in reg then Some(Removed(which)) else None)
    case Quit => (reg, None)
    case OtherEvent => (reg, None)
  }

  /** What `sdl_task` did: the events it sent, the registry, and how it ended. */
  datatype SdlTrace = SdlTrace(sent: seq<InputEvent>, controllers: Controllers, exit: Exit<string>)

  /** `t` preceded by the deliveries `sent`. */
  function After(sent: seq<InputEvent>, t: SdlTrace): SdlTrace {
    SdlTrace(sent + t.sent, t.controllers, t.exit)
  }

  /** The event-pump loop as a function. `hotplug(pos + k)` is SDL's answer when the `k`-th
      event of `pump` makes the reader examine a device; the receiver takes `accepts`
      deliveries before it is dropped, and a send after that panics (`unwrap`). When the
      pump runs out the task is still waiting for events. */
  function PumpRun(reg: Controllers, pump: seq<SdlEvent>, hotplug: nat -> Probe, pos: nat, accepts: Option<nat>)
    : (t: SdlTrace)
    ensures |t.sent| <= |pump|
    decreases |pump|
  {
    if pump == [] then SdlTrace([], reg, Blocked)
    else if pump[0] == Quit then SdlTrace([], reg, Returned(Ok(())))
    else
      var (reg', out) := Handle(reg, pump[0], hotplug(pos));
      match out
      case None => PumpRun(reg', pump[1..], hotplug, pos + 1, accepts)
      case Some(ev) =>
        if accepts == Some(0) then SdlTrace([], reg', Panicked)
        else After([ev], PumpRun(reg', pump[1..], hotplug, pos + 1, Less(accepts)))
  }

  /** How SDL's setup calls answer: `init` is the error of the first failing of
      `sdl2::init`, `joystick` and `game_controller`; `joysticks` is what `num_joysticks`
      gives, as SDL's answers for each device index `0 .. available`, or its error;
      `eventPump` is the error of `event_pump`. */
  datatype SdlSetup = SdlSetup(init: Option<string>, joysticks: Result<seq<Probe>, string>, eventPump: Option<string>)

  /** `sdl_task` as a function. */
  function SdlRun(setup: SdlSetup, pump: seq<SdlEvent>, hotplug: nat -> Probe, accepts: Option<nat>): (t: SdlTrace)
    requires setup.joysticks.Ok? ==> |setup.joysticks.value| <= 0x1_0000_0000
  {
    if setup.init.Some? then SdlTrace([], map[], Returned(Err(setup.init.value)))
    else match setup.joysticks
      case Err(e) => SdlTrace([], map[], Returned(Err("can't enumerate joysticks: " + e)))
      case Ok(probes) =>
        var reg := Enumerated(probes);
        if setup.eventPump.Some? then SdlTrace([], reg, Returned(Err(setup.eventPump.value)))
        else PumpRun(reg, pump, hotplug, 0, accepts)
  }

  /** One turn of the pump loop. */
  lemma PumpStep(reg: Controllers, pump: seq<SdlEvent>, hotplug: nat -> Probe, pos: nat, accepts: Option<nat>)
    requires pump != [] && pump[0] != Quit
    ensures var (reg', out) := Handle(reg, pump[0], hotplug(pos));
      && (out.None? ==> PumpRun(reg, pump, hotplug, pos, accepts) == PumpRun(reg', pump[1..], hotplug, pos + 1, accepts))
      && (out.Some? && accepts == Some(0) ==> PumpRun(reg, pump, hotplug, pos, accepts) == SdlTrace([], reg', Panicked))
      && (out.Some? && accepts != Some(0) ==>
            PumpRun(reg, pump, hotplug, pos, accepts) == After([out.value], PumpRun(reg', pump[1..], hotplug, pos + 1, Less(accepts))))
  {
  }

  /** An ignored SDL event (the `_ => ()` arm) sends nothing and leaves the registry as it was. */
  lemma PumpIgnoresOther(reg: Controllers, rest: seq<SdlEvent>, hotplug: nat -> Probe, pos: nat, accepts: Option<nat>)
    ensures Handle(reg, OtherEvent, hotplug(pos)) == (reg, None)
    ensures PumpRun(reg, [OtherEvent] + rest, hotplug, pos, accepts) == PumpRun(reg, rest, hotplug, pos + 1, accepts)
  {
    assert ([OtherEvent] + rest)[1..] == rest;
  }

  /** The pump loop runs through a finite stretch of events without `Quit` whose sends the
      receiver all takes, and is then still waiting. */
  lemma {:induction false} PumpBlocked(reg: Controllers, pump: seq<SdlEvent>, hotplug: nat -> Probe, pos: nat, accepts: Option<nat>)
    requires Quit !in pump && Takes(accepts, |pump|)
    ensures PumpRun(reg, pump, hotplug, pos, accepts).exit == Blocked
    decreases |pump|
  {
    if pump != [] {
      assert pump[0] in pump;
      assert forall e :: e in pump[1..] ==> e in pump;
      PumpStep(reg, pump, hotplug, pos, accepts);
      var (reg', out) := Handle(reg, pump[0], hotplug(pos));
      if out.None? {
        PumpBlocked(reg', pump[1..], hotplug, pos + 1, accepts);
      } else {
        PumpBlocked(reg', pump[1..], hotplug, pos + 1, Less(accepts));
      }
    }
  }

  /** A step of the pump loop on one event other than `Quit`, at a pump position: the
      registry afterwards and what is sent, if anything. */
  type Step = (Controllers, SdlEvent, nat) -> (Controllers, Option<InputEvent>)

  /** The step the reader takes: `Handle`, with SDL's answer at that pump position. */
  function HandleAt(hotplug: nat -> Probe): Step {
    (reg: Controllers, ev: SdlEvent, pos: nat) => Handle(reg, ev, hotplug(pos))
  }

  /** The pump loop of `PumpRun` over any step. The two are kept as separate definitions on
      purpose: `PumpRun` unfolds `Handle` directly, which the per-event lemmas and the `Pump`
      loop need, while proofs about `RunWith` see the step as an opaque function and so stay
      small when they only care about the loop's shape (`RunWithAppend`).
      `PumpRunIsRunWith` proves the two equal. */
  function RunWith(step: Step, reg: Controllers, pump: seq<SdlEvent>, pos: nat, accepts: Option<nat>): SdlTrace
    decreases |pump|
  {
    if pump == [] then SdlTrace([], reg, Blocked)
    else if pump[0] == Quit then SdlTrace([], reg, Returned(Ok(())))
    else
      var (reg', out) := step(reg, pump[0], pos);
      match out
      case None => RunWith(step, reg', pump[1..], pos + 1, accepts)
      case Some(ev) =>
        if accepts == Some(0) then SdlTrace([], reg', Panicked)
        else After([ev], RunWith(step, reg', pump[1..], pos + 1, Less(accepts)))
  }

  /** `PumpRun` is the loop over the reader's step. */
  lemma {:induction false} PumpRunIsRunWith(reg: Controllers, pump: seq<SdlEvent>, hotplug: nat -> Probe, pos: nat,
                                            accepts: Option<nat>)
    ensures PumpRun(reg, pump, hotplug, pos, accepts) == RunWith(HandleAt(hotplug), reg, pump, pos, accepts)
    decreases |pump|
  {
    if pump != [] && pump[0] != Quit {
      var (reg', out) := Handle(reg, pump[0], hotplug(pos));
      assert HandleAt(hotplug)(reg, pump[0], pos) == (reg', out);
      PumpRunIsRunWith(reg', pump[1..], hotplug, pos + 1, accepts);
      PumpRunIsRunWith(reg', pump[1..], hotplug, pos + 1, Less(accepts));
    }
  }

  /** The events one step sends: none or one. */
  function Sends(out: Option<InputEvent>): seq<InputEvent> {
    if out.Some? then [out.value] else []
  }

  /** One turn of the loop, with the send and the spent delivery made uniform. */
  lemma RunWithCons(step: Step, reg: Controllers, pump: seq<SdlEvent>, pos: nat, accepts: Option<nat>)
    requires pump != [] && pump[0] != Quit
    ensures var (reg', out) := step(reg, pump[0], pos);
      && (out.Some? && accepts == Some(0) ==> RunWith(step, reg, pump, pos, accepts).exit == Panicked)
      && (!(out.Some? && accepts == Some(0)) ==>
            RunWith(step, reg, pump, pos, accepts)
              == After(Sends(out), RunWith(step, reg', pump[1..], pos + 1, Spent(accepts, |Sends(out)|))))
  {
    var (reg', out) := step(reg, pump[0], pos);
    if out.None? {
      var x := RunWith(step, reg', pump[1..], pos + 1, accepts);
      assert [] + x.sent == x.sent;
    }
  }

  /** Deliveries compose. */
  lemma AfterAssoc(e: seq<InputEvent>, r: SdlTrace, x: SdlTrace)
    ensures After(e, After(r.sent, x)) == After(After(e, r).sent, x)
  {
    assert e + (r.sent + x.sent) == (e + r.sent) + x.sent;
  }

  /** The loop over `s + t`, when the stretch `s` is handled completely: what `s` sends, then
      the loop over `t` from where `s` left off. */
  lemma {:induction false} RunWithAppend(step: Step, reg: Controllers, s: seq<SdlEvent>, t: seq<SdlEvent>,
                                         pos: nat, accepts: Option<nat>)
    requires RunWith(step, reg, s, pos, accepts).exit == Blocked
    ensures var r := RunWith(step, reg, s, pos, accepts);
      RunWith(step, reg, s + t, pos, accepts)
        == After(r.sent, RunWith(step, r.controllers, t, pos + |s|, Spent(accepts, |r.sent|)))
    decreases |s|
  {
    if s == [] {
      assert s + t == t;
      var x := RunWith(step, reg, t, pos, accepts);
      assert [] + x.sent == x.sent;
    } else {
      var h := step(reg, s[0], pos);
      AppendHead(step, reg, s, t, pos, accepts);
      RunWithAppend(step, h.0, s[1..], t, pos + 1, Spent(accepts, |Sends(h.1)|));
      AppendSends(step, reg, s, t, pos, accepts);
      AppendRest(step, reg, s, t, pos, accepts);
    }
  }

  /** The first turn of the loop over `s` and over `s + t` alike, when `s` is handled
      completely. */
  lemma AppendHead(step: Step, reg: Controllers, s: seq<SdlEvent>, t: seq<SdlEvent>, pos: nat, accepts: Option<nat>)
    requires s != [] && RunWith(step, reg, s, pos, accepts).exit == Blocked
    ensures var h := step(reg, s[0], pos);
      var a' := Spent(accepts, |Sends(h.1)|);
      && RunWith(step, reg, s, pos, accepts) == After(Sends(h.1), RunWith(step, h.0, s[1..], pos + 1, a'))
      && RunWith(step, reg, s + t, pos, accepts) == After(Sends(h.1), RunWith(step, h.0, s[1..] + t, pos + 1, a'))
  {
    assert (s + t)[0] == s[0] && (s + t)[1..] == s[1..] + t;
    RunWithCons(step, reg, s, pos, accepts);
    RunWithCons(step, reg, s + t, pos, accepts);
  }

  /** The sends of `s + t`: those of `s`, then those of the loop after `s`. */
  lemma AppendSends(step: Step, reg: Controllers, s: seq<SdlEvent>, t: seq<SdlEvent>, pos: nat, accepts: Option<nat>)
    requires s != [] && RunWith(step, reg, s, pos, accepts).exit == Blocked
    requires var h := step(reg, s[0], pos);
      var a' := Spent(accepts, |Sends(h.1)|);
      var r' := RunWith(step, h.0, s[1..], pos + 1, a');
      RunWith(step, h.0, s[1..] + t, pos + 1, a')
        == After(r'.sent, RunWith(step, r'.controllers, t, pos + 1 + |s[1..]|, Spent(a', |r'.sent|)))
    ensures var h := step(reg, s[0], pos);
      var a' := Spent(accepts, |Sends(h.1)|);
      var r' := RunWith(step, h.0, s[1..], pos + 1, a');
      RunWith(step, reg, s + t, pos, accepts)
        == After(RunWith(step, reg, s, pos, accepts).sent,
                 RunWith(step, r'.controllers, t, pos + 1 + |s[1..]|, Spent(a', |r'.sent|)))
  {
    var h := step(reg, s[0], pos);
    var a' := Spent(accepts, |Sends(h.1)|);
    AppendHead(step, reg, s, t, pos, accepts);
    var r' := RunWith(step, h.0, s[1..], pos + 1, a');
    AfterAssoc(Sends(h.1), r', RunWith(step, r'.controllers, t, pos + 1 + |s[1..]|, Spent(a', |r'.sent|)));
  }

  /** The loop after `s` starts from the registry `s` leaves, at the position after `s`,
      with the deliveries `s` did not use. */
  lemma AppendRest(step: Step, reg: Controllers, s: seq<SdlEvent>, t: seq<SdlEvent>, pos: nat, accepts: Option<nat>)
    requires s != [] && RunWith(step, reg, s, pos, accepts).exit == Blocked
    ensures var h := step(reg, s[0], pos);
      var a' := Spent(accepts, |Sends(h.1)|);
      var r' := RunWith(step, h.0, s[1..], pos + 1, a');
      var r := RunWith(step, reg, s, pos, accepts);
      RunWith(step, r'.controllers, t, pos + 1 + |s[1..]|, Spent(a', |r'.sent|))
        == RunWith(step, r.controllers, t, pos + |s|, Spent(accepts, |r.sent|))
  {
    var h := step(reg, s[0], pos);
    var e := Sends(h.1);
    var a' := Spent(accepts, |e|);
    RunWithCons(step, reg, s, pos, accepts);
    var r' := RunWith(step, h.0, s[1..], pos + 1, a');
    var r := RunWith(step, reg, s, pos, accepts);
    SpentAfter(accepts, e, r', r);
  }

  /** The deliveries left after `e` and then `r'`, and the registry `r'` leaves. */
  lemma SpentAfter(accepts: Option<nat>, e: seq<InputEvent>, r': SdlTrace, r: SdlTrace)
    requires r == After(e, r')
    ensures Spent(accepts, |r.sent|) == Spent(Spent(accepts, |e|), |r'.sent|)
    ensures r.controllers == r'.controllers
  {
    SpentSpent(accepts, |e|, |r'.sent|);
  }

  /** The pump loop over `s + t`, when the stretch `s` is handled completely (no `Quit`, no
      refused send): what `s` sends, followed by the loop over `t` from the registry `s`
      leaves, at the hotplug position after `s`, with the receiver's remaining deliveries.
      So sends keep pump order however forwarded, hotplug and ignored events interleave. */
  lemma PumpRunAppend(reg: Controllers, s: seq<SdlEvent>, t: seq<SdlEvent>, hotplug: nat -> Probe,
                      pos: nat, accepts: Option<nat>)
    requires PumpRun(reg, s, hotplug, pos, accepts).exit == Blocked
    ensures var r := PumpRun(reg, s, hotplug, pos, accepts);
      PumpRun(reg, s + t, hotplug, pos, accepts)
        == After(r.sent, PumpRun(r.controllers, t, hotplug, pos + |s|, Spent(accepts, |r.sent|)))
  {
    var r := PumpRun(reg, s, hotplug, pos, accepts);
    PumpRunIsRunWith(reg, s, hotplug, pos, accepts);
    PumpRunIsRunWith(reg, s + t, hotplug, pos, accepts);
    PumpRunIsRunWith(r.controllers, t, hotplug, pos + |s|, Spent(accepts, |r.sent|));
    RunWithAppend(HandleAt(hotplug), reg, s, t, pos, accepts);
  }

  /** The startup enumeration: `maybe_add_controller` on every index `0 .. available`,
      its result discarded, so nothing is sent. */
  method Enumerate(registry: Registry, probes: seq<Probe>)
    requires |probes| <= 0x1_0000_0000 && registry.controllers == map[]
    modifies registry
    ensures registry.controllers == Enumerated(probes)
  {
    var id := 0;
    while id < |probes|
      invariant 0 <= id <= |probes|
      invariant registry.controllers == Enumerated(probes[..id])
    {
      var _ := registry.MaybeAddController(id, probes[id]);
      assert probes[..id + 1][..id] == probes[..id];
      id := id + 1;
    }
    assert probes[..id] == probes;
  }

  /** The match of the pump loop for one event other than `Quit`: the event to send, if any. */
  method HandleEvent(registry: Registry, ev: SdlEvent, probe: Probe) returns (out: Option<InputEvent>)
    requires ev != Quit
    modifies registry
    ensures (registry.controllers, out) == Handle(old(registry.controllers), ev, probe)
  {
    out := None;
    match ev {
      case ControllerAxisMotion(which, axis, value) =>
        out := Some(AxisMotion(which, AxisFrom(axis), value));
      case ControllerButtonDown(which, button) =>
        out := Some(ButtonDown(which, ButtonFrom(button)));
      case ControllerButtonUp(which, button) =>
        out := Some(ButtonUp(which, ButtonFrom(button)));
      case ControllerDeviceAdded(which) =>
        out := registry.MaybeAddController(which, probe);
      case ControllerDeviceRemoved(which) =>
        var removed := registry.MaybeRemoveController(which);
        if removed {
          out := Some(Removed(which));
        }
      case OtherEvent =>
    }
  }

  /** The loop invariant of `Pump` carried over one turn. */
  lemma PumpTurn(pump: seq<SdlEvent>, hotplug: nat -> Probe, k: nat, reg: Controllers, room: Option<nat>,
                 sent: seq<InputEvent>, target: SdlTrace)
    requires k < |pump| && target == After(sent, PumpRun(reg, pump[k..], hotplug, k, room))
    ensures pump[k] == Quit ==> target == SdlTrace(sent, reg, Returned(Ok(())))
    ensures pump[k] != Quit ==>
      var (reg', out) := Handle(reg, pump[k], hotplug(k));
      && (out.None? ==> target == After(sent, PumpRun(reg', pump[k + 1..], hotplug, k + 1, room)))
      && (out.Some? && room == Some(0) ==> target == SdlTrace(sent, reg', Panicked))
      && (out.Some? && room != Some(0) ==>
            target == After(sent + [out.value], PumpRun(reg', pump[k + 1..], hotplug, k + 1, Less(room))))
  {
    assert pump[k..][1..] == pump[k + 1..];
    if pump[k] == Quit {
      assert sent + [] == sent;
    } else {
      PumpStep(reg, pump[k..], hotplug, k, room);
      var (reg', out) := Handle(reg, pump[k], hotplug(k));
      if out.Some? {
        if room == Some(0) {
          assert sent + [] == sent;
        } else {
          var x := PumpRun(reg', pump[k + 1..], hotplug, k + 1, Less(room));
          assert sent + ([out.value] + x.sent) == (sent + [out.value]) + x.sent;
        }
      }
    }
  }

  /** The pump loop: events in order until `Quit`; a send after the receiver is gone panics. */
  method Pump(registry: Registry, pump: seq<SdlEvent>, hotplug: nat -> Probe, accepts: Option<nat>)
    returns (sent: seq<InputEvent>, exit: Exit<string>)
    modifies registry
    ensures SdlTrace(sent, registry.controllers, exit) == PumpRun(old(registry.controllers), pump, hotplug, 0, accepts)
  {
    sent := [];
    var room := accepts;
    var k := 0;
    var done := false;
    exit := Blocked;
    ghost var target := PumpRun(registry.controllers, pump, hotplug, 0, accepts);
    assert pump[0..] == pump;
    assert [] + target.sent == target.sent;
    while k < |pump| && !done
      invariant 0 <= k <= |pump|
      invariant !done ==> exit == Blocked
      invariant !done ==> target == After(sent, PumpRun(registry.controllers, pump[k..], hotplug, k, room))
      invariant done ==> target == SdlTrace(sent, registry.controllers, exit)
      decreases |pump| - k, if done then 0 else 1
    {
      PumpTurn(pump, hotplug, k, registry.controllers, room, sent, target);
      if pump[k] == Quit {
        done := true;
        exit := Returned(Ok(()));
      } else {
        var out := HandleEvent(registry, pump[k], hotplug(k));
        if out.Some? {
          if room == Some(0) {
            done := true;
            exit := Panicked;
          } else {
            sent := sent + [out.value];
            room := Less(room);
          }
        }
      }
      k := k + 1;
    }
    if !done {
      assert pump[k..] == [];
      assert sent + [] == sent;
    }
  }

  /** `sdl_task`: sets SDL up, examines every device index found at startup (sending
      nothing), then normalises pump events in order until `Quit`. */
  method SdlTask(setup: SdlSetup, pump: seq<SdlEvent>, hotplug: nat -> Probe, accepts: Option<nat>)
    returns (sent: seq<InputEvent>, controllers: Controllers, exit: Exit<string>)
    requires setup.joysticks.Ok? ==> |setup.joysticks.value| <= 0x1_0000_0000
    ensures SdlTrace(sent, controllers, exit) == SdlRun(setup, pump, hotplug, accepts)
  {
    if setup.init.Some? {
      return [], map[], Returned(Err(setup.init.value));
    }
    var registry := new Registry();
    if setup.joysticks.Err? {
      return [], registry.controllers, Returned(Err("can't enumerate joysticks: " + setup.joysticks.error));
    }
    Enumerate(registry, setup.joysticks.value);
    if setup.eventPump.Some? {
      return [], registry.controllers, Returned(Err(setup.eventPump.value));
    }
    sent, exit := Pump(registry, pump, hotplug, accepts);
    controllers := registry.controllers;
  }

  /** The pump events that are forwarded as they come: axis motion and button edges. */
  predicate Forwardable(ev: SdlEvent) {
    ev.ControllerAxisMotion? || ev.ControllerButtonDown? || ev.ControllerButtonUp?
  }

  /** The normalised form of a forwarded event: same device id, converted axis or button,
      raw axis value unchanged. */
  function Normalised(ev: SdlEvent): (r: InputEvent)
    requires Forwardable(ev)
    ensures ev.ControllerAxisMotion? ==> r == AxisMotion(ev.which, AxisFrom(ev.axis), ev.value)
    ensures ev.ControllerButtonDown? ==> r == ButtonDown(ev.which, ButtonFrom(ev.button))
    ensures ev.ControllerButtonUp? ==> r == ButtonUp(ev.which, ButtonFrom(ev.button))
  {
    Handle(map[], ev, Probe(None, None, false, false)).1.value
  }

  /** Axis motion and button edges are each sent exactly once, normalised, in pump order,
      and leave the registry alone. */
  lemma {:induction false} PumpForwards(reg: Controllers, pump: seq<SdlEvent>, hotplug: nat -> Probe, pos: nat,
                                        accepts: Option<nat>)
    requires forall i :: 0 <= i < |pump| ==> Forwardable(pump[i])
    requires Takes(accepts, |pump|)
    ensures PumpRun(reg, pump, hotplug, pos, accepts)
         == SdlTrace(seq(|pump|, i requires 0 <= i < |pump| => Normalised(pump[i])), reg, Blocked)
    decreases |pump|
  {
    if pump != [] {
      PumpStep(reg, pump, hotplug, pos, accepts);
      PumpForwards(reg, pump[1..], hotplug, pos + 1, Less(accepts));
      var rest := seq(|pump| - 1, i requires 0 <= i < |pump| - 1 => Normalised(pump[1..][i]));
      assert seq(|pump|, i requires 0 <= i < |pump| => Normalised(pump[i])) == [Normalised(pump[0])] + rest;
    }
  }

  /** Nothing after the first `Quit` is looked at, and the loop does not outlive it: it
      returns `Ok(())`, unless a send before it panicked. */
  lemma {:induction false} PumpStopsAtQuit(reg: Controllers, pre: seq<SdlEvent>, rest: seq<SdlEvent>,
                                           hotplug: nat -> Probe, pos: nat, accepts: Option<nat>)
    requires Quit !in pre
    ensures PumpRun(reg, pre + [Quit] + rest, hotplug, pos, accepts) == PumpRun(reg, pre + [Quit], hotplug, pos, accepts)
    ensures PumpRun(reg, pre + [Quit], hotplug, pos, accepts).exit in {Returned(Ok(())), Panicked}
    decreases |pre|
  {
    if pre == [] {
      assert ([] + [Quit] + rest)[0] == Quit;
    } else {
      assert (pre + [Quit] + rest)[1..] == pre[1..] + [Quit] + rest;
      assert (pre + [Quit])[1..] == pre[1..] + [Quit];
      PumpStep(reg, pre + [Quit] + rest, hotplug, pos, accepts);
      PumpStep(reg, pre + [Quit], hotplug, pos, accepts);
      var reg' := Handle(reg, pre[0], hotplug(pos)).0;
      PumpStopsAtQuit(reg', pre[1..], rest, hotplug, pos + 1, accepts);
      PumpStopsAtQuit(reg', pre[1..], rest, hotplug, pos + 1, Less(accepts));
    }
  }

  /** `Added(id, name)` is sent for a device-added event only when the device could be
      examined and opened, and the id is then registered; `Removed(id)` is sent only when the
      id was registered, it is absent afterwards, and a second removal sends nothing. */
  lemma HotplugGating(reg: Controllers, id: U32, p: Probe, q: Probe)
    ensures var (reg1, out) := Handle(reg, ControllerDeviceAdded(id), p);
      && (out.Some? <==> p.guid.Some? && p.isGameController && p.opens)
      && (out.Some? ==> id in reg1 && out.value.Added? && out.value.which == id)
      && (out.None? ==> reg1 == reg)
    ensures var (reg1, out) := Handle(reg, ControllerDeviceRemoved(id), p);
      && (out.Some? <==> id in reg)
      && (out.Some? ==> out.value == Removed(id))
      && id !in reg1
      && Handle(reg1, ControllerDeviceRemoved(id), q).1 == None
  {
  }

  /** Startup sends nothing: with no pump events, the task sends no event, whatever the
      devices found at startup. */
  lemma StartupSendsNothing(setup: SdlSetup, hotplug: nat -> Probe, accepts: Option<nat>)
    requires setup.joysticks.Ok? ==> |setup.joysticks.value| <= 0x1_0000_0000
    ensures SdlRun(setup, [], hotplug, accepts).sent == []
  {
  }
}
