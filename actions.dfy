/** The earlier uinput emitter (src/actions.rs, not in the crate's module tree): actions
    carry `input_linux::Key` directly, so keys are written untranslated, and only
    `Key::A` is registered on the device. */
module Actions {
  import opened Wrappers
  import opened Types
  import opened InputLinux

  /** The batch written for one action: its key pressed or released, then the sync report. */
  function Batch(act: Action<UinputKey>): (b: seq<RawEvent>)
    ensures IsReport(b) && |b| == 2
    ensures b[0].KeyEvent? && b[0].key == act.key
    ensures b[0].state == Pressed <==> act.KeyDown?
  {
    match act
    case KeyDown(key) => [KeyEvent(ZERO, key, Pressed), SyncReport]
    case KeyUp(key) => [KeyEvent(ZERO, key, Released), SyncReport]
  }

  /** The batches of a stream of actions, one per action, in order. */
  function Batches(actions: seq<Action<UinputKey>>): (bs: seq<seq<RawEvent>>)
    ensures |bs| == |actions|
    ensures forall i :: 0 <= i < |actions| ==> bs[i] == Batch(actions[i])
    decreases |actions|
  {
    if actions == [] then [] else Batches(actions[..|actions| - 1]) + [Batch(actions[|actions| - 1])]
  }

  /** The loop body for one action: the match pushes one key event (both arms push), and
      the sync report is pushed after it. */
  method BuildBatch(act: Action<UinputKey>) returns (events: seq<RawEvent>)
    ensures events == Batch(act)
  {
    events := [];
    match act {
      case KeyDown(key) => events := events + [KeyEvent(ZERO, key, Pressed)];
      case KeyUp(key) => events := events + [KeyEvent(ZERO, key, Released)];
    }
    if |events| > 0 {
      events := events + [SyncReport];
    }
  }

  /** Appending an action appends its batch. */
  lemma {:induction false} BatchesSnoc(actions: seq<Action<UinputKey>>, i: nat)
    requires i < |actions|
    ensures Batches(actions[..i + 1]) == Batches(actions[..i]) + [Batch(actions[i])]
  {
    assert actions[..i + 1][..i] == actions[..i];
  }

  /** The emitter loop: every received action yields exactly one write of its two-event
      batch; a failed write is logged and the loop goes on. */
  method EmitActions(actions: seq<Action<UinputKey>>, write: nat -> Option<IoError>)
    returns (written: seq<seq<RawEvent>>, logged: seq<IoError>)
    ensures written == Batches(actions)
    ensures logged == Errors(write, |actions|)
  {
    written, logged := [], [];
    var i := 0;
    while i < |actions|
      invariant 0 <= i <= |actions| && |written| == i
      invariant written == Batches(actions[..i])
      invariant logged == Errors(write, i)
    {
      var events := BuildBatch(actions[i]);
      BatchesSnoc(actions, i);
      if |events| > 0 {
        written := written + [events];
        var r := write(i);
        if r.Some? {
          logged := logged + [r.value];
        }
      }
      i := i + 1;
    }
    assert actions[..i] == actions;
  }

  /** `actions_task`: sets up the device (open, event bit, the key bit of `Key::A`, create),
      returning the first error; then writes one batch per action received until the
      channel is disconnected, and destroys the device. */
  method ActionsTask(u: Uinput, actions: seq<Action<UinputKey>>, closed: bool)
    returns (keybits: seq<UinputKey>, written: seq<seq<RawEvent>>, logged: seq<IoError>, exit: Exit<IoError>)
    ensures var setupOk := u.open.None? && u.setEvbit.None? && u.setKeybit(0).None? && u.create.None?;
      && (setupOk ==>
            && keybits == [InputLinux.KeyA]
            && written == Batches(actions)
            && logged == Errors(u.write, |actions|)
            && exit == (if !closed then Blocked
                        else if u.destroy.Some? then Returned(Err(u.destroy.value)) else Returned(Ok(()))))
      && (!setupOk ==> written == [] && logged == [] && exit.Returned? && exit.result.Err?)
    ensures u.open.Some? ==> exit == Returned(Err(u.open.value))
    ensures u.open.None? && u.setEvbit.Some? ==> exit == Returned(Err(u.setEvbit.value))
    ensures u.open.None? && u.setEvbit.None? && u.setKeybit(0).Some? ==> exit == Returned(Err(u.setKeybit(0).value))
    ensures u.open.None? && u.setEvbit.None? && u.setKeybit(0).None? && u.create.Some? ==>
      exit == Returned(Err(u.create.value))
  {
    keybits, written, logged := [], [], [];
    if u.open.Some? {
      return keybits, written, logged, Returned(Err(u.open.value));
    }
    if u.setEvbit.Some? {
      return keybits, written, logged, Returned(Err(u.setEvbit.value));
    }
    keybits := [InputLinux.KeyA];
    if u.setKeybit(0).Some? {
      return keybits, written, logged, Returned(Err(u.setKeybit(0).value));
    }
    if u.create.Some? {
      return keybits, written, logged, Returned(Err(u.create.value));
    }
    written, logged := EmitActions(actions, u.write);
    if !closed {
      return keybits, written, logged, Blocked;
    }
    if u.destroy.Some? {
      exit := Returned(Err(u.destroy.value));
    } else {
      exit := Returned(Ok(()));
    }
  }
}
