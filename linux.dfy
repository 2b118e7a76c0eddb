/** The uinput emitter (src/linux.rs): the key table built once from the crate's `Key`
    enum, the device setup, and the loop that turns each action into one report batch. */
module Linux {
  import opened Wrappers
  import opened Types
  import opened InputLinux

  /** A list of enum variants has no repetitions. */
  ghost predicate Distinct(variants: seq<Key>) {
    forall i, j :: 0 <= i < j < |variants| ==> variants[i] != variants[j]
  }

  /** `key as usize`: the position of `key` among the variants, in declaration order. This
      assumes, as the table lookup `KEY_TO_UINPUT[key as usize]` does, that the crate's `Key`
      has no explicit discriminants, so that each variant's discriminant is its position in
      `Key::iter()`. */
  function Discriminant(variants: seq<Key>, key: Key): (i: nat)
    requires key in variants
    ensures i < |variants| && variants[i] == key
    ensures forall j :: 0 <= j < i ==> variants[j] != key
    decreases |variants|
  {
    if variants[0] == key then 0 else 1 + Discriminant(variants[1..], key)
  }

  /** In a list of distinct variants, the discriminant of the `i`-th variant is `i`:
      the iteration order of `Key::iter()` and the discriminants agree. */
  lemma DiscriminantOfVariant(variants: seq<Key>, i: nat)
    requires Distinct(variants) && i < |variants|
    ensures Discriminant(variants, variants[i]) == i
  {
    var d := Discriminant(variants, variants[i]);
    assert !(d < i) && !(i < d);
  }

  /** The table entry for one key: the serde round trip `decode` of its variant name,
      or `Unknown` when `input_linux::Key` has no variant of that name. */
  function Entry(decode: string -> Option<UinputKey>, key: Key): UinputKey {
    decode(key.name).UnwrapOr(Unknown)
  }

  /** `KEY_TO_UINPUT`: the variants mapped through the round trip and collected in order. */
  function KeyTable(variants: seq<Key>, decode: string -> Option<UinputKey>): (table: seq<UinputKey>)
    ensures |table| == |variants|
    ensures forall i :: 0 <= i < |variants| ==> table[i] == Entry(decode, variants[i])
    decreases |variants|
  {
    if variants == [] then [] else [Entry(decode, variants[0])] + KeyTable(variants[1..], decode)
  }

  /** `KEY_TO_UINPUT[key as usize]`: the index is always in range, and the entry found there
      is the key's own translation, whatever its position. */
  function Translate(variants: seq<Key>, decode: string -> Option<UinputKey>, key: Key): (u: UinputKey)
    requires key in variants
    ensures u == decode(key.name).UnwrapOr(Unknown)
    ensures decode(key.name).None? ==> u == Unknown
  {
    KeyTable(variants, decode)[Discriminant(variants, key)]
  }

  /** The batch written for one action: the translated key pressed or released, then the
      sync report. */
  function Batch(variants: seq<Key>, decode: string -> Option<UinputKey>, act: Action<Key>): (b: seq<RawEvent>)
    requires act.key in variants
    ensures IsReport(b) && |b| == 2
    ensures b[0] == KeyEvent(ZERO, decode(act.key.name).UnwrapOr(Unknown), if act.KeyDown? then Pressed else Released)
  {
    match act
    case KeyDown(key) => [KeyEvent(ZERO, Translate(variants, decode, key), Pressed), SyncReport]
    case KeyUp(key) => [KeyEvent(ZERO, Translate(variants, decode, key), Released), SyncReport]
  }

  /** Whether every action carries a variant of the enum. */
  ghost predicate KeysIn(variants: seq<Key>, actions: seq<Action<Key>>) {
    forall i :: 0 <= i < |actions| ==> actions[i].key in variants
  }

  /** The batches of a stream of actions, one per action, in order. */
  function Batches(variants: seq<Key>, decode: string -> Option<UinputKey>, actions: seq<Action<Key>>)
    : (bs: seq<seq<RawEvent>>)
    requires KeysIn(variants, actions)
    ensures |bs| == |actions|
    ensures forall i :: 0 <= i < |actions| ==> bs[i] == Batch(variants, decode, actions[i])
    decreases |actions|
  {
    if actions == [] then []
    else Batches(variants, decode, actions[..|actions| - 1]) + [Batch(variants, decode, actions[|actions| - 1])]
  }

  /** An action as the emitter receives it. The crate's `Action` type that src/linux.rs
      matches on is not part of this model; its key presses and releases are `KeyAction`,
      and any other variant, which the `_ => {}` arm of the match skips, is `NonKey`. */
  datatype Received = KeyAction(act: Action<Key>) | NonKey

  /** The key actions among those received, in order. */
  function KeyActions(received: seq<Received>): (acts: seq<Action<Key>>)
  {
    if received == [] then []
    else (if received[0].KeyAction? then [received[0].act] else []) + KeyActions(received[1..])
  }

  /** Picking the key actions distributes over concatenation. */
  lemma {:induction false} KeyActionsAppend(r: seq<Received>, s: seq<Received>)
    ensures KeyActions(r + s) == KeyActions(r) + KeyActions(s)
  {
    if r == [] {
      assert r + s == s;
    } else {
      assert (r + s)[0] == r[0] && (r + s)[1..] == r[1..] + s;
      KeyActionsAppend(r[1..], s);
    }
  }

  /** A non-key action contributes nothing, wherever it comes. */
  lemma SkipsNonKey(r: seq<Received>, s: seq<Received>)
    ensures KeyActions(r + [NonKey] + s) == KeyActions(r + s)
  {
    KeyActionsAppend(r + [NonKey], s);
    KeyActionsAppend(r, [NonKey]);
    KeyActionsAppend(r, s);
    assert KeyActions([NonKey]) == [] by { assert [NonKey][1..] == []; }
  }

  /** A stream of key actions, as the emitter receives it. */
  function AsReceived(actions: seq<Action<Key>>): (rs: seq<Received>)
    ensures |rs| == |actions|
    ensures forall i :: 0 <= i < |actions| ==> rs[i].KeyAction? && rs[i].act == actions[i]
  {
    seq(|actions|, i requires 0 <= i < |actions| => KeyAction(actions[i]))
  }

  /** A stream of key actions only: every action is kept, in order. */
  lemma {:induction false} KeyActionsOfKeys(actions: seq<Action<Key>>)
    ensures KeyActions(AsReceived(actions)) == actions
  {
    var rs := AsReceived(actions);
    if actions != [] {
      assert rs[1..] == AsReceived(actions[1..]);
      KeyActionsOfKeys(actions[1..]);
      assert actions == [actions[0]] + actions[1..];
    }
  }

  /** The key actions of a prefix one longer: those of the shorter prefix, then the action
      received, if it is a key action. */
  lemma KeyActionsSnoc(received: seq<Received>, i: nat)
    requires i < |received|
    ensures KeyActions(received[..i + 1])
         == KeyActions(received[..i]) + (if received[i].KeyAction? then [received[i].act] else [])
  {
    assert received[..i + 1] == received[..i] + [received[i]];
    KeyActionsAppend(received[..i], [received[i]]);
    assert [received[i]][1..] == [];
  }

  /** The key actions of a stream: those of a prefix, then those of the rest. */
  lemma KeyActionsSplit(received: seq<Received>, i: nat)
    requires i <= |received|
    ensures KeyActions(received) == KeyActions(received[..i]) + KeyActions(received[i..])
  {
    var w := received[..i] + received[i..];
    assert w == received;
    KeyActionsAppend(received[..i], received[i..]);
    assert KeyActions(w) == KeyActions(received);
  }

  /** The key actions of a prefix carry variants when the whole stream's do. */
  lemma KeysInPrefix(variants: seq<Key>, received: seq<Received>, i: nat)
    requires KeysIn(variants, KeyActions(received)) && i <= |received|
    ensures KeysIn(variants, KeyActions(received[..i]))
  {
    KeyActionsSplit(received, i);
    var p, q := KeyActions(received[..i]), KeyActions(received[i..]);
    forall k | 0 <= k < |p| ensures p[k].key in variants {
      assert p[k] == (p + q)[k];
    }
  }

  /** The key-bit registration loop: one `set_keybit(KEY_TO_UINPUT[key as usize])` per
      variant, in `Key::iter()` order, stopping at the first failing call. `keybits` are the
      arguments of the calls made, the failing one included. */
  method RegisterKeys(variants: seq<Key>, decode: string -> Option<UinputKey>, setKeybit: nat -> Option<IoError>)
    returns (keybits: seq<UinputKey>, err: Option<IoError>)
    ensures err == FirstError(setKeybit, 0, |variants|)
    ensures err.None? ==> keybits == KeyTable(variants, decode)
    ensures err.Some? ==> 0 < |keybits| <= |variants| && keybits == KeyTable(variants, decode)[..|keybits|]
                          && err == setKeybit(|keybits| - 1)
                          && forall j :: 0 <= j < |keybits| - 1 ==> setKeybit(j).None?
  {
    var table := KeyTable(variants, decode);
    keybits, err := [], None;
    var i := 0;
    while i < |variants| && err.None?
      invariant 0 <= i <= |variants| && |keybits| == i
      invariant keybits == table[..i]
      invariant err.None? ==> forall j :: 0 <= j < i ==> setKeybit(j).None?
      invariant err.Some? ==> 0 < i && err == setKeybit(i - 1) && forall j :: 0 <= j < i - 1 ==> setKeybit(j).None?
    {
      var key := variants[i];
      ghost var d := Discriminant(variants, key);
      assert table[d] == table[i];
      keybits := keybits + [table[Discriminant(variants, key)]];
      err := setKeybit(i);
      i := i + 1;
    }
    if err.Some? {
      FirstErrorAt(setKeybit, i - 1, |variants|);
    } else {
      assert table[..i] == table;
    }
  }

  /** The body of the emitter loop for one action: the key event is pushed into a fresh
      `events` vector, and when that is not empty the sync report is pushed after it.
      A key action gives its batch; any other action leaves `events` empty, so nothing is
      appended. */
  method BuildBatch(table: seq<UinputKey>, variants: seq<Key>, decode: string -> Option<UinputKey>, rec: Received)
    returns (events: seq<RawEvent>)
    requires table == KeyTable(variants, decode) && (rec.KeyAction? ==> rec.act.key in variants)
    ensures rec.KeyAction? ==> events == Batch(variants, decode, rec.act)
    ensures rec.NonKey? ==> events == []
  {
    events := [];
    match rec {
      case KeyAction(KeyDown(key)) =>
        events := events + [KeyEvent(ZERO, table[Discriminant(variants, key)], Pressed)];
      case KeyAction(KeyUp(key)) =>
        events := events + [KeyEvent(ZERO, table[Discriminant(variants, key)], Released)];
      case NonKey =>
    }
    if |events| > 0 {
      events := events + [SyncReport];
    }
  }

  /** Appending an action appends its batch. */
  lemma {:induction false} BatchesSnoc(variants: seq<Key>, decode: string -> Option<UinputKey>, actions: seq<Action<Key>>, i: nat)
    requires KeysIn(variants, actions) && i < |actions|
    ensures Batches(variants, decode, actions[..i + 1])
         == Batches(variants, decode, actions[..i]) + [Batch(variants, decode, actions[i])]
  {
    assert actions[..i + 1][..i] == actions[..i];
  }

  /** What the emitter loop has written after the first `i` actions received: the batches
      of the key actions among them. */
  ghost predicate Written(variants: seq<Key>, decode: string -> Option<UinputKey>, received: seq<Received>,
                          i: nat, written: seq<seq<RawEvent>>)
  {
    && i <= |received|
    && KeysIn(variants, KeyActions(received[..i]))
    && written == Batches(variants, decode, KeyActions(received[..i]))
  }

  /** The batches up to action `i + 1`: those up to action `i`, then that action's batch if
      it is a key action. */
  lemma BatchesTurn(variants: seq<Key>, decode: string -> Option<UinputKey>, received: seq<Received>, i: nat)
    requires KeysIn(variants, KeyActions(received)) && i < |received|
    ensures KeysIn(variants, KeyActions(received[..i])) && KeysIn(variants, KeyActions(received[..i + 1]))
    ensures received[i].KeyAction? ==> received[i].act.key in variants
    ensures received[i].KeyAction? ==>
      Batches(variants, decode, KeyActions(received[..i + 1]))
        == Batches(variants, decode, KeyActions(received[..i])) + [Batch(variants, decode, received[i].act)]
    ensures received[i].NonKey? ==>
      Batches(variants, decode, KeyActions(received[..i + 1])) == Batches(variants, decode, KeyActions(received[..i]))
  {
    KeysInPrefix(variants, received, i);
    KeysInPrefix(variants, received, i + 1);
    KeyActionsSnoc(received, i);
    var acts := KeyActions(received[..i + 1]);
    if received[i].KeyAction? {
      assert acts[|acts| - 1] == received[i].act;
      BatchesSnoc(variants, decode, acts, |acts| - 1);
      assert acts[..|acts| - 1] == KeyActions(received[..i]);
      assert acts[..|acts|] == acts;
    } else {
      assert acts == KeyActions(received[..i]);
    }
  }

  /** One turn of the emitter loop on a key action: its batch is written. */
  lemma EmitKey(variants: seq<Key>, decode: string -> Option<UinputKey>, received: seq<Received>,
                i: nat, written: seq<seq<RawEvent>>)
    requires KeysIn(variants, KeyActions(received)) && i < |received| && received[i].KeyAction?
    requires Written(variants, decode, received, i, written)
    ensures received[i].act.key in variants
    ensures Written(variants, decode, received, i + 1, written + [Batch(variants, decode, received[i].act)])
  {
    BatchesTurn(variants, decode, received, i);
  }

  /** One turn of the emitter loop on any other action: nothing is written. */
  lemma EmitNonKey(variants: seq<Key>, decode: string -> Option<UinputKey>, received: seq<Received>,
                   i: nat, written: seq<seq<RawEvent>>)
    requires KeysIn(variants, KeyActions(received)) && i < |received| && received[i].NonKey?
    requires Written(variants, decode, received, i, written)
    ensures Written(variants, decode, received, i + 1, written)
  {
    BatchesTurn(variants, decode, received, i);
  }

  /** The emitter loop over the actions received: each key action becomes one batch, which
      is written exactly once; a failed write is logged and the loop goes on with the next
      action; any other action writes nothing. `write(k)` answers the `k`-th write call;
      `written` are the batches passed to `write`, `logged` the errors printed. */
  method EmitActions(variants: seq<Key>, decode: string -> Option<UinputKey>, received: seq<Received>,
                     write: nat -> Option<IoError>)
    returns (written: seq<seq<RawEvent>>, logged: seq<IoError>)
    requires KeysIn(variants, KeyActions(received))
    ensures written == Batches(variants, decode, KeyActions(received))
    ensures logged == Errors(write, |written|)
  {
    var table := KeyTable(variants, decode);
    written, logged := [], [];
    var i := 0;
    while i < |received|
      invariant Written(variants, decode, received, i, written)
      invariant logged == Errors(write, |written|)
    {
      if received[i].KeyAction? {
        EmitKey(variants, decode, received, i, written);
      } else {
        EmitNonKey(variants, decode, received, i, written);
      }
      var events := BuildBatch(table, variants, decode, received[i]);
      if |events| > 0 {
        var r := write(|written|);
        written := written + [events];
        if r.Some? {
          logged := logged + [r.value];
        }
      }
      i := i + 1;
    }
    assert received[..i] == received;
  }

  /** Whether every setup call succeeds, with `n` key bits to register. */
  ghost predicate SetupSucceeds(u: Uinput, n: nat) {
    u.open.None? && u.setEvbit.None? && FirstError(u.setKeybit, 0, n).None? && u.create.None?
  }

  /** `linux_actions_task`: sets up the virtual device (open, event bit, one key bit per
      variant, create), returning the first error; then translates every key action received
      into one written batch, skipping any other action, until the channel is disconnected,
      and destroys the device. While the channel stays open the task stays blocked on it. */
  method LinuxActionsTask(variants: seq<Key>, decode: string -> Option<UinputKey>, u: Uinput,
                          received: seq<Received>, closed: bool)
    returns (keybits: seq<UinputKey>, written: seq<seq<RawEvent>>, logged: seq<IoError>, exit: Exit<IoError>)
    requires KeysIn(variants, KeyActions(received))
    ensures SetupSucceeds(u, |variants|) ==>
      && keybits == KeyTable(variants, decode)
      && written == Batches(variants, decode, KeyActions(received))
      && logged == Errors(u.write, |KeyActions(received)|)
      && exit == (if !closed then Blocked
                  else if u.destroy.Some? then Returned(Err(u.destroy.value)) else Returned(Ok(())))
    ensures !SetupSucceeds(u, |variants|) ==> written == [] && logged == [] && exit.Returned? && exit.result.Err?
    ensures u.open.Some? ==> exit == Returned(Err(u.open.value))
    ensures u.open.None? && u.setEvbit.Some? ==> exit == Returned(Err(u.setEvbit.value))
    ensures u.open.None? && u.setEvbit.None? && FirstError(u.setKeybit, 0, |variants|).Some? ==>
      exit == Returned(Err(FirstError(u.setKeybit, 0, |variants|).value))
    ensures u.open.None? && u.setEvbit.None? && FirstError(u.setKeybit, 0, |variants|).None? && u.create.Some? ==>
      exit == Returned(Err(u.create.value))
  {
    keybits, written, logged := [], [], [];
    if u.open.Some? {
      return keybits, written, logged, Returned(Err(u.open.value));
    }
    if u.setEvbit.Some? {
      return keybits, written, logged, Returned(Err(u.setEvbit.value));
    }
    var err;
    keybits, err := RegisterKeys(variants, decode, u.setKeybit);
    if err.Some? {
      return keybits, written, logged, Returned(Err(err.value));
    }
    if u.create.Some? {
      return keybits, written, logged, Returned(Err(u.create.value));
    }
    written, logged := EmitActions(variants, decode, received, u.write);
    if !closed {
      return keybits, written, logged, Blocked;
    }
    if u.destroy.Some? {
      exit := Returned(Err(u.destroy.value));
    } else {
      exit := Returned(Ok(()));
    }
  }
}
