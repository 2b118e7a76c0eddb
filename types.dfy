/** The crate's shared vocabulary (src/types.rs): controller buttons and axes,
    the normalised input events and the key actions. */
module Types {
  import opened Wrappers

  /** Rust's `u32` and `i16`. */
  type U32 = x: int | 0 <= x < 0x1_0000_0000
  type I16 = x: int | -0x8000 <= x < 0x8000

  /** Controller buttons, in declaration order. */
  datatype Button =
    | A | B | X | Y
    | Back | Guide | Start
    | LeftStick | RightStick
    | LeftShoulder | RightShoulder
    | DPadUp | DPadDown | DPadLeft | DPadRight
    | Misc1
    | Paddle1 | Paddle2 | Paddle3 | Paddle4
    | Touchpad

  /** Controller axes, in declaration order. */
  datatype Axis = LeftX | LeftY | RightX | RightY | TriggerLeft | TriggerRight

  /** A normalised controller event; the first field is the SDL device id.
      Rust's `InputEvent::Axis` is `AxisMotion` here, since `Axis` names the axis type. */
  datatype InputEvent =
    | ButtonDown(which: U32, button: Button)
    | ButtonUp(which: U32, button: Button)
    | AxisMotion(which: U32, axis: Axis, value: I16)
    | Added(which: U32, name: string)
    | Removed(which: U32)

  /** A key action. The snapshot has two key types: the action of src/types.rs carries
      `input_linux::Key` (what src/actions.rs consumes), while src/state.rs and src/linux.rs
      use the crate's own `Key` enum. `K` is whichever key type is in use. */
  datatype Action<K> = KeyDown(key: K) | KeyUp(key: K)

  /** A variant of the crate's own `Key` enum, identified by its variant name (the name
      serde writes for it). The list of variants is not part of this model; where it
      matters it is a parameter, in `Key::iter()` order. */
  datatype Key = Key(name: string)

  /** `Key::A`, the only key the resolution step emits. */
  const KeyA: Key := Key("A")

  /** How a task's thread ends: still blocked on a channel or an event source after the
      modelled input ran out, returned with a `Result`, or panicked. */
  datatype Exit<E> = Blocked | Returned(result: Result<(), E>) | Panicked

  /* A channel's receiving side is modelled by how many deliveries it takes before it is
     dropped: `Some(n)` for `n`, `None` when it never goes away. */

  /** One fewer delivery left. */
  function Less(accepts: Option<nat>): (r: Option<nat>)
    ensures accepts.None? <==> r.None?
    ensures accepts.Some? && accepts.value > 0 ==> r == Some(accepts.value - 1)
  {
    match accepts
    case Some(n) => if n == 0 then Some(0) else Some(n - 1)
    case None => None
  }

  /** `k` fewer deliveries left. */
  function Spent(accepts: Option<nat>, k: nat): (r: Option<nat>)
    ensures accepts.None? <==> r.None?
    ensures accepts.Some? && k <= accepts.value ==> r == Some(accepts.value - k)
    decreases k
  {
    if k == 0 then accepts else Spent(Less(accepts), k - 1)
  }

  /** Spending `i` then `j` deliveries spends `i + j`. */
  lemma {:induction false} SpentSpent(accepts: Option<nat>, i: nat, j: nat)
    ensures Spent(Spent(accepts, i), j) == Spent(accepts, i + j)
    decreases i
  {
    if i > 0 {
      SpentSpent(Less(accepts), i - 1, j);
    }
  }

  /** Whether the receiver takes at least `n` deliveries. */
  predicate Takes(accepts: Option<nat>, n: nat) {
    accepts.None? || n <= accepts.value
  }
}
