/** The current resolution step (src/state.rs): a stateless filter from controller
    events to key actions, run as a loop over the input channel. */
module State {
  import opened Wrappers
  import opened Types

  /** The per-event match: a press or release of button A on any device becomes a
      press or release of `Key::A`; everything else is dropped. */
  function Resolve(ev: InputEvent): (r: Option<Action<Key>>)
    ensures r == Some(KeyDown(KeyA)) <==> ev.ButtonDown? && ev.button == Button.A
    ensures r == Some(KeyUp(KeyA)) <==> ev.ButtonUp? && ev.button == Button.A
    ensures r.None? <==> !(ev.ButtonDown? || ev.ButtonUp?) || ev.button != Button.A
  {
    match ev
    case ButtonDown(_, btn) => if btn == Button.A then Some(KeyDown(KeyA)) else None
    case ButtonUp(_, btn) => if btn == Button.A then Some(KeyUp(KeyA)) else None
    case _ => None
  }

  /** The same event, attributed to device `d`. */
  function OnDevice(ev: InputEvent, d: U32): InputEvent {
    match ev
    case ButtonDown(_, b) => ButtonDown(d, b)
    case ButtonUp(_, b) => ButtonUp(d, b)
    case AxisMotion(_, a, v) => AxisMotion(d, a, v)
    case Added(_, n) => Added(d, n)
    case Removed(_) => Removed(d)
  }

  /** The device id never affects the resolution. */
  lemma ResolveIgnoresDevice(ev: InputEvent, d: U32)
    ensures Resolve(OnDevice(ev, d)) == Resolve(ev)
  {
  }

  /** The actions a stream of events resolves to, in order, when every send succeeds. */
  function Resolved(events: seq<InputEvent>): (acts: seq<Action<Key>>)
    ensures |acts| <= |events|
    decreases |events|
  {
    if events == [] then [] else Emitted(events[0]) + Resolved(events[1..])
  }

  /** The actions one event resolves to: none or one. */
  function Emitted(ev: InputEvent): (acts: seq<Action<Key>>)
    ensures |acts| <= 1
    ensures |acts| == 1 <==> Resolve(ev).Some?
    ensures |acts| == 1 ==> acts[0] == Resolve(ev).value
  {
    match Resolve(ev) case Some(a) => [a] case None => []
  }

  /** Resolution distributes over concatenation: outputs keep the order of their inputs. */
  lemma {:induction false} ResolvedAppend(s: seq<InputEvent>, t: seq<InputEvent>)
    ensures Resolved(s + t) == Resolved(s) + Resolved(t)
    decreases |s|
  {
    if s == [] {
      assert s + t == t;
    } else {
      assert (s + t)[1..] == s[1..] + t;
      ResolvedAppend(s[1..], t);
    }
  }

  /** Every resolved action is a press or release of `Key::A`, and each one comes from a
      press or release of button A at a position no earlier than the action's own. */
  lemma {:induction false} ResolvedOnlyKeyA(events: seq<InputEvent>, k: nat)
    requires k < |Resolved(events)|
    ensures Resolved(events)[k] == KeyDown(KeyA) || Resolved(events)[k] == KeyUp(KeyA)
    ensures exists i :: k <= i < |events| && Resolve(events[i]) == Some(Resolved(events)[k])
    decreases |events|
  {
    var head := Emitted(events[0]);
    if k < |head| {
      assert Resolve(events[0]) == Some(Resolved(events)[k]);
    } else {
      ResolvedOnlyKeyA(events[1..], k - |head|);
      var i :| k - |head| <= i < |events[1..]| && Resolve(events[1..][i]) == Some(Resolved(events[1..])[k - |head|]);
      assert Resolve(events[i + 1]) == Some(Resolved(events)[k]);
    }
  }

  /** The receive error of a disconnected channel. */
  datatype RecvError = RecvError

  /** What `state_task` did: the actions it delivered, how many events it took from the
      channel, and how it ended. */
  datatype StateTrace = StateTrace(sent: seq<Action<Key>>, consumed: nat, exit: Exit<RecvError>)

  /** The loop of `state_task` as a function: `events` are what the channel yields in order;
      after them the channel is disconnected when `closed`, and otherwise stays empty (the task
      stays blocked); the action receiver takes `accepts` deliveries before it is dropped. */
  function StateRun(events: seq<InputEvent>, closed: bool, accepts: Option<nat>): (t: StateTrace)
    ensures t.consumed <= |events|
    ensures |t.sent| <= t.consumed
    decreases |events|
  {
    if events == [] then StateTrace([], 0, if closed then Returned(Err(RecvError)) else Blocked)
    else match Resolve(events[0])
      case None =>
        var rest := StateRun(events[1..], closed, accepts);
        StateTrace(rest.sent, rest.consumed + 1, rest.exit)
      case Some(a) =>
        if accepts == Some(0) then StateTrace([], 1, Returned(Ok(())))
        else
          var rest := StateRun(events[1..], closed, Less(accepts));
          StateTrace([a] + rest.sent, rest.consumed + 1, rest.exit)
  }

  /** When every send succeeds, all events are consumed, every resolved action is
      delivered in order, and the task ends with the channel: returning the receive error
      if it was disconnected, and still blocked otherwise. */
  lemma {:induction false} StateRunDelivers(events: seq<InputEvent>, closed: bool, accepts: Option<nat>)
    requires Takes(accepts, |Resolved(events)|)
    ensures StateRun(events, closed, accepts)
         == StateTrace(Resolved(events), |events|, if closed then Returned(Err(RecvError)) else Blocked)
    decreases |events|
  {
    if events != [] {
      match Resolve(events[0])
      case None => StateRunDelivers(events[1..], closed, accepts);
      case Some(a) => StateRunDelivers(events[1..], closed, Less(accepts));
    }
  }

  /** When the receiver is gone before all actions are delivered, the loop stops at the
      first failed send and returns `Ok(())`: exactly the first `n` actions were delivered,
      and no event after the one whose action could not be sent was taken from the channel. */
  lemma {:induction false} StateRunStops(events: seq<InputEvent>, closed: bool, n: nat)
    requires n < |Resolved(events)|
    ensures var t := StateRun(events, closed, Some(n));
      && t.exit == Returned(Ok(()))
      && t.sent == Resolved(events)[..n]
      && 0 < t.consumed
      && Resolve(events[t.consumed - 1]).Some?
      && Resolved(events[..t.consumed]) == Resolved(events)[..n + 1]
    decreases |events|
  {
    var head := Emitted(events[0]);
    assert Resolved(events) == head + Resolved(events[1..]);
    if |head| == 1 && n == 0 {
      StopsNow(events, closed);
    } else {
      StateRunStops(events[1..], closed, n - |head|);
      StopsAfter(events, closed, n, n - |head|);
    }
  }

  /** The first event's action is the one whose send fails. */
  lemma {:induction false} StopsNow(events: seq<InputEvent>, closed: bool)
    requires events != [] && Resolve(events[0]).Some?
    ensures var t := StateRun(events, closed, Some(0));
      && t == StateTrace([], 1, Returned(Ok(())))
      && Resolved(events[..1]) == Emitted(events[0])
  {
    StateRunStep(events, closed, Some(0));
    assert events[..1] == [events[0]];
    ResolvedSingle(events[0]);
  }

  lemma {:induction false} ResolvedSingle(ev: InputEvent)
    ensures Resolved([ev]) == Emitted(ev)
  {
    assert [ev][1..] == [];
  }

  /** The failing send lies beyond the first event: the run is the first event's delivery
      followed by the run on the rest. */
  lemma {:induction false} StopsAfter(events: seq<InputEvent>, closed: bool, n: nat, m: nat)
    requires events != [] && m + |Emitted(events[0])| == n
    requires !(|Emitted(events[0])| == 1 && n == 0)
    requires Resolved(events) == Emitted(events[0]) + Resolved(events[1..])
    requires m < |Resolved(events[1..])|
    requires var r := StateRun(events[1..], closed, Some(m));
      && r.exit == Returned(Ok(()))
      && r.sent == Resolved(events[1..])[..m]
      && 0 < r.consumed
      && Resolve(events[1..][r.consumed - 1]).Some?
      && Resolved(events[1..][..r.consumed]) == Resolved(events[1..])[..m + 1]
    ensures var t := StateRun(events, closed, Some(n));
      && t.exit == Returned(Ok(()))
      && t.sent == Resolved(events)[..n]
      && 0 < t.consumed
      && Resolve(events[t.consumed - 1]).Some?
      && Resolved(events[..t.consumed]) == Resolved(events)[..n + 1]
  {
    var head := Emitted(events[0]);
    var tail := Resolved(events[1..]);
    var r := StateRun(events[1..], closed, Some(m));
    var t := StateRun(events, closed, Some(n));
    StepDelivers(events, closed, n);
    assert t == After(head, 1, r);
    assert events[t.consumed - 1] == events[1..][r.consumed - 1];
    PrefixShift(head, tail, n, m);
    ResolvedCons(events, r.consumed);
  }

  /** When the first event's send succeeds, the run is that delivery followed by the run
      on the rest. */
  lemma StepDelivers(events: seq<InputEvent>, closed: bool, n: nat)
    requires events != [] && !(|Emitted(events[0])| == 1 && n == 0)
    ensures |Emitted(events[0])| <= n
    ensures StateRun(events, closed, Some(n))
         == After(Emitted(events[0]), 1, StateRun(events[1..], closed, Some(n - |Emitted(events[0])|)))
  {
    StateRunStep(events, closed, Some(n));
  }

  /** Prefixes of a concatenation beyond its head. */
  lemma PrefixShift<T>(head: seq<T>, tail: seq<T>, n: nat, m: nat)
    requires m + |head| == n && m < |tail|
    ensures (head + tail)[..n] == head + tail[..m]
    ensures (head + tail)[..n + 1] == head + tail[..m + 1]
  {
    assert (head + tail)[..n] == head + tail[..m];
    assert (head + tail)[..n + 1] == head + tail[..m + 1];
  }

  /** Resolving a prefix of `1 + c` events. */
  lemma {:induction false} ResolvedCons(events: seq<InputEvent>, c: nat)
    requires c < |events|
    ensures Resolved(events[..c + 1]) == Emitted(events[0]) + Resolved(events[1..][..c])
  {
    assert events[..c + 1] == [events[0]] + events[1..][..c];
    ResolvedAppend([events[0]], events[1..][..c]);
    ResolvedSingle(events[0]);
  }

  /** `t` preceded by the deliveries `sent` of `consumed` events. */
  function After(sent: seq<Action<Key>>, consumed: nat, t: StateTrace): StateTrace {
    StateTrace(sent + t.sent, consumed + t.consumed, t.exit)
  }

  /** Deliveries compose. */
  lemma AfterAfter(s1: seq<Action<Key>>, s2: seq<Action<Key>>, n1: nat, n2: nat, t: StateTrace)
    ensures After(s1, n1, After(s2, n2, t)) == After(s1 + s2, n1 + n2, t)
  {
    assert s1 + (s2 + t.sent) == (s1 + s2) + t.sent;
  }

  /** One turn of the loop. */
  lemma StateRunStep(events: seq<InputEvent>, closed: bool, accepts: Option<nat>)
    requires events != []
    ensures Resolve(events[0]).None? ==>
      StateRun(events, closed, accepts) == After([], 1, StateRun(events[1..], closed, accepts))
    ensures Resolve(events[0]).Some? && accepts == Some(0) ==>
      StateRun(events, closed, accepts) == StateTrace([], 1, Returned(Ok(())))
    ensures Resolve(events[0]).Some? && accepts != Some(0) ==>
      StateRun(events, closed, accepts) == After([Resolve(events[0]).value], 1, StateRun(events[1..], closed, Less(accepts)))
  {
  }

  /** The loop invariant of `StateTask` carried over one turn. */
  lemma Turn(events: seq<InputEvent>, closed: bool, i: nat, room: Option<nat>, sent: seq<Action<Key>>, target: StateTrace)
    requires i < |events| && target == After(sent, i, StateRun(events[i..], closed, room))
    ensures Resolve(events[i]).None? ==> target == After(sent, i + 1, StateRun(events[i + 1..], closed, room))
    ensures Resolve(events[i]).Some? && room == Some(0) ==> target == StateTrace(sent, i + 1, Returned(Ok(())))
    ensures Resolve(events[i]).Some? && room != Some(0) ==>
      target == After(sent + [Resolve(events[i]).value], i + 1, StateRun(events[i + 1..], closed, Less(room)))
  {
    assert events[i..][1..] == events[i + 1..];
    StateRunStep(events[i..], closed, room);
    if Resolve(events[i]).Some? {
      if room != Some(0) {
        AfterAfter(sent, [Resolve(events[i]).value], i, 1, StateRun(events[i + 1..], closed, Less(room)));
      }
    } else {
      AfterAfter(sent, [], i, 1, StateRun(events[i + 1..], closed, room));
      assert sent + [] == sent;
    }
  }

  /** `state_task`: takes events one at a time, resolves each, and sends the action; it
      stops at the first failed send and returns the receive error once the channel is
      disconnected. */
  method StateTask(events: seq<InputEvent>, closed: bool, accepts: Option<nat>)
    returns (sent: seq<Action<Key>>, consumed: nat, exit: Exit<RecvError>)
    ensures StateTrace(sent, consumed, exit) == StateRun(events, closed, accepts)
  {
    sent, consumed := [], 0;
    var room := accepts;
    var stopped := false;
    ghost var target := StateRun(events, closed, accepts);
    assert events[0..] == events;
    while consumed < |events| && !stopped
      invariant consumed <= |events|
      invariant !stopped ==> target == After(sent, consumed, StateRun(events[consumed..], closed, room))
      invariant stopped ==> target == StateTrace(sent, consumed, Returned(Ok(())))
      decreases |events| - consumed, if stopped then 0 else 1
    {
      Turn(events, closed, consumed, room, sent, target);
      var act := Resolve(events[consumed]);
      if act.Some? {
        if room == Some(0) {
          stopped := true;
        } else {
          sent := sent + [act.value];
          room := Less(room);
        }
      }
      consumed := consumed + 1;
    }
    if !stopped {
      assert events[consumed..] == [];
      assert target == After(sent, consumed, StateRun([], closed, room));
      assert sent + [] == sent;
    }
    if stopped {
      exit := Returned(Ok(()));
    } else if closed {
      exit := Returned(Err(RecvError));
    } else {
      exit := Blocked;
    }
  }
}
