/** The part of the `input_linux` crate the emitters use: its key type, the raw events
    written to `/dev/uinput`, and the answers of the uinput system calls. */
module InputLinux {
  import opened Wrappers

  /** A variant of `input_linux::Key`, identified by its variant name. */
  datatype UinputKey = UinputKey(name: string)

  /** `input_linux::Key::Unknown`, the fallback of the key table. */
  const Unknown: UinputKey := UinputKey("Unknown")

  /** `input_linux::Key::A`. */
  const KeyA: UinputKey := UinputKey("A")

  /** `EventTime`: seconds and microseconds. */
  datatype EventTime = EventTime(seconds: int, microseconds: int)

  /** The timestamp every emitted event carries. */
  const ZERO: EventTime := EventTime(0, 0)

  /** `KeyState`: a press or a release. */
  datatype KeyState = Pressed | Released

  /** `SynchronizeKind`; the emitters only use `Report` (SYN_REPORT). */
  datatype SynchronizeKind = Report

  /** A raw event as passed to the uinput write: a key event or a synchronisation event. */
  datatype RawEvent =
    | KeyEvent(time: EventTime, key: UinputKey, state: KeyState)
    | SynchronizeEvent(time: EventTime, kind: SynchronizeKind, value: int)

  /** The SYN_REPORT closing every batch. */
  const SyncReport: RawEvent := SynchronizeEvent(ZERO, Report, 0)

  /** A batch as the emitters write it: key events, then exactly one sync report, which is
      last, with every event at time zero. */
  ghost predicate IsReport(batch: seq<RawEvent>) {
    && |batch| >= 1
    && batch[|batch| - 1] == SyncReport
    && (forall i :: 0 <= i < |batch| - 1 ==> batch[i].KeyEvent?)
    && (forall i :: 0 <= i < |batch| ==> batch[i].time == ZERO)
  }

  /** `io::Error`. */
  datatype IoError = IoError(message: string)

  /** What the uinput system calls answer (`None` is success). Calls made more than once
      are answered by call number, counting from 0. */
  datatype Uinput = Uinput(
    open: Option<IoError>,
    setEvbit: Option<IoError>,
    setKeybit: nat -> Option<IoError>,
    create: Option<IoError>,
    write: nat -> Option<IoError>,
    destroy: Option<IoError>)

  /** The errors that the first `n` calls of `answer` report, in call order. */
  function Errors(answer: nat -> Option<IoError>, n: nat): (errs: seq<IoError>)
    ensures |errs| <= n
    ensures errs == [] <==> forall i :: 0 <= i < n ==> answer(i).None?
  {
    if n == 0 then []
    else Errors(answer, n - 1) + (if answer(n - 1).Some? then [answer(n - 1).value] else [])
  }

  /** The errors of fewer calls are a prefix of the errors of more. */
  lemma {:induction false} ErrorsPrefix(answer: nat -> Option<IoError>, m: nat, n: nat)
    requires m <= n
    ensures |Errors(answer, m)| <= |Errors(answer, n)|
    ensures Errors(answer, m) == Errors(answer, n)[..|Errors(answer, m)|]
    decreases n - m
  {
    if m < n {
      ErrorsPrefix(answer, m, n - 1);
      var e := Errors(answer, n - 1);
      assert Errors(answer, n)[..|e|] == e;
      assert Errors(answer, n)[..|Errors(answer, m)|] == e[..|Errors(answer, m)|];
    }
  }

  /** A failing call's error is logged right after the errors of the calls before it. */
  lemma ErrorsAt(answer: nat -> Option<IoError>, i: nat, n: nat)
    requires i < n && answer(i).Some?
    ensures |Errors(answer, i)| < |Errors(answer, n)|
    ensures Errors(answer, n)[|Errors(answer, i)|] == answer(i).value
  {
    ErrorsPrefix(answer, i + 1, n);
    assert Errors(answer, i + 1) == Errors(answer, i) + [answer(i).value];
  }

  /** Every logged error is the error of a failing call: the `k`-th is that of the call with
      exactly `k` failing calls before it. */
  lemma {:induction false} ErrorsFrom(answer: nat -> Option<IoError>, n: nat, k: nat)
    requires k < |Errors(answer, n)|
    ensures exists i :: 0 <= i < n && answer(i).Some? && |Errors(answer, i)| == k
                        && Errors(answer, n)[k] == answer(i).value
  {
    var e := Errors(answer, n - 1);
    if k < |e| {
      ErrorsFrom(answer, n - 1, k);
      var i :| 0 <= i < n - 1 && answer(i).Some? && |Errors(answer, i)| == k && e[k] == answer(i).value;
      assert Errors(answer, n)[k] == e[k];
    } else {
      assert answer(n - 1).Some? && |Errors(answer, n - 1)| == k;
    }
  }

  /** The error of the first of the calls `from`, ..., `n - 1` that fails, if any. */
  function FirstError(answer: nat -> Option<IoError>, from: nat, n: nat): (e: Option<IoError>)
    ensures e.None? <==> forall i :: from <= i < n ==> answer(i).None?
    ensures e.Some? ==> exists i :: from <= i < n && answer(i) == e
    decreases n - from
  {
    if from >= n then None
    else if answer(from).Some? then answer(from)
    else FirstError(answer, from + 1, n)
  }

  /** When calls before `i` succeed and call `i` fails, call `i`'s error is the first error. */
  lemma {:induction false} FirstErrorAt(answer: nat -> Option<IoError>, i: nat, n: nat)
    requires i < n && answer(i).Some?
    requires forall j :: 0 <= j < i ==> answer(j).None?
    ensures FirstError(answer, 0, n) == answer(i)
  {
    var k := i;
    while k > 0
      invariant 0 <= k <= i
      invariant FirstError(answer, k, n) == answer(i)
    {
      k := k - 1;
    }
  }
}
