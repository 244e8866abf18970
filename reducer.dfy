/**
  The pure specification of the pedal dashboard's event reducer: the
  "sensor_data" handler and the alert-expiry callback of the `App`
  component (Pedal_App/src/App.jsx).

  The component's state is a snapshot of its four displayed values
  (pedal, angle, active alerts, history) and its three tracking
  references (last pedal, last angle, last timestamp). `SensorStep` is
  what one sensor event does to it, `ExpireStep` what one alert timeout
  does, and `Run` folds a stream of such inputs in arrival order.
*/
module Reducer {
  import opened Wrappers

  /** Pedal codes sent by the sensor. */
  const Accelerator: int := 1
  const Brake: int := 0
  const Released: int := -1

  /** The history keeps at most this many entries (`.slice(-50)`). */
  const HistoryCap: nat := 50

  /** An alert is identified by its creation time in milliseconds. */
  type AlertId = int

  /** One payload of the "sensor_data" event. */
  datatype SensorEvent = SensorEvent(pedal: int, angle: real, timestamp: real, suddenAcceleration: bool)

  /** A logged pedal state; `time` is the raw timestamp in seconds. */
  datatype HistoryEntry = HistoryEntry(time: real, pedal: int)

  datatype State = State(
    pedal: int,
    angle: real,
    alerts: seq<AlertId>,
    history: seq<HistoryEntry>,
    lastPedal: int,
    lastAngle: Option<real>,
    lastTimestamp: Option<real>)

  /** What the dashboard can receive: a sensor event (with the id its alert
      would get), or the timeout of one alert. */
  datatype Input = SensorData(event: SensorEvent, alertId: AlertId) | AlertTimeout(id: AlertId)

  /** The state right after mounting: pedal -1, angle 0, no alerts, no
      history, last pedal -1 and no last angle or timestamp yet. */
  function Initial(): State {
    State(Released, 0.0, [], [], Released, None, None)
  }

  /** The invariant the dashboard keeps: a bounded history that never logs a
      released pedal. */
  predicate Inv(s: State) {
    && |s.history| <= HistoryCap
    && forall i :: 0 <= i < |s.history| ==> s.history[i].pedal != Released
  }

  /** `s.slice(-n)` for a positive n: the last n elements of s, or all of s
      when it is shorter. */
  function KeepLast<T>(s: seq<T>, n: nat): (r: seq<T>)
    requires 0 < n
    ensures |r| == if |s| <= n then |s| else n
    ensures forall j :: 0 <= j < |r| ==> r[j] == s[|s| - |r| + j]
  {
    if |s| <= n then s else s[|s| - n..]
  }

  /** A suffix of x is unchanged by anything put in front of x. */
  lemma SuffixOfConcat<T>(p: seq<T>, x: seq<T>, m: nat)
    requires m <= |x|
    ensures (p + x)[|p + x| - m..] == x[|x| - m..]
  {
    assert (p + x)[|p|..] == x;
    assert (p + x)[|p + x| - m..] == (p + x)[|p|..][|x| - m..];
  }

  /** Keeping the last n after every append is the same as keeping the last
      n once at the end. */
  lemma KeepLastAppend<T>(s: seq<T>, t: seq<T>, n: nat)
    requires 0 < n
    ensures KeepLast(KeepLast(s, n) + t, n) == KeepLast(s + t, n)
  {
    if |s| > n {
      var k := s[|s| - n..];
      var p := s[..|s| - n];
      assert s == p + k;
      assert s + t == p + (k + t);
      if t == [] {
        assert k + t == k;
        assert s + t == s;
      } else {
        SuffixOfConcat(p, k + t, n);
      }
    }
  }

  /** `alerts.filter((a) => a !== id)`: every occurrence of id is dropped,
      the other ids keep their multiplicity. */
  function Without(alerts: seq<AlertId>, id: AlertId): (r: seq<AlertId>)
    ensures id !in r
    ensures forall a :: a != id ==> multiset(r)[a] == multiset(alerts)[a]
    ensures |r| <= |alerts|
  {
    if alerts == [] then []
    else
      assert alerts == [alerts[0]] + alerts[1..];
      if alerts[0] == id then Without(alerts[1..], id)
    else [alerts[0]] + Without(alerts[1..], id)
  }

  /** Filtering distributes over concatenation, so the remaining ids keep
      their original order. */
  lemma {:induction false} WithoutConcat(a: seq<AlertId>, b: seq<AlertId>, id: AlertId)
    ensures Without(a + b, id) == Without(a, id) + Without(b, id)
  {
    if a == [] {
      assert a + b == b;
    } else {
      assert (a + b)[0] == a[0];
      assert (a + b)[1..] == a[1..] + b;
      WithoutConcat(a[1..], b, id);
    }
  }

  /** Filtering out an id that is not there changes nothing. */
  lemma {:induction false} WithoutAbsent(alerts: seq<AlertId>, id: AlertId)
    requires id !in alerts
    ensures Without(alerts, id) == alerts
  {
    if alerts != [] {
      WithoutAbsent(alerts[1..], id);
    }
  }

  /** Raising a fresh alert and letting it time out restores the alerts. */
  lemma RaiseThenExpire(alerts: seq<AlertId>, id: AlertId)
    requires id !in alerts
    ensures Without(alerts + [id], id) == alerts
  {
    WithoutConcat(alerts, [id], id);
    WithoutAbsent(alerts, id);
  }

  /** The tracked last pedal once the handler has reset it to -1 for a
      released-pedal event. */
  function TrackedPedal(s: State, e: SensorEvent): int {
    if e.pedal == Released then Released else s.lastPedal
  }

  /** The duplicate check: same pedal as tracked, unchanged angle, and the
      same timestamp as the last accepted event. */
  predicate Suppressed(s: State, e: SensorEvent) {
    && e.pedal == TrackedPedal(s, e)
    && s.lastAngle == Some(e.angle)
    && s.lastTimestamp == Some(e.timestamp)
  }

  /** Whether an accepted event raises an alert. */
  predicate RaisesAlert(e: SensorEvent) {
    e.suddenAcceleration && e.pedal == Accelerator
  }

  /** What one sensor event does to the state: the angle is always taken,
      a released pedal resets the tracked pedal, a suppressed event stops
      there, and an accepted one sets the pedal, may raise an alert, may log
      a history entry and updates the tracking references. */
  function SensorStep(s: State, e: SensorEvent, id: AlertId): State {
    var seen := s.(angle := e.angle, lastAngle := Some(e.angle), lastPedal := TrackedPedal(s, e));
    if Suppressed(s, e) then seen
    else seen.(
      pedal := e.pedal,
      alerts := if RaisesAlert(e) then s.alerts + [id] else s.alerts,
      history := if e.pedal != Released then KeepLast(s.history + [HistoryEntry(e.timestamp, e.pedal)], HistoryCap)
                 else s.history,
      lastPedal := e.pedal,
      lastTimestamp := Some(e.timestamp))
  }

  /** What the timeout of one alert does: it drops that id and nothing else. */
  function ExpireStep(s: State, id: AlertId): State {
    s.(alerts := Without(s.alerts, id))
  }

  function Apply(s: State, input: Input): State {
    match input
    case SensorData(e, id) => SensorStep(s, e, id)
    case AlertTimeout(id) => ExpireStep(s, id)
  }

  /** The state after a stream of inputs handled in arrival order. */
  function Run(s: State, inputs: seq<Input>): State
    decreases |inputs|
  {
    if inputs == [] then s else Run(Apply(s, inputs[0]), inputs[1..])
  }

  /** The history entry one input logs, if any. */
  function Appended(s: State, input: Input): seq<HistoryEntry> {
    match input
    case SensorData(e, _) =>
      if !Suppressed(s, e) && e.pedal != Released then [HistoryEntry(e.timestamp, e.pedal)] else []
    case AlertTimeout(_) => []
  }

  /** Every history entry a stream of inputs logs, in arrival order. */
  function Logged(s: State, inputs: seq<Input>): seq<HistoryEntry>
    decreases |inputs|
  {
    if inputs == [] then [] else Appended(s, inputs[0]) + Logged(Apply(s, inputs[0]), inputs[1..])
  }

  // ---------------------------------------------------------------------
  // One sensor event
  // ---------------------------------------------------------------------

  /** Every event, suppressed or not, moves the displayed angle and the
      tracked last angle to the incoming angle. */
  lemma AngleAlwaysTaken(s: State, e: SensorEvent, id: AlertId)
    ensures SensorStep(s, e, id).angle == e.angle
    ensures SensorStep(s, e, id).lastAngle == Some(e.angle)
  {
  }

  /** The exact suppression condition, with the -1 reset folded in. */
  lemma SuppressedExactly(s: State, e: SensorEvent)
    ensures Suppressed(s, e) <==>
      && (e.pedal == Released || e.pedal == s.lastPedal)
      && s.lastAngle == Some(e.angle)
      && s.lastTimestamp == Some(e.timestamp)
  {
  }

  /** A suppressed event leaves the pedal, alerts, history and tracked
      timestamp as they were. */
  lemma SuppressedFrame(s: State, e: SensorEvent, id: AlertId)
    requires Suppressed(s, e)
    ensures var t := SensorStep(s, e, id);
      && t.pedal == s.pedal
      && t.alerts == s.alerts
      && t.history == s.history
      && t.lastTimestamp == s.lastTimestamp
      && t.lastPedal == e.pedal
  {
  }

  /** An accepted event sets the pedal, and the tracked pedal and timestamp
      become the incoming ones. */
  lemma AcceptedUpdatesTracking(s: State, e: SensorEvent, id: AlertId)
    requires !Suppressed(s, e)
    ensures var t := SensorStep(s, e, id);
      && t.pedal == e.pedal
      && t.lastPedal == e.pedal
      && t.lastTimestamp == Some(e.timestamp)
  {
  }

  /** An accepted event appends exactly one alert id exactly when it reports
      a sudden acceleration with the accelerator pressed; otherwise the
      alerts stay as they were. */
  lemma AlertRaisedExactly(s: State, e: SensorEvent, id: AlertId)
    requires !Suppressed(s, e)
    ensures var t := SensorStep(s, e, id);
      && (e.suddenAcceleration && e.pedal == Accelerator ==> t.alerts == s.alerts + [id])
      && (!(e.suddenAcceleration && e.pedal == Accelerator) ==> t.alerts == s.alerts)
  {
  }

  /** An accepted event logs exactly one entry, carrying its pedal and
      timestamp, exactly when its pedal is not -1; the oldest entries are
      dropped past the cap. */
  lemma HistoryLoggedExactly(s: State, e: SensorEvent, id: AlertId)
    requires Inv(s)
    requires !Suppressed(s, e)
    ensures var t := SensorStep(s, e, id);
      && (e.pedal != Released ==>
            && t.history[|t.history| - 1] == HistoryEntry(e.timestamp, e.pedal)
            && t.history[..|t.history| - 1] == (if |s.history| < HistoryCap then s.history else s.history[1..]))
      && (e.pedal == Released ==> t.history == s.history)
  {
    var t := SensorStep(s, e, id);
    if e.pedal != Released {
      var entry := HistoryEntry(e.timestamp, e.pedal);
      if |s.history| == HistoryCap {
        assert t.history == (s.history + [entry])[1..];
        assert (s.history + [entry])[1..] == s.history[1..] + [entry];
      }
    }
  }

  /** The very first event (no angle tracked yet) is never suppressed. */
  lemma FirstEventAccepted(s: State, e: SensorEvent)
    requires s.lastAngle == None
    ensures !Suppressed(s, e)
  {
  }

  /** A released-pedal event always leaves -1 as the tracked pedal; when its
      angle and timestamp repeat the previous ones it is suppressed and the
      displayed pedal keeps its old value, whatever that was. */
  lemma ReleasedEventTracking(s: State, e: SensorEvent, id: AlertId)
    requires e.pedal == Released
    ensures SensorStep(s, e, id).lastPedal == Released
    ensures s.lastAngle == Some(e.angle) && s.lastTimestamp == Some(e.timestamp) ==>
      Suppressed(s, e) && SensorStep(s, e, id).pedal == s.pedal
  {
  }

  /** After a released-pedal event, the next pressed-pedal event is never
      suppressed, whatever its angle and timestamp. */
  lemma PressAfterReleaseAccepted(s: State, e1: SensorEvent, id: AlertId, e2: SensorEvent)
    requires e1.pedal == Released && e2.pedal != Released
    ensures !Suppressed(SensorStep(s, e1, id), e2)
  {
  }

  /** An exact repeat of the previous event changes nothing: no history
      entry, no alert, no other change. */
  lemma RepeatIsNoOp(s: State, e: SensorEvent, id1: AlertId, id2: AlertId)
    ensures Suppressed(SensorStep(s, e, id1), e)
    ensures SensorStep(SensorStep(s, e, id1), e, id2) == SensorStep(s, e, id1)
  {
  }

  // ---------------------------------------------------------------------
  // Streams of inputs
  // ---------------------------------------------------------------------

  /** Every input keeps the invariant: at most 50 history entries, none of
      them for a released pedal. */
  lemma ApplyKeepsInv(s: State, input: Input)
    requires Inv(s)
    ensures Inv(Apply(s, input))
  {
    if input.SensorData? && !Suppressed(s, input.event) && input.event.pedal != Released {
      var e := input.event;
      var t := Apply(s, input);
      var grown := s.history + [HistoryEntry(e.timestamp, e.pedal)];
      assert t.history == KeepLast(grown, HistoryCap);
      forall i | 0 <= i < |t.history|
        ensures t.history[i].pedal != Released
      {
        assert t.history[i] == grown[|grown| - |t.history| + i];
      }
    }
  }

  /** The history after one input is the cap applied to the old history plus
      what the input logged. */
  lemma ApplyHistory(s: State, input: Input)
    requires |s.history| <= HistoryCap
    ensures Apply(s, input).history == KeepLast(s.history + Appended(s, input), HistoryCap)
  {
    assert s.history + [] == s.history;
  }

  /** The history after a stream of inputs holds the last 50 of everything
      logged, in arrival order, oldest first. */
  lemma {:induction false} RunHistory(s: State, inputs: seq<Input>)
    requires |s.history| <= HistoryCap
    ensures Run(s, inputs).history == KeepLast(s.history + Logged(s, inputs), HistoryCap)
    decreases |inputs|
  {
    if inputs == [] {
      assert s.history + [] == s.history;
    } else {
      var s1 := Apply(s, inputs[0]);
      var a := Appended(s, inputs[0]);
      var rest := Logged(s1, inputs[1..]);
      calc {
        Run(s, inputs).history;
        Run(s1, inputs[1..]).history;
        { RunHistory(s1, inputs[1..]); }
        KeepLast(s1.history + rest, HistoryCap);
        { ApplyHistory(s, inputs[0]); }
        KeepLast(KeepLast(s.history + a, HistoryCap) + rest, HistoryCap);
        { KeepLastAppend(s.history + a, rest, HistoryCap); }
        KeepLast(s.history + a + rest, HistoryCap);
        { assert s.history + a + rest == s.history + (a + rest); }
        KeepLast(s.history + Logged(s, inputs), HistoryCap);
      }
    }
  }

  /** Once a stream has logged at least 50 entries, the history is exactly
      the 50 most recent of them. */
  lemma RunHistoryLast50(s: State, inputs: seq<Input>)
    requires |s.history| <= HistoryCap
    requires |Logged(s, inputs)| >= HistoryCap
    ensures var logged := Logged(s, inputs);
      Run(s, inputs).history == logged[|logged| - HistoryCap..]
  {
    var logged := Logged(s, inputs);
    var all := s.history + logged;
    RunHistory(s, inputs);
    assert KeepLast(all, HistoryCap) == all[|all| - HistoryCap..];
    SuffixOfConcat(s.history, logged, HistoryCap);
  }

  /** An alert stays active through any inputs that do not include its own
      timeout. */
  lemma {:induction false} AlertPersists(s: State, inputs: seq<Input>, id: AlertId)
    requires id in s.alerts
    requires forall k :: 0 <= k < |inputs| ==> inputs[k] != AlertTimeout(id)
    ensures id in Run(s, inputs).alerts
    decreases |inputs|
  {
    if inputs != [] {
      var s1 := Apply(s, inputs[0]);
      match inputs[0] {
        case SensorData(e, aid) =>
          assert id in s1.alerts;
        case AlertTimeout(other) =>
          assert other != id by { assert inputs[0] != AlertTimeout(id); }
          assert multiset(s1.alerts)[id] == multiset(s.alerts)[id];
      }
      assert forall k :: 0 <= k < |inputs[1..]| ==> inputs[1..][k] == inputs[k + 1];
      AlertPersists(s1, inputs[1..], id);
    }
  }

  /** The timeout of an alert removes it and changes nothing else. */
  lemma TimeoutRemovesAlert(s: State, id: AlertId)
    ensures var t := Apply(s, AlertTimeout(id));
      && id !in t.alerts
      && t.(alerts := s.alerts) == s
  {
  }
}
