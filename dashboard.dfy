/**
  The `App` component's state as an object: its displayed values and its
  tracking references are fields, and the "sensor_data" handler and the
  alert-expiry callback are methods that update them step by step.
  React's state setters and functional updaters become direct, sequential
  assignments; each method is proved against the pure reducer.
*/
module Dashboard {
  import opened Wrappers
  import opened Reducer

  class App {
    // displayed state (`useState`)
    var pedal: int
    var angle: real
    var alerts: seq<AlertId>
    var history: seq<HistoryEntry>
    // tracking references (`useRef`)
    var lastPedal: int
    var lastAngle: Option<real>
    var lastTimestamp: Option<real>

    /** The object's state as a value of the reducer's state type. */
    function Snapshot(): State
      reads this
    {
      State(pedal, angle, alerts, history, lastPedal, lastAngle, lastTimestamp)
    }

    ghost predicate Valid()
      reads this
    {
      Inv(Snapshot())
    }

    /** Mounting: pedal -1, angle 0, no alerts, no history, tracked pedal -1,
        nothing tracked for angle and timestamp. */
    constructor ()
      ensures Valid()
      ensures Snapshot() == Initial()
    {
      pedal, angle, alerts, history := Released, 0.0, [], [];
      lastPedal, lastAngle, lastTimestamp := Released, None, None;
    }

    /** The "sensor_data" handler; `alertId` stands for the `Date.now()`
        value an alert raised by this event would get. */
    method OnSensorData(data: SensorEvent, alertId: AlertId)
      requires Valid()
      modifies this
      ensures Valid()
      ensures Snapshot() == SensorStep(old(Snapshot()), data, alertId)
    {
      ghost var before := Snapshot();
      var angleChanged := lastAngle != Some(data.angle);
      angle := data.angle;
      lastAngle := Some(data.angle);

      if data.pedal == Released {
        lastPedal := Released;
      }

      if data.pedal == lastPedal && !angleChanged {
        if lastTimestamp == Some(data.timestamp) {
          return;
        }
      }

      pedal := data.pedal;

      if data.suddenAcceleration && data.pedal == Accelerator {
        alerts := alerts + [alertId];
      }

      if data.pedal != Released {
        history := KeepLast(history + [HistoryEntry(data.timestamp, data.pedal)], HistoryCap);
      }

      lastPedal := data.pedal;
      lastTimestamp := Some(data.timestamp);
      ApplyKeepsInv(before, SensorData(data, alertId));
    }

    /** The timer callback of an alert: drop its id from the active alerts. */
    method ExpireAlert(id: AlertId)
      requires Valid()
      modifies this
      ensures Valid()
      ensures Snapshot() == ExpireStep(old(Snapshot()), id)
    {
      alerts := Without(alerts, id);
    }
  }
}
