/**
  Concrete event sequences for the pedal dashboard, stated against the
  reducer and, for one of them, against the `App` object.
*/
module Scenarios {
  import opened Wrappers
  import opened Reducer
  import Dashboard

  /** The same sudden-acceleration event delivered twice logs one entry and
      raises one alert, not two. */
  lemma DuplicateSuddenAcceleration()
    ensures var e := SensorEvent(1, 5.0, 100.0, true);
      var s2 := SensorStep(SensorStep(Initial(), e, 1000), e, 1001);
      && s2.history == [HistoryEntry(100.0, 1)]
      && s2.alerts == [1000]
  {
    var e := SensorEvent(1, 5.0, 100.0, true);
    var s1 := SensorStep(Initial(), e, 1000);
    assert !Suppressed(Initial(), e);
    assert s1.history == [HistoryEntry(100.0, 1)];
    assert Suppressed(s1, e);
  }

  /** A released-pedal event with the same angle and timestamp as the
      previous press is suppressed, so the display still says "accelerator";
      the press after it is accepted again and logged a second time. */
  lemma ReleaseWithRepeatedTimestamp()
    ensures var press, release := SensorEvent(1, 5.0, 100.0, false), SensorEvent(-1, 5.0, 100.0, false);
      var s1 := SensorStep(Initial(), press, 0);
      var s2 := SensorStep(s1, release, 0);
      var s3 := SensorStep(s2, press, 0);
      && Suppressed(s1, release)
      && s2.pedal == Accelerator
      && s2.lastPedal == Released
      && !Suppressed(s2, press)
      && s3.history == [HistoryEntry(100.0, 1), HistoryEntry(100.0, 1)]
  {
    var press, release := SensorEvent(1, 5.0, 100.0, false), SensorEvent(-1, 5.0, 100.0, false);
    var s1 := SensorStep(Initial(), press, 0);
    assert s1.history == [HistoryEntry(100.0, 1)];
    var s2 := SensorStep(s1, release, 0);
    assert Suppressed(s1, release);
    assert s2.history == s1.history;
  }

  /** An alert is raised, survives an unrelated event, and is gone after
      its own timeout. */
  lemma AlertLifecycle()
    ensures var raise, brake := SensorEvent(1, 12.0, 200.0, true), SensorEvent(0, 3.0, 201.0, false);
      var s1 := Run(Initial(), [SensorData(raise, 7000)]);
      var s2 := Run(Initial(), [SensorData(raise, 7000), SensorData(brake, 7100)]);
      var s3 := Run(Initial(), [SensorData(raise, 7000), SensorData(brake, 7100), AlertTimeout(7000)]);
      && s1.alerts == [7000]
      && s2.alerts == [7000]
      && s3.alerts == []
      && s3.pedal == Brake
  {
    var raise, brake := SensorEvent(1, 12.0, 200.0, true), SensorEvent(0, 3.0, 201.0, false);
    var s1 := SensorStep(Initial(), raise, 7000);
    var s2 := SensorStep(s1, brake, 7100);
    var inputs := [SensorData(raise, 7000), SensorData(brake, 7100), AlertTimeout(7000)];
    assert s1.alerts == [7000] && s2.alerts == [7000];
    assert Without([7000], 7000) == [] by {
      assert Without([], 7000) == [];
    }
    calc {
      Run(Initial(), inputs[..2]);
      { assert inputs[..2][1..] == inputs[1..2]; }
      Run(s1, inputs[1..2]);
      { assert inputs[1..2][1..] == []; }
      Run(s2, []);
    }
    calc {
      Run(Initial(), inputs);
      { assert inputs[1..][1..] == inputs[2..]; }
      Run(s2, inputs[2..]);
      { assert inputs[2..][1..] == []; }
      ExpireStep(s2, 7000);
    }
    assert inputs[..2] == [SensorData(raise, 7000), SensorData(brake, 7100)];
    assert Run(Initial(), [SensorData(raise, 7000)]) == s1;
  }

  /** What a caller of the `App` object can conclude from the methods'
      contracts alone: a repeated event leaves the object as it was. */
  method RepeatedEventOnApp()
  {
    var app := new Dashboard.App();
    var e := SensorEvent(0, 8.0, 300.0, false);
    app.OnSensorData(e, 1);
    var once := app.Snapshot();
    app.OnSensorData(e, 2);
    RepeatIsNoOp(Initial(), e, 1, 2);
    assert app.Snapshot() == once;
    assert once.history == [HistoryEntry(300.0, 0)];
  }
}
