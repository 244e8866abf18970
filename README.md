# Pedal dashboard: event reducer and render projections

This project models the `App` component of the pedal monitoring dashboard
(`Pedal_App/src/App.jsx`). The component receives a stream of sensor
events. Each event carries a pedal code (1 accelerator, 0 brake, -1
released), a gauge angle (0..20), a timestamp in seconds and a
sudden-acceleration flag. The component reduces these events into four
displayed values: the current pedal, the current angle, the active alerts
and a history of at most 50 entries. It also keeps three tracking
references: last pedal, last angle and last timestamp.

- `Reducer` (`reducer.dfy`) is the pure specification. `SensorStep` is one
  "sensor_data" event and `ExpireStep` is one alert timeout. `Run` folds a
  stream of both kinds of input in arrival order. The lemmas state the
  suppression rule, what each kind of event changes and leaves alone, the
  history cap, and alert persistence and expiry.
- `Dashboard` (`dashboard.dfy`) is the component as an object. Its fields
  are the displayed values and the tracking references. `OnSensorData`
  follows the handler statement by statement, early return included, and
  is proved equal to `SensorStep`. `ExpireAlert` is the timer callback's
  filter, proved equal to `ExpireStep`. Both keep the invariant `Inv`:
  at most 50 history entries, none with pedal -1.
- `View` (`view.dfy`) holds the render projections: the needle rotation,
  the alert overlay, the status text, the two pedal cards and the
  history table (last ten non-idle entries, newest first).
- `Scenarios` (`scenarios.dfy`) works through concrete event sequences.

React state setters and functional updaters are modelled as direct,
sequential assignments. The handler reads only the tracking references,
never the displayed state, so this ordering is faithful. The refs
`lastAngleRef` and `lastTimestampRef` start as `null` and are modelled as
`Option` values. `lastPedalRef` starts at -1, as in the code. Because the
last angle starts empty, the first event is never suppressed. The id an
alert would get from `Date.now()` is passed to `OnSensorData` as a
parameter. Alert ids need not be unique: a timeout removes every
occurrence of its id, just as the `filter` does.

The code resets the tracked pedal to -1 (lines 35-37) before the
duplicate check runs (lines 39-41). So a released-pedal event IS
suppressed when its angle and timestamp repeat the previous event's, and
the display then keeps showing the old pedal (for example 1). A reading
that says "a -1 event is never suppressed" does not match the code. The
model follows the code: see `Reducer.ReleasedEventTracking` and
`Scenarios.ReleaseWithRepeatedTimestamp`.

## Model

| member | source | states |
|---|---|---|
| `Reducer.KeepLast` | Pedal_App/src/App.jsx:59 | `slice(-n)` keeps min(n, length) elements, and they are a suffix of the input |
| `Reducer.KeepLastAppend` | Pedal_App/src/App.jsx:59 | capping at n after one append and again after more appends equals capping once at the end |
| `Reducer.Without` | Pedal_App/src/App.jsx:49 | the expired id no longer occurs; every other id keeps its multiplicity; nothing is added |
| `Reducer.WithoutConcat` | Pedal_App/src/App.jsx:49 | the filter distributes over concatenation, so the remaining ids keep their order |
| `Reducer.WithoutAbsent` | Pedal_App/src/App.jsx:49 | expiring an id that is not active leaves the alerts unchanged |
| `Reducer.RaiseThenExpire` | Pedal_App/src/App.jsx:45-50 | raising a fresh alert id and then expiring it restores the alerts exactly |
| `Reducer.TrackedPedal` | Pedal_App/src/App.jsx:35-37 | the tracked pedal after the reset: -1 for a released-pedal event, the last pedal otherwise; specified through `SuppressedExactly`, `ReleasedEventTracking` and `PressAfterReleaseAccepted` |
| `Reducer.Suppressed` | Pedal_App/src/App.jsx:39-40 | the duplicate check; specified through `SuppressedExactly`, `FirstEventAccepted` and `RepeatIsNoOp` |
| `Reducer.RaisesAlert` | Pedal_App/src/App.jsx:45 | an event raises an alert iff sudden acceleration with pedal 1; specified through `AlertRaisedExactly` |
| `Reducer.SensorStep` | Pedal_App/src/App.jsx:28-65 | one sensor event; specified through `AngleAlwaysTaken`, `SuppressedFrame`, `AcceptedUpdatesTracking`, `AlertRaisedExactly`, `HistoryLoggedExactly`, `ReleasedEventTracking` and `RepeatIsNoOp` |
| `Reducer.ExpireStep` | Pedal_App/src/App.jsx:49 | one alert timeout; specified through `TimeoutRemovesAlert` and the contract of `Without` |
| `Reducer.Apply` | Pedal_App/src/App.jsx:28-65 | one input, a sensor event or an alert timeout; specified through `ApplyKeepsInv` and `ApplyHistory` |
| `Reducer.Run` | Pedal_App/src/App.jsx:28-65 | sensor events and timer callbacks interleaved in arrival order; specified through `RunHistory`, `RunHistoryLast50` and `AlertPersists` |
| `Reducer.AngleAlwaysTaken` | Pedal_App/src/App.jsx:31-33 | every event, suppressed or not, sets the angle and the tracked last angle to the incoming angle |
| `Reducer.SuppressedExactly` | Pedal_App/src/App.jsx:35-41 | an event is suppressed iff (its pedal is -1 or equals the tracked pedal) and its angle equals the last angle and its timestamp equals the last timestamp |
| `Reducer.SuppressedFrame` | Pedal_App/src/App.jsx:35-41 | a suppressed event leaves pedal, alerts, history and last timestamp unchanged |
| `Reducer.AcceptedUpdatesTracking` | Pedal_App/src/App.jsx:43-64 | an accepted event sets the pedal, and the tracked pedal and timestamp become the incoming ones |
| `Reducer.AlertRaisedExactly` | Pedal_App/src/App.jsx:45-51 | an accepted event appends exactly its alert id iff sudden acceleration and pedal 1; otherwise alerts are unchanged |
| `Reducer.HistoryLoggedExactly` | Pedal_App/src/App.jsx:53-61 | an accepted event with pedal other than -1 appends one entry with its timestamp and pedal, dropping the oldest entry when 50 are held; a -1 event leaves history unchanged |
| `Reducer.FirstEventAccepted` | Pedal_App/src/App.jsx:18-41 | while no angle has been tracked (the initial `null`), no event is suppressed |
| `Reducer.ReleasedEventTracking` | Pedal_App/src/App.jsx:35-43 | a -1 event always leaves -1 as tracked pedal; with repeated angle and timestamp it is suppressed and the displayed pedal keeps its old value |
| `Reducer.PressAfterReleaseAccepted` | Pedal_App/src/App.jsx:35-41 | after a -1 event, an event with any other pedal is never suppressed |
| `Reducer.RepeatIsNoOp` | Pedal_App/src/App.jsx:31-64 | an exact repeat of the previous event is suppressed and changes nothing, whatever alert id it would get |
| `Reducer.ApplyKeepsInv` | Pedal_App/src/App.jsx:53-61 | every input keeps the history at most 50 entries long with no -1 entry |
| `Reducer.ApplyHistory` | Pedal_App/src/App.jsx:53-61 | the history after one input is the cap of the old history plus what that input logged |
| `Reducer.RunHistory` | Pedal_App/src/App.jsx:53-61 | after any stream of inputs the history is the last 50 of the old history plus every logged entry, in arrival order |
| `Reducer.RunHistoryLast50` | Pedal_App/src/App.jsx:59 | once a stream has logged 50 or more entries, the history is exactly the 50 most recent, oldest first |
| `Reducer.AlertPersists` | Pedal_App/src/App.jsx:45-50 | an active alert stays active through any inputs that do not include its own timeout |
| `Reducer.TimeoutRemovesAlert` | Pedal_App/src/App.jsx:48-50 | an alert timeout removes its id and changes no other part of the state |
| `Dashboard.App.constructor` | Pedal_App/src/App.jsx:11-19 | initial state: pedal -1, angle 0, no alerts, no history, tracked pedal -1, no tracked angle or timestamp |
| `Dashboard.App.OnSensorData` | Pedal_App/src/App.jsx:28-65 | the handler, early return included, leaves the object in exactly the state `SensorStep` gives, and keeps the invariant |
| `Dashboard.App.ExpireAlert` | Pedal_App/src/App.jsx:48-50 | the timer callback leaves the object in exactly the state `ExpireStep` gives, and keeps the invariant |
| `View.AngleToDegree` | Pedal_App/src/App.jsx:6-8 | the rotation converts back to the same sensor angle (the mapping is invertible) |
| `View.DegreeToAngleRoundTrip` | Pedal_App/src/App.jsx:6-8 | every rotation is the image of the angle the inverse gives |
| `View.AngleToDegreeAnchors` | Pedal_App/src/App.jsx:6-8 | angles 0, 10 and 20 map to -90, 0 and 90 |
| `View.AngleToDegreeLinear` | Pedal_App/src/App.jsx:6-8 | linear with slope 9, strictly increasing, and maps exactly 0..20 onto -90..90 (no clamping outside) |
| `View.StatusTexts` | Pedal_App/src/App.jsx:111-115 | at most one status line; exactly one iff pedal is 1, 0 or -1, and it is the one matching that code |
| `View.NonIdle` | Pedal_App/src/App.jsx:137 | no kept entry has pedal -1, and the filter is the identity on a history without -1 entries |
| `View.NonIdleConcat` | Pedal_App/src/App.jsx:137 | the filter distributes over concatenation, so kept entries keep their order and multiplicity |
| `View.NonIdleMembers` | Pedal_App/src/App.jsx:137 | an entry is kept iff it is in the history and its pedal is not -1 |
| `View.Reverse` | Pedal_App/src/App.jsx:139 | same length, element i is element length-1-i of the input |
| `View.HistoryView` | Pedal_App/src/App.jsx:136-139 | filter, last ten, reverse; specified through `HistoryViewNewestFirst`, `HistoryViewOfValidHistory` and `NewestRowIsLatestEvent` |
| `View.HistoryViewNewestFirst` | Pedal_App/src/App.jsx:136-139 | the table has min(10, non-idle count) rows, none for pedal -1, row i being the (i+1)-th most recent non-idle entry |
| `View.HistoryViewOfValidHistory` | Pedal_App/src/App.jsx:136-139 | on a history the dashboard can hold, the table is its last ten entries, newest first |
| `View.NewestRowIsLatestEvent` | Pedal_App/src/App.jsx:53-139 | after an accepted event with pedal other than -1, the table's first row is that event |
| `View.RowLabel` | Pedal_App/src/App.jsx:143 | a row is labelled accelerator iff its pedal is 1, brake otherwise |
| `View.Rows` | Pedal_App/src/App.jsx:136-143 | the table has min(10, non-idle count) rows; row i shows the time of the (i+1)-th most recent non-idle entry and is labelled accelerator iff that entry's pedal is 1 |
| `View.Render` | Pedal_App/src/App.jsx:95-143 | overlay shown iff an alert is active; needle shows the angle; status lines are those of the pedal; accelerator card active iff pedal is 1, brake card iff pedal is 0, each iff its status line is shown; the rows are the history table's rows (at most ten) |
| `View.OverlayVisible` | Pedal_App/src/App.jsx:95 | the overlay is shown iff the alert list is non-empty; specified through `Render` and `OverlayFollowsAlerts` |
| `View.OverlayFollowsAlerts` | Pedal_App/src/App.jsx:45-97 | an accepted alerting event shows the overlay; the timeout of the only active alert hides it |
| `Scenarios.DuplicateSuddenAcceleration` | Pedal_App/src/App.jsx:28-65 | the same alerting event twice from start logs one entry and raises one alert |
| `Scenarios.ReleaseWithRepeatedTimestamp` | Pedal_App/src/App.jsx:35-43 | press, then -1 with same angle and timestamp: the -1 is suppressed and the display stays at 1; the next press is accepted and logged again |
| `Scenarios.RepeatedEventOnApp` | Pedal_App/src/App.jsx:28-65 | a repeated event leaves the `App` object as it was, concluded from the method contracts alone |
| `Scenarios.AlertLifecycle` | Pedal_App/src/App.jsx:45-50 | an alert survives an unrelated event and is gone after its own timeout |

## Left out

- The socket.io connection, its connect and disconnect handlers and the teardown (lines 22-26, 67-73): network I/O through a library not modelled here; events simply arrive as method calls or `Input` values.
- `setTimeout` scheduling and the 1500 ms duration (lines 48-50): timing is not modelled; a timeout is an explicit `AlertTimeout` input that may arrive at any point of the stream.
- `Date.now()`: the alert id is a parameter.
- `new Date(...).toLocaleString()` (line 56): locale-dependent formatting; a history entry keeps the raw timestamp.
- The audio play/pause effect (lines 76-89) and the `console.log` calls: browser media and logging side effects.
- JSX markup, CSS classes, images and inline styles, beyond the values they display.
- View.AngleToDegree: computed over exact reals, so floating-point rounding is not modelled.
- Untyped payloads: the model types pedal as an integer and angle and timestamp as reals, so non-numeric values, `NaN` and missing fields are not modelled.
- Render and effect timing of React (batching, re-render order): the model applies each event's updates to the state at once.
