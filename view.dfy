/**
  The render side of the `App` component as pure functions of its state:
  the needle rotation, the alert overlay, the status text, the two pedal
  cards and the history table.
*/
module View {
  import opened Reducer

  // ---------------------------------------------------------------------
  // Gauge needle
  // ---------------------------------------------------------------------

  /** `angleToDegree`: a sensor angle on 0..20 becomes a needle rotation on
      -90..90 degrees; nothing is clamped. */
  function AngleToDegree(angle: real): (degree: real)
    ensures DegreeToAngle(degree) == angle
  {
    -90.0 + (angle / 20.0) * 180.0
  }

  /** The sensor angle a needle rotation stands for. */
  function DegreeToAngle(degree: real): real {
    (degree + 90.0) / 9.0
  }

  /** Every rotation comes from exactly one sensor angle. */
  lemma DegreeToAngleRoundTrip(degree: real)
    ensures AngleToDegree(DegreeToAngle(degree)) == degree
  {
  }

  /** The ends and the middle of the sensor range land on -90, 0 and 90. */
  lemma AngleToDegreeAnchors()
    ensures AngleToDegree(0.0) == -90.0
    ensures AngleToDegree(10.0) == 0.0
    ensures AngleToDegree(20.0) == 90.0
  {
  }

  /** The mapping is linear with slope 9 degrees per unit, hence strictly
      increasing, and maps 0..20 onto -90..90. */
  lemma AngleToDegreeLinear(a: real, b: real)
    ensures AngleToDegree(a) - AngleToDegree(b) == 9.0 * (a - b)
    ensures a < b ==> AngleToDegree(a) < AngleToDegree(b)
    ensures 0.0 <= a <= 20.0 <==> -90.0 <= AngleToDegree(a) <= 90.0
  {
  }

  // ---------------------------------------------------------------------
  // Alert overlay, status text, pedal cards
  // ---------------------------------------------------------------------

  /** The alert overlay is shown while any alert is active. */
  predicate OverlayVisible(alerts: seq<AlertId>) {
    |alerts| > 0
  }

  datatype StatusText = Accelerating | Braking | NotPressed

  /** The three conditional status lines, in the order they are written;
      each appears only when the pedal matches its code. */
  function StatusTexts(pedal: int): (texts: seq<StatusText>)
    ensures |texts| <= 1
    ensures |texts| == 1 <==> pedal == Accelerator || pedal == Brake || pedal == Released
    ensures texts == [Accelerating] <==> pedal == Accelerator
    ensures texts == [Braking] <==> pedal == Brake
    ensures texts == [NotPressed] <==> pedal == Released
  {
    var accel := if pedal == Accelerator then [Accelerating] else [];
    var brake := if pedal == Brake then [Braking] else [];
    var idle := if pedal == Released then [NotPressed] else [];
    assert accel + brake + idle == if pedal == Accelerator then [Accelerating]
      else if pedal == Brake then [Braking]
      else if pedal == Released then [NotPressed]
      else [];
    accel + brake + idle
  }

  // ---------------------------------------------------------------------
  // History table
  // ---------------------------------------------------------------------

  /** `.filter((entry) => entry.pedal !== -1)`. */
  function NonIdle(h: seq<HistoryEntry>): (r: seq<HistoryEntry>)
    ensures forall i :: 0 <= i < |r| ==> r[i].pedal != Released
    ensures (forall i :: 0 <= i < |h| ==> h[i].pedal != Released) ==> r == h
  {
    if h == [] then []
    else
      assert h == [h[0]] + h[1..];
      (if h[0].pedal != Released then [h[0]] else []) + NonIdle(h[1..])
  }

  /** The filter keeps exactly the entries whose pedal is not -1. */
  lemma {:induction false} NonIdleMembers(h: seq<HistoryEntry>, x: HistoryEntry)
    ensures x in NonIdle(h) <==> x in h && x.pedal != Released
  {
    if h != [] {
      assert h == [h[0]] + h[1..];
      NonIdleMembers(h[1..], x);
    }
  }

  /** The filter distributes over concatenation, so the kept entries keep
      their order and multiplicity. */
  lemma {:induction false} NonIdleConcat(a: seq<HistoryEntry>, b: seq<HistoryEntry>)
    ensures NonIdle(a + b) == NonIdle(a) + NonIdle(b)
  {
    if a == [] {
      assert a + b == b;
    } else {
      assert (a + b)[0] == a[0];
      assert (a + b)[1..] == a[1..] + b;
      NonIdleConcat(a[1..], b);
    }
  }

  /** `.reverse()`. */
  function Reverse<T>(s: seq<T>): (r: seq<T>)
    ensures |r| == |s|
    ensures forall i :: 0 <= i < |s| ==> r[i] == s[|s| - 1 - i]
  {
    if s == [] then [] else Reverse(s[1..]) + [s[0]]
  }

  /** How many rows the history table shows at most (`.slice(-10)`). */
  const TableRows: nat := 10

  /** The rows of the history table: the last ten non-idle entries, newest
      first. */
  function HistoryView(h: seq<HistoryEntry>): seq<HistoryEntry> {
    Reverse(KeepLast(NonIdle(h), TableRows))
  }

  /** Reversing the last n elements lists them newest first. */
  lemma ReverseKeepLast<T>(f: seq<T>, n: nat)
    requires 0 < n
    ensures var v := Reverse(KeepLast(f, n));
      && |v| == (if |f| <= n then |f| else n)
      && forall i :: 0 <= i < |v| ==> v[i] == f[|f| - 1 - i]
  {
    var k := KeepLast(f, n);
    var v := Reverse(k);
    forall i | 0 <= i < |v|
      ensures v[i] == f[|f| - 1 - i]
    {
      assert v[i] == k[|k| - 1 - i];
    }
  }

  /** The table shows at most ten rows, none for a released pedal, and row i
      is the (i+1)-th most recent non-idle entry. */
  lemma HistoryViewNewestFirst(h: seq<HistoryEntry>)
    ensures var f, v := NonIdle(h), HistoryView(h);
      && |v| == (if |f| <= TableRows then |f| else TableRows)
      && (forall i :: 0 <= i < |v| ==> v[i] == f[|f| - 1 - i])
      && (forall i :: 0 <= i < |v| ==> v[i].pedal != Released)
  {
    ReverseKeepLast(NonIdle(h), TableRows);
  }

  /** On a history the dashboard can hold, the table is the history's last
      ten entries in reverse order. */
  lemma HistoryViewOfValidHistory(s: State)
    requires Inv(s)
    ensures var h, v := s.history, HistoryView(s.history);
      && |v| == (if |h| <= TableRows then |h| else TableRows)
      && forall i :: 0 <= i < |v| ==> v[i] == h[|h| - 1 - i]
  {
    var h := s.history;
    assert NonIdle(h) == h;
    assert HistoryView(h) == Reverse(KeepLast(h, TableRows));
    ReverseKeepLast(h, TableRows);
  }

  /** After an accepted event with a pressed pedal, the table's first row is
      that event. */
  lemma NewestRowIsLatestEvent(s: State, e: SensorEvent, id: AlertId)
    requires Inv(s)
    requires !Suppressed(s, e) && e.pedal != Released
    ensures var v := HistoryView(SensorStep(s, e, id).history);
      |v| > 0 && v[0] == HistoryEntry(e.timestamp, e.pedal)
  {
    var t := SensorStep(s, e, id);
    HistoryLoggedExactly(s, e, id);
    ApplyKeepsInv(s, SensorData(e, id));
    assert Apply(s, SensorData(e, id)) == t;
    HistoryViewOfValidHistory(t);
  }

  datatype PedalLabel = AccelLabel | BrakeLabel

  /** A table row shows "accelerator" for pedal 1 and "brake" for anything
      else. */
  function RowLabel(entry: HistoryEntry): (shown: PedalLabel)
    ensures shown == AccelLabel <==> entry.pedal == Accelerator
  {
    if entry.pedal == Accelerator then AccelLabel else BrakeLabel
  }

  // ---------------------------------------------------------------------
  // The whole screen
  // ---------------------------------------------------------------------

  datatype Row = Row(time: real, pedal: PedalLabel)

  datatype Screen = Screen(
    overlay: bool,
    needle: real,
    status: seq<StatusText>,
    accelCardActive: bool,
    brakeCardActive: bool,
    rows: seq<Row>)

  /** The rows of the history table with their labels: row i shows the
      time and the pedal label of the (i+1)-th most recent non-idle entry. */
  function Rows(h: seq<HistoryEntry>): (rows: seq<Row>)
    ensures var f := NonIdle(h);
      && |rows| == (if |f| <= TableRows then |f| else TableRows)
      && forall i :: 0 <= i < |rows| ==>
           && rows[i].time == f[|f| - 1 - i].time
           && (rows[i].pedal == AccelLabel <==> f[|f| - 1 - i].pedal == Accelerator)
  {
    var view := HistoryView(h);
    HistoryViewNewestFirst(h);
    seq(|view|, i requires 0 <= i < |view| => Row(view[i].time, RowLabel(view[i])))
  }

  /** What the component renders for a state. */
  function Render(s: State): (screen: Screen)
    ensures screen.overlay <==> s.alerts != []
    ensures DegreeToAngle(screen.needle) == s.angle
    ensures screen.status == StatusTexts(s.pedal)
    ensures screen.accelCardActive <==> s.pedal == Accelerator
    ensures screen.brakeCardActive <==> s.pedal == Brake
    ensures screen.accelCardActive <==> screen.status == [Accelerating]
    ensures screen.brakeCardActive <==> screen.status == [Braking]
    ensures screen.rows == Rows(s.history)
    ensures |screen.rows| <= TableRows
  {
    Screen(
      OverlayVisible(s.alerts),
      AngleToDegree(s.angle),
      StatusTexts(s.pedal),
      s.pedal == Accelerator,
      s.pedal == Brake,
      Rows(s.history))
  }

  /** An accepted sudden-acceleration event with the accelerator pressed
      shows the overlay; the timeout of the last active alert hides it. */
  lemma OverlayFollowsAlerts(s: State, e: SensorEvent, id: AlertId)
    ensures !Suppressed(s, e) && RaisesAlert(e) ==> Render(SensorStep(s, e, id)).overlay
    ensures s.alerts == [id] ==> !Render(ExpireStep(s, id)).overlay
  {
    if s.alerts == [id] {
      assert Without(s.alerts, id) == [] by {
        assert Without([], id) == [];
      }
    }
  }
}
