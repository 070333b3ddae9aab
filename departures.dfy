/**
 * The pure part of junat.js: picking a train's departure row at a station
 * (`trainData`) and rendering the resulting records as HTML rows
 * (the `map`/`join` inside `trainDataToHTML`).
 */
module Departures {
  import opened Wrappers
  import JsString
  import Rfc3339

  /** One stop of a train, as the live-trains API reports it (`type` is `rowType` here). */
  datatype Row = Row(
    stationShortCode: string,
    rowType: string,
    scheduledTime: string,
    cancelled: bool,
    commercialTrack: string)

  datatype Train = Train(commuterLineID: string, timeTableRows: seq<Row>)

  /** The object `trainData` returns. */
  datatype TrainRecord = TrainRecord(id: string, departure: string, cancelled: bool, track: string)

  /** `trainData` reading `scheduledTime` of `undefined` throws a TypeError. */
  datatype TrainDataError = TypeError

  /** Rendering aborts with the TypeError raised for the train at `index`. */
  datatype RenderError = TypeErrorAt(index: nat)

  predicate IsDeparture(r: Row, station: string) {
    r.stationShortCode == station && r.rowType == "DEPARTURE"
  }

  /** Row `i` is the first departure row at `station`. */
  predicate IsFirstDeparture(rows: seq<Row>, station: string, i: int) {
    && 0 <= i < |rows|
    && IsDeparture(rows[i], station)
    && forall j :: 0 <= j < i ==> !IsDeparture(rows[j], station)
  }

  /** `timeTableRows.find(...)`: the first departure row at `station`, if any. */
  function Find(rows: seq<Row>, station: string): (found: Option<Row>)
    ensures found.Some? ==> found.value in rows && IsDeparture(found.value, station)
  {
    if rows == [] then None
    else if IsDeparture(rows[0], station) then Some(rows[0])
    else Find(rows[1..], station)
  }

  /** `find` yields `undefined` exactly when no row is a departure at `station`. */
  lemma {:induction false} FindNoneIff(rows: seq<Row>, station: string)
    ensures Find(rows, station).None? <==> forall i :: 0 <= i < |rows| ==> !IsDeparture(rows[i], station)
  {
    if rows != [] {
      FindNoneIff(rows[1..], station);
      assert forall i :: 0 <= i < |rows[1..]| ==> rows[1..][i] == rows[i + 1];
    }
  }

  /** `find` returns the first departure row at `station`; later matches are ignored. */
  lemma {:induction false} FindReturnsFirst(rows: seq<Row>, station: string, i: int)
    requires IsFirstDeparture(rows, station, i)
    ensures Find(rows, station) == Some(rows[i])
  {
    if i > 0 {
      assert !IsDeparture(rows[0], station);
      assert IsFirstDeparture(rows[1..], station, i - 1) by {
        assert forall j :: 0 <= j < i - 1 ==> rows[1..][j] == rows[j + 1];
      }
      FindReturnsFirst(rows[1..], station, i - 1);
    }
  }

  /** Rows after the first match never change what `find` returns. */
  lemma {:induction false} FindIgnoresLaterRows(rows: seq<Row>, later: seq<Row>, station: string)
    requires Find(rows, station).Some?
    ensures Find(rows + later, station) == Find(rows, station)
  {
    assert (rows + later)[0] == rows[0];
    if !IsDeparture(rows[0], station) {
      assert (rows + later)[1..] == rows[1..] + later;
      FindIgnoresLaterRows(rows[1..], later, station);
    }
  }

  /** `trainData(train, station)`: reading the fields of `undefined` throws. */
  function TrainData(train: Train, station: string): (r: Result<TrainRecord, TrainDataError>)
    ensures r.Ok? ==> r.value.id == train.commuterLineID
  {
    match Find(train.timeTableRows, station)
    case None => Err(TypeError)
    case Some(row) => Ok(TrainRecord(train.commuterLineID, row.scheduledTime, row.cancelled, row.commercialTrack))
  }

  /** `trainData` throws exactly when the train has no departure row at `station`. */
  lemma TrainDataFailsIff(train: Train, station: string)
    ensures TrainData(train, station).Err?
      <==> forall i :: 0 <= i < |train.timeTableRows| ==> !IsDeparture(train.timeTableRows[i], station)
  {
    FindNoneIff(train.timeTableRows, station);
  }

  /** The record copies the line id and the first departure row's time, cancellation and track verbatim. */
  lemma TrainDataCopiesFirstDeparture(train: Train, station: string, i: int)
    requires IsFirstDeparture(train.timeTableRows, station, i)
    ensures var row := train.timeTableRows[i];
      TrainData(train, station)
      == Ok(TrainRecord(train.commuterLineID, row.scheduledTime, row.cancelled, row.commercialTrack))
  {
    FindReturnsFirst(train.timeTableRows, station, i);
  }

  /** `trainsResponse.map(train => trainData(train, line.station))`, stopping at the first throw. */
  function TrainRecords(trains: seq<Train>, station: string): (r: Result<seq<TrainRecord>, RenderError>)
    ensures r.Ok? ==> |r.value| == |trains|
    ensures r.Err? ==> r.error.index < |trains|
  {
    if trains == [] then Ok([])
    else
      match TrainData(trains[0], station)
      case Err(_) => Err(TypeErrorAt(0))
      case Ok(first) =>
        match TrainRecords(trains[1..], station)
        case Ok(rest) => Ok([first] + rest)
        case Err(TypeErrorAt(k)) => Err(TypeErrorAt(k + 1))
  }

  /** A successful mapping holds, in order, the record of every train. */
  lemma {:induction false} TrainRecordsInOrder(trains: seq<Train>, station: string)
    requires TrainRecords(trains, station).Ok?
    ensures forall i :: 0 <= i < |trains| ==> TrainData(trains[i], station) == Ok(TrainRecords(trains, station).value[i])
  {
    if trains != [] {
      TrainRecordsInOrder(trains[1..], station);
      assert forall i :: 0 <= i < |trains[1..]| ==> trains[1..][i] == trains[i + 1];
    }
  }

  /** A failed mapping reports the first train that has no departure row. */
  lemma {:induction false} TrainRecordsFailsAtFirst(trains: seq<Train>, station: string)
    requires TrainRecords(trains, station).Err?
    ensures var k := TrainRecords(trains, station).error.index;
      && TrainData(trains[k], station).Err?
      && forall j :: 0 <= j < k ==> TrainData(trains[j], station).Ok?
  {
    if TrainData(trains[0], station).Ok? {
      TrainRecordsFailsAtFirst(trains[1..], station);
      assert forall i :: 0 <= i < |trains[1..]| ==> trains[1..][i] == trains[i + 1];
    }
  }

  /** The mapping succeeds exactly when every train has a departure row at `station`. */
  lemma TrainRecordsOkIff(trains: seq<Train>, station: string)
    ensures TrainRecords(trains, station).Ok?
      <==> forall i :: 0 <= i < |trains| ==> TrainData(trains[i], station).Ok?
  {
  }

  /** Mapping a concatenation of responses maps each part and concatenates the records. */
  lemma {:induction false} TrainRecordsAppend(a: seq<Train>, b: seq<Train>, station: string)
    requires TrainRecords(a, station).Ok? && TrainRecords(b, station).Ok?
    ensures TrainRecords(a + b, station)
      == Ok(TrainRecords(a, station).value + TrainRecords(b, station).value)
  {
    if a == [] {
      assert a + b == b;
      assert TrainRecords(a, station).value + TrainRecords(b, station).value == TrainRecords(b, station).value;
    } else {
      assert (a + b)[0] == a[0];
      assert (a + b)[1..] == a[1..] + b;
      var first := TrainData(a[0], station).value;
      var rest := TrainRecords(a[1..], station).value;
      TrainRecordsAppend(a[1..], b, station);
      assert [first] + (rest + TrainRecords(b, station).value)
        == ([first] + rest) + TrainRecords(b, station).value;
    }
  }

  /** The fixed pieces of the template literal in `trainDataToHTML`. */
  const RowOpen := "\n    <div class=\"train-row\">"
  const IdOpen := "\n      <div class=\"train-id\">"
  const DepartureOpen := "</div>\n      <div class=\"departure"
  const TimeOpen := "\">"
  const TrackOpen := "</div>\n      <div class=\"track\">"
  const RowClose := "</div>\n    </div>"

  /** The markup before the departure's class suffix. */
  function RowHead(id: string): (s: string)
    ensures |s| >= |RowOpen| && s[..|RowOpen|] == RowOpen
  {
    RowOpen + IdOpen + id + DepartureOpen
  }

  /** The extra class of the departure div: ` cancelled` for a cancelled train. */
  function CancelledClass(cancelled: bool): string {
    if cancelled then " cancelled" else ""
  }

  /** What is shown as the departure time: `departure.slice(11, 19)`. */
  function DepartureText(scheduledTime: string): (text: string)
    ensures |text| <= 8
    ensures |text| == 8 <==> |scheduledTime| >= 19
    ensures |scheduledTime| <= 11 ==> text == ""
    ensures 11 < |scheduledTime| ==> text == scheduledTime[11..JsString.Min(19, |scheduledTime|)]
  {
    JsString.Slice(scheduledTime, 11, 19)
  }

  /** The markup after the departure's class suffix. */
  function RowTail(t: TrainRecord): (s: string)
    ensures |s| >= 10 && s[0] == '"'
  {
    TimeOpen + DepartureText(t.departure) + TrackOpen + t.track + RowClose
  }

  /** The number of characters the template adds around the record's fields. */
  const RowMarkupLength := |RowOpen| + |IdOpen| + |DepartureOpen| + |TimeOpen| + |TrackOpen| + |RowClose|

  /**
   * One `train-row` block of the template literal in `trainDataToHTML`: fixed
   * markup around the line id, the cancelled class, the departure text and
   * the track, and nothing else.
   */
  function RowHtml(t: TrainRecord): (r: string)
    ensures |r| >= |RowOpen| && r[..|RowOpen|] == RowOpen
    ensures |r| == RowMarkupLength + |t.id| + |CancelledClass(t.cancelled)| + |DepartureText(t.departure)| + |t.track|
  {
    RowHead(t.id) + CancelledClass(t.cancelled) + RowTail(t)
  }

  /** `(a + b + c)` holds `b` right after `a`. */
  lemma ConcatMiddle(a: string, b: string, c: string)
    ensures (a + b + c)[|a|..|a| + |b|] == b
  {
  }

  lemma ConcatAssoc(a: string, b: string, c: string)
    ensures a + (b + c) == a + b + c
  {
  }

  /** The line id sits right after the `train-id` div's opening tag, followed by the departure div's opening. */
  lemma RowHtmlIdField(t: TrainRecord)
    ensures var r := RowHtml(t); var i := |RowOpen| + |IdOpen|;
      && |r| >= i + |t.id| + |DepartureOpen|
      && r[..i] == RowOpen + IdOpen
      && r[i..i + |t.id|] == t.id
      && r[i + |t.id|..i + |t.id| + |DepartureOpen|] == DepartureOpen
  {
    var r := RowHtml(t);
    var open := RowOpen + IdOpen;
    var rest := CancelledClass(t.cancelled) + RowTail(t);
    ConcatAssoc(open + t.id + DepartureOpen, CancelledClass(t.cancelled), RowTail(t));
    assert r == (open + t.id) + DepartureOpen + rest;
    ConcatMiddle(open + t.id, DepartureOpen, rest);
    ConcatAssoc(open + t.id, DepartureOpen, rest);
    ConcatAssoc(open, t.id, DepartureOpen + rest);
    assert r == open + t.id + (DepartureOpen + rest);
    ConcatMiddle(open, t.id, DepartureOpen + rest);
  }

  /** The departure text sits right after the departure div's opening tag. */
  lemma RowHtmlTimeField(t: TrainRecord)
    ensures var r := RowHtml(t);
      var d := |RowHead(t.id)| + |CancelledClass(t.cancelled)| + |TimeOpen|;
      var text := DepartureText(t.departure);
      && |r| >= d + |text|
      && r[d - |TimeOpen|..d] == TimeOpen
      && r[d..d + |text|] == text
  {
    var r := RowHtml(t);
    var before := RowHead(t.id) + CancelledClass(t.cancelled);
    var text := DepartureText(t.departure);
    var after := TrackOpen + t.track + RowClose;
    var tail := RowTail(t);
    assert tail == TimeOpen + text + after by {
      ConcatAssoc(TimeOpen + text, TrackOpen + t.track, RowClose);
      ConcatAssoc(TimeOpen + text, TrackOpen, t.track);
    }
    assert r == before + tail;
    ConcatAssoc(before, TimeOpen + text, after);
    ConcatAssoc(before, TimeOpen, text);
    assert r == before + TimeOpen + text + after;
    ConcatAssoc(before + TimeOpen, text, after);
    ConcatAssoc(before, TimeOpen, text + after);
    ConcatMiddle(before, TimeOpen, text + after);
    assert r == (before + TimeOpen) + text + after;
    ConcatMiddle(before + TimeOpen, text, after);
  }

  /** The track sits right after the `track` div's opening tag and is followed only by the block's closing. */
  lemma RowHtmlTrackField(t: TrainRecord)
    ensures var r := RowHtml(t); var k := |r| - |RowClose| - |t.track|;
      && k >= |TrackOpen|
      && r[k - |TrackOpen|..k] == TrackOpen
      && r[k..k + |t.track|] == t.track
      && r[k + |t.track|..] == RowClose
  {
    var r := RowHtml(t);
    var head := RowHead(t.id) + CancelledClass(t.cancelled);
    var before := head + TimeOpen + DepartureText(t.departure);
    var tail := RowTail(t);
    assert r == head + tail;
    ConcatAssoc(head, TimeOpen + DepartureText(t.departure) + TrackOpen + t.track, RowClose);
    ConcatAssoc(head, TimeOpen + DepartureText(t.departure) + TrackOpen, t.track);
    ConcatAssoc(head, TimeOpen + DepartureText(t.departure), TrackOpen);
    ConcatAssoc(head, TimeOpen, DepartureText(t.departure));
    assert r == before + TrackOpen + t.track + RowClose;
    ConcatAssoc(before + TrackOpen, t.track, RowClose);
    ConcatAssoc(before, TrackOpen, t.track + RowClose);
    ConcatMiddle(before, TrackOpen, t.track + RowClose);
    assert r == (before + TrackOpen) + t.track + RowClose;
    ConcatMiddle(before + TrackOpen, t.track, RowClose);
  }

  /** The `.join('')` of the rendered rows: empty exactly for no records, and otherwise opening with a `train-row` block. */
  function JoinRows(records: seq<TrainRecord>): (r: string)
    ensures r == "" <==> records == []
    ensures records != [] ==> |r| >= |RowOpen| && r[..|RowOpen|] == RowOpen
  {
    if records == [] then ""
    else
      RowHtml(records[0]) + JoinRows(records[1..])
  }

  /** The HTML string `trainDataToHTML` assigns to the line's element, or the error it throws. */
  function Render(trains: seq<Train>, station: string): (r: Result<string, RenderError>)
    ensures trains == [] ==> r == Ok("")
    ensures r.Err? ==> r.error.index < |trains|
  {
    match TrainRecords(trains, station)
    case Ok(records) => Ok(JoinRows(records))
    case Err(e) => Err(e)
  }

  /**
   * Rendering succeeds exactly when every train has a departure row at the
   * station; otherwise it fails at the first train that has none.
   */
  lemma RenderOkIff(trains: seq<Train>, station: string)
    ensures Render(trains, station).Ok?
      <==> forall i :: 0 <= i < |trains| ==> TrainData(trains[i], station).Ok?
    ensures Render(trains, station).Err? ==>
      var k := Render(trains, station).error.index;
      && TrainData(trains[k], station).Err?
      && forall j :: 0 <= j < k ==> TrainData(trains[j], station).Ok?
  {
    TrainRecordsOkIff(trains, station);
    if Render(trains, station).Err? {
      TrainRecordsFailsAtFirst(trains, station);
    }
  }

  /** Each row starts a `train-row` block, and its departure div carries ` cancelled` exactly when the record is cancelled. */
  lemma RowHtmlShape(t: TrainRecord)
    ensures var h := RowHtml(t); var k := |RowHead(t.id)|;
      && h[..|RowOpen|] == RowOpen
      && |h| >= k + 10
      && (h[k..k + 10] == " cancelled" <==> t.cancelled)
  {
    var head, tail := RowHead(t.id), RowTail(t);
    var h := RowHtml(t);
    var k := |head|;
    var cls := CancelledClass(t.cancelled);
    assert h == head + cls + tail;
    if t.cancelled {
      ConcatMiddle(head, cls, tail);
    } else {
      assert head + cls == head;
      assert h[k] == tail[0];
      assert h[k..k + 10][0] != " cancelled"[0];
    }
  }

  lemma {:induction false} JoinRowsAppend(a: seq<TrainRecord>, b: seq<TrainRecord>)
    ensures JoinRows(a + b) == JoinRows(a) + JoinRows(b)
  {
    if a == [] {
      assert a + b == b;
    } else {
      assert (a + b)[0] == a[0];
      assert (a + b)[1..] == a[1..] + b;
      JoinRowsAppend(a[1..], b);
      ConcatAssoc(RowHtml(a[0]), JoinRows(a[1..]), JoinRows(b));
    }
  }

  /** A one-train response renders to that train's row. */
  lemma RenderSingle(t: Train, station: string)
    requires TrainData(t, station).Ok?
    ensures Render([t], station) == Ok(RowHtml(TrainData(t, station).value))
  {
    assert [t][1..] == [];
    var rec := TrainData(t, station).value;
    assert TrainRecords([t][1..], station) == Ok([]);
    assert [rec] + [] == [rec];
    assert TrainRecords([t], station) == Ok([rec]);
    assert [rec][1..] == [];
    assert JoinRows([rec][1..]) == "";
    assert RowHtml(rec) + "" == RowHtml(rec);
  }

  /** Rendering a concatenation of responses renders each part, one after the other. */
  lemma RenderAppend(a: seq<Train>, b: seq<Train>, station: string)
    requires Render(a, station).Ok? && Render(b, station).Ok?
    ensures Render(a + b, station) == Ok(Render(a, station).value + Render(b, station).value)
  {
    TrainRecordsAppend(a, b, station);
    JoinRowsAppend(TrainRecords(a, station).value, TrainRecords(b, station).value);
  }

  /** The trains before and after any train of a response that renders also render. */
  lemma RenderPartsOk(trains: seq<Train>, station: string, i: nat)
    requires Render(trains, station).Ok? && i < |trains|
    ensures TrainData(trains[i], station).Ok?
    ensures Render(trains[..i], station).Ok? && Render(trains[i + 1..], station).Ok?
  {
    var before, after := trains[..i], trains[i + 1..];
    RenderOkIff(trains, station);
    assert Render(before, station).Ok? by {
      RenderOkIff(before, station);
      assert forall j :: 0 <= j < |before| ==> before[j] == trains[j];
    }
    assert Render(after, station).Ok? by {
      RenderOkIff(after, station);
      assert forall j :: 0 <= j < |after| ==> after[j] == trains[i + 1 + j];
    }
  }

  /**
   * Exactly one `train-row` block per train, in the order of the response:
   * the rendering of train `i` sits between the renderings of the trains
   * before it and those after it.
   */
  lemma RenderOneRowPerTrain(trains: seq<Train>, station: string, i: nat)
    requires Render(trains, station).Ok? && i < |trains|
    ensures TrainData(trains[i], station).Ok?
    ensures Render(trains[..i], station).Ok? && Render(trains[i + 1..], station).Ok?
    ensures Render(trains, station).value ==
      Render(trains[..i], station).value
      + RowHtml(TrainData(trains[i], station).value)
      + Render(trains[i + 1..], station).value
  {
    var before, here, after := trains[..i], [trains[i]], trains[i + 1..];
    assert trains == before + here + after;
    RenderPartsOk(trains, station, i);
    RenderSingle(trains[i], station);
    RenderAppend(before, here, station);
    RenderAppend(before + here, after, station);
  }
}
