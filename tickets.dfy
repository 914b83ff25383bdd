/** The train collection of the command-line ticket viewer: it formats a
    travel duration, keeps the records whose category was asked for and
    that are neither sold out nor suspended, and turns each kept record
    into a 12-column table row. */
module Tickets {
  import opened Strings
  import opened Records

  /** The table's column names: train, stations, times, duration, then the
      eight seat classes (business, first, second, deluxe soft sleeper,
      soft sleeper, hard sleeper, hard seat, standing). The source writes
      them as one space-separated line and splits it. */
  const Header: seq<string> :=
    ["车次", "车站", "时间", "历时", "商务特等座", "一等座", "二等座", "高级软卧", "软卧", "硬卧", "硬座", "无座"]

  /** What splitting a line at its spaces can give: twelve names, none of
      them empty or holding a space, one per column of a row. */
  lemma HeaderNames()
    ensures |Header| == 12
    ensures forall k | 0 <= k < |Header| :: |Header[k]| > 0 && ' ' !in Header[k]
  {
  }

  const HourUnit: string := "小时"
  const MinuteUnit: string := "分"

  /** A record holding either marker is never shown. */
  const SoldOutMarker: string := "售"
  const SuspendedMarker: string := "停运"

  /** The colorama codes around the upper and lower line of a two-line cell. */
  const Magenta: string := "\U{1B}[35m"
  const Blue: string := "\U{1B}[34m"
  const ResetColor: string := "\U{1B}[39m"

  /** A two-line cell: `top` in magenta joined by a newline to `bottom` in
      blue. Cutting it at its newlines gives back the two coloured lines. */
  function TwoLines(top: string, bottom: string): (r: string)
    ensures '\n' !in top && '\n' !in bottom ==>
      Split(r, '\n') == [Magenta + top + ResetColor, Blue + bottom + ResetColor]
  {
    var lines := [Magenta + top + ResetColor, Blue + bottom + ResetColor];
    if '\n' !in top && '\n' !in bottom then
      SplitJoin(lines, '\n');
      Join(lines, '\n')
    else
      Join(lines, '\n')
  }

  // ---------------------------------------------------------------------
  // Duration (tickets.py lines 44-50)

  /** `geturation`: every colon becomes the hour unit and the minute unit is
      appended; then leading zeros are trimmed by `TrimHours`. */
  function Geturation(duration: string): (r: string)
    ensures ':' !in r
  {
    TrimHours(Replace(duration, ':', HourUnit) + MinuteUnit)
  }

  /** The two early returns of `geturation`: a text opening with "00" loses
      its first four characters (all of them when it is shorter), one
      opening with a single "0" loses that character. */
  function TrimHours(t: string): (r: string)
    ensures |r| <= |t| && r == t[|t| - |r|..]
  {
    if StartsWith(t, "00") then t[if |t| < 4 then |t| else 4..]
    else if StartsWith(t, "0") then t[1..]
    else t
  }

  /** How a clock `h:m` with two hour digits reads once formatted: no hour
      part for "00", otherwise the hours without a leading zero. */
  function DurationText(h: string, m: string): string
    requires |h| == 2
  {
    (if h == "00" then "" else (if h[0] == '0' then h[1..] else h) + HourUnit) + m + MinuteUnit
  }

  /** The formatter on a clock `h:m` with two hour digits agrees with `DurationText`. */
  lemma GeturationReadsClock(h: string, m: string)
    requires |h| == 2 && AllDigits(h) && AllDigits(m)
    ensures Geturation(h + ":" + m) == DurationText(h, m)
  {
    assert ':' !in h by { assert forall k | 0 <= k < |h| :: IsDigit(h[k]); }
    assert ':' !in m by { assert forall k | 0 <= k < |m| :: IsDigit(m[k]); }
    ReplaceColon(h, m);
    var t := h + HourUnit + m + MinuteUnit;
    assert t[..2] == h;
    if h == "00" {
      assert t[4..] == m + MinuteUnit;
    } else if h[0] == '0' {
      assert t[..1] == "0";
      assert t[1..] == h[1..] + HourUnit + m + MinuteUnit;
    } else {
      assert t[..1] == [h[0]];
    }
  }

  /** Rewriting `h:m` with colon-free `h` and `m` puts the hour unit between them. */
  lemma ReplaceColon(h: string, m: string)
    requires ':' !in h && ':' !in m
    ensures Replace(h + ":" + m, ':', HourUnit) == h + HourUnit + m
  {
    assert Replace(":", ':', HourUnit) == HourUnit by {
      assert ":"[1..] == "";
    }
    ReplaceAppend(h, ":", ':', HourUnit);
    ReplaceAppend(h + ":", m, ':', HourUnit);
  }

  /** "00:45" reads "45分". */
  lemma GeturationZeroHours(m: string)
    requires AllDigits(m)
    ensures Geturation("00:" + m) == m + MinuteUnit
  {
    GeturationReadsClock("00", m);
    assert "00" + ":" + m == "00:" + m;
  }

  /** A single leading zero is dropped: "02:05" reads "2小时05分". */
  lemma GeturationDropsOneZero(h: string, m: string)
    requires |h| == 2 && AllDigits(h) && AllDigits(m) && h[0] == '0' && h[1] != '0'
    ensures Geturation(h + ":" + m) == [h[1]] + HourUnit + m + MinuteUnit
  {
    GeturationReadsClock(h, m);
    assert h[1..] == [h[1]];
  }

  /** Without a leading zero the text is only rewritten: "12:30" reads "12小时30分". */
  lemma GeturationKeepsHours(d: string)
    requires !StartsWith(d, "0")
    ensures Geturation(d) == Replace(d, ':', HourUnit) + MinuteUnit
  {
    var t := Replace(d, ':', HourUnit) + MinuteUnit;
    if |d| > 0 {
      assert d[..1] == [d[0]];
      var head := if d[0] == ':' then HourUnit else [d[0]];
      assert t == head + Replace(d[1..], ':', HourUnit) + MinuteUnit;
      assert t[..1] == [head[0]];
    } else {
      assert t == MinuteUnit && t[..1] == MinuteUnit;
    }
  }

  /** The worked examples of the duration column: "00:45", "02:05", "12:30". */
  lemma GeturationExamples()
    ensures Geturation("00:45") == "45分"
    ensures Geturation("02:05") == "2小时05分"
    ensures Geturation("12:30") == "12小时30分"
  {
    ExampleZeroHours();
    ExampleOneZero();
    ExampleNoZero();
  }

  lemma ExampleZeroHours()
    ensures Geturation("00:45") == "45分"
  {
    GeturationZeroHours("45");
    assert "00:" + "45" == "00:45";
  }

  lemma ExampleOneZero()
    ensures Geturation("02:05") == "2小时05分"
  {
    GeturationDropsOneZero("02", "05");
    assert "02" + ":" + "05" == "02:05";
    assert ['2'] + HourUnit + "05" + MinuteUnit == "2小时05分";
  }

  lemma ExampleNoZero()
    ensures Geturation("12:30") == "12小时30分"
  {
    GeturationReadsClock("12", "30");
    assert "12" + ":" + "30" == "12:30";
    assert DurationText("12", "30") == "12小时30分";
  }

  /** Whenever the input has a colon, the result ends with the minute unit. */
  lemma GeturationEndsWithMinutes(d: string)
    requires ':' in d
    ensures |Geturation(d)| > 0 && Geturation(d)[|Geturation(d)| - 1] == MinuteUnit[0]
  {
    var r := Replace(d, ':', HourUnit);
    var t := r + MinuteUnit;
    if StartsWith(t, "00") {
      var r1 := Replace(d[1..], ':', HourUnit);
      assert r == (if d[0] == ':' then HourUnit else [d[0]]) + r1;
      assert t[0] == '0';
      assert d[0] == '0';
      assert t[1] == '0';
      assert |d| > 1;
      var r2 := Replace(d[2..], ':', HourUnit);
      assert d[1..][1..] == d[2..];
      assert r1 == (if d[1] == ':' then HourUnit else [d[1]]) + r2;
      assert d[1] == '0';
      assert r == "00" + r2;
      assert ':' in d[2..] by {
        var k :| 0 <= k < |d| && d[k] == ':';
        assert d[2..][k - 2] == ':';
      }
      ReplaceGrows(d[2..], ':', HourUnit);
    }
  }

  // ---------------------------------------------------------------------
  // The generator protocol (tickets.py lines 53-80)

  type Row = seq<string>

  /** What one pass of the loop body does with one record: raise, yield
      nothing, or yield one row. */
  type Outcome = Result<Option<Row>>

  /** What iterating over `trains` produces: the rows yielded, and the
      exception that ended the iteration early, if any. */
  datatype Run = Run(rows: seq<Row>, error: Option<Error>)

  /** The run after the loop body has been applied to records with
      outcomes `outs`, in order: rows are yielded until the first exception,
      which ends the iteration. */
  function Collect(outs: seq<Outcome>): (run: Run)
    ensures |run.rows| <= |outs|
  {
    if |outs| == 0 then Run([], None)
    else
      var prev := Collect(outs[..|outs| - 1]);
      if prev.error.Some? then prev
      else match outs[|outs| - 1]
        case Err(e) => Run(prev.rows, Some(e))
        case Ok(None) => prev
        case Ok(Some(row)) => Run(prev.rows + [row], None)
  }

  /** The positions, in increasing order, of the outcomes that yield a row. */
  function RowPositions(outs: seq<Outcome>): (ps: seq<nat>)
    ensures forall j | 0 <= j < |ps| :: ps[j] < |outs|
    ensures forall j, k | 0 <= j < k < |ps| :: ps[j] < ps[k]
    ensures forall i | 0 <= i < |outs| :: i in ps <==> outs[i].Ok? && outs[i].value.Some?
  {
    if |outs| == 0 then []
    else
      var last := outs[|outs| - 1];
      RowPositions(outs[..|outs| - 1]) + (if last.Ok? && last.value.Some? then [|outs| - 1] else [])
  }

  /** The iteration ends without an exception exactly when no record raises. */
  lemma {:induction false} CollectSucceeds(outs: seq<Outcome>)
    ensures Collect(outs).error.None? <==> forall i | 0 <= i < |outs| :: outs[i].Ok?
  {
    if |outs| > 0 {
      var init := outs[..|outs| - 1];
      CollectSucceeds(init);
      assert forall i | 0 <= i < |init| :: init[i] == outs[i];
    }
  }

  /** Without an exception, the rows are those of the row-yielding
      outcomes, one each, in order. */
  lemma {:induction false} CollectRows(outs: seq<Outcome>)
    ensures Collect(outs).error.None? ==>
      |Collect(outs).rows| == |RowPositions(outs)|
      && forall j | 0 <= j < |RowPositions(outs)| ::
        outs[RowPositions(outs)[j]] == Ok(Some(Collect(outs).rows[j]))
  {
    if |outs| > 0 {
      var init := outs[..|outs| - 1];
      var last := outs[|outs| - 1];
      CollectRows(init);
      var prev := Collect(init);
      if prev.error.None? && last.Ok? {
        var ps, ps0 := RowPositions(outs), RowPositions(init);
        var rows := Collect(outs).rows;
        var newRows := if last.value.Some? then [last.value.value] else [];
        var newPos := if last.value.Some? then [|outs| - 1] else [];
        assert ps == ps0 + newPos;
        assert rows == prev.rows + newRows;
        forall j | 0 <= j < |ps|
          ensures outs[ps[j]] == Ok(Some(rows[j]))
        {
          if j < |ps0| {
            assert ps[j] == ps0[j] && init[ps0[j]] == outs[ps[j]];
            assert rows[j] == prev.rows[j];
          }
        }
      }
    }
  }

  /** An exception comes from the first raising outcome, and the rows are
      those yielded before it. */
  lemma {:induction false} CollectStops(outs: seq<Outcome>)
    ensures Collect(outs).error.Some? ==> exists k | 0 <= k < |outs| ::
      outs[k].Err? && (forall i | 0 <= i < k :: outs[i].Ok?)
      && Collect(outs) == Run(Collect(outs[..k]).rows, Some(outs[k].error))
  {
    if |outs| > 0 {
      var init := outs[..|outs| - 1];
      CollectStops(init);
      if Collect(init).error.Some? {
        var k :| 0 <= k < |init| && init[k].Err? && (forall i | 0 <= i < k :: init[i].Ok?)
          && Collect(init) == Run(Collect(init[..k]).rows, Some(init[k].error));
        assert init[..k] == outs[..k];
        assert forall i | 0 <= i <= k :: init[i] == outs[i];
      } else if outs[|outs| - 1].Err? {
        CollectSucceeds(init);
        assert forall i | 0 <= i < |init| :: init[i] == outs[i];
      }
    }
  }

  /** Rows once yielded stay yielded, and an exception is final. */
  lemma {:induction false} CollectGrows(outs: seq<Outcome>, m: nat)
    requires m <= |outs|
    ensures Collect(outs[..m]).rows <= Collect(outs).rows
    ensures Collect(outs[..m]).error.Some? ==> Collect(outs) == Collect(outs[..m])
    decreases |outs| - m
  {
    if m < |outs| {
      var init := outs[..|outs| - 1];
      CollectGrows(init, m);
      assert init[..m] == outs[..m];
    } else {
      assert outs[..m] == outs;
    }
  }

  // ---------------------------------------------------------------------
  // Filter and rows (tickets.py lines 52-80)

  /** `TrainsCollection`: raw records, the station code map and the string
      of requested category letters. None of them changes after construction. */
  datatype TrainsCollection = TrainsCollection(
    availableTrains: seq<string>,
    stationMap: map<string, string>,
    options: string)
  {
    /** The lower-cased category letter of line 56, or None when its
        pattern has no match. */
    function Category(raw: string): (c: Option<char>)
      ensures c.Some? <==> FindCategory(Fields(raw), 0).Some?
      ensures c.Some? ==> !('A' <= c.value <= 'Z') && IsWordChar(c.value)
    {
      var f := Fields(raw);
      match FindCategory(f, 0)
      case None => None
      case Some(i) => Some(ToLower(CategoryChar(f, i)))
    }

    /** The filter of line 57: the record's letter was asked for, and
        neither marker occurs at any position of the record. */
    predicate Selects(raw: string): (b: bool)
      ensures b <==>
        && Category(raw).Some? && Category(raw).value in options
        && (forall i :: !OccursAt(raw, SoldOutMarker, i))
        && (forall i :: !OccursAt(raw, SuspendedMarker, i))
    {
      ContainsAt(raw, SoldOutMarker);
      ContainsAt(raw, SuspendedMarker);
      var c := Category(raw);
      c.Some? && c.value in options && !Contains(raw, SoldOutMarker) && !Contains(raw, SuspendedMarker)
    }

    /** The station cell of lines 58-66: the origin's name above the
        destination's, both looked up in the station map. A record without
        a station match, or with a code the map lacks, raises. */
    function StationsCell(f: seq<string>): (r: Result<string>)
      ensures FindStations(f, 0).None? ==> r == Err(NoMatch(StationPattern))
      ensures FindStations(f, 0).Some? ==>
        var j := FindStations(f, 0).value;
        var origin, destination := Origin(f, j), Destination(f, j);
        (origin !in stationMap ==> r == Err(UnknownStation(origin)))
        && (origin in stationMap && destination !in stationMap ==> r == Err(UnknownStation(destination)))
        && (origin in stationMap && destination in stationMap ==>
              r == Ok(TwoLines(stationMap[origin], stationMap[destination])))
    {
      match FindStations(f, 0)
      case None => Err(NoMatch(StationPattern))
      case Some(j) =>
        var origin, destination := Origin(f, j), Destination(f, j);
        if origin !in stationMap then Err(UnknownStation(origin))
        else if destination !in stationMap then Err(UnknownStation(destination))
        else Ok(TwoLines(stationMap[origin], stationMap[destination]))
    }

    /** The time and duration cells of lines 67-70: departure above arrival
        (the first two clock matches), then the last clock match formatted. */
    function TimeCells(f: seq<string>): (r: Result<seq<string>>)
      ensures |Times(f)| < 2 ==> r == Err(NoMatch(TimePattern))
      ensures |Times(f)| >= 2 ==>
        r.Ok? && |r.value| == 2
        && r.value[0] == TwoLines(Times(f)[0], Times(f)[1])
        && r.value[1] == Geturation(Times(f)[|Times(f)| - 1])
        && |r.value[1]| > 0 && r.value[1][|r.value[1]| - 1] == MinuteUnit[0]
    {
      var ts := Times(f);
      if |ts| < 2 then Err(NoMatch(TimePattern))
      else
        GeturationEndsWithMinutes(ts[|ts| - 1]);
        Ok([TwoLines(ts[0], ts[1]), Geturation(ts[|ts| - 1])])
    }

    /** The list built by lines 58-79 from the fields `f` of a record whose
        category pattern matched at field `i`. The cells are computed left
        to right and the first one that raises aborts the row. */
    function BuildRow(f: seq<string>, i: nat): (r: Result<Row>)
      requires CategoryAt(f, i)
      ensures r.Ok? <==> StationsCell(f).Ok? && TimeCells(f).Ok? && Seats(f, SeatOffsets).Ok?
      ensures r.Ok? ==> |r.value| == |Header| == 12
      ensures r.Ok? ==> r.value[0] == TrainNumber(f, i) && r.value[0][0] == CategoryChar(f, i)
      ensures r.Ok? ==>
        r.value[1] == StationsCell(f).value
        && r.value[2..4] == TimeCells(f).value && r.value[4..] == Seats(f, SeatOffsets).value
      ensures StationsCell(f).Err? ==> r == Err(StationsCell(f).error)
      ensures StationsCell(f).Ok? && TimeCells(f).Err? ==> r == Err(TimeCells(f).error)
      ensures StationsCell(f).Ok? && TimeCells(f).Ok? && Seats(f, SeatOffsets).Err? ==>
        r == Err(Seats(f, SeatOffsets).error)
    {
      var stations :- StationsCell(f);
      var times :- TimeCells(f);
      var seats :- Seats(f, SeatOffsets);
      var row := [TrainNumber(f, i), stations] + times + seats;
      assert row[2..4] == times && row[4..] == seats;
      Ok(row)
    }

    /** One pass of the loop of lines 54-80: an exception, no row, or one row. */
    function ProcessRecord(raw: string): (r: Outcome)
      ensures Category(raw).None? ==> r == Err(NoMatch(CategoryPattern))
      ensures Category(raw).Some? && !Selects(raw) ==> r == Ok(None)
      ensures r.Ok? ==> (r.value.Some? <==> Selects(raw))
      ensures r.Ok? && r.value.Some? ==>
        |r.value.value| == |Header| && |r.value.value[0]| > 0
        && Category(raw) == Some(ToLower(r.value.value[0][0]))
    {
      var f := Fields(raw);
      match FindCategory(f, 0)
      case None => Err(NoMatch(CategoryPattern))
      case Some(i) =>
        if ToLower(CategoryChar(f, i)) in options
          && !Contains(raw, SoldOutMarker) && !Contains(raw, SuspendedMarker)
        then
          var row :- BuildRow(f, i);
          Ok(Some(row))
        else Ok(None)
    }

    /** A record the filter keeps gives its row, or the exception raised
        while building it. */
    lemma SelectedBuildsRow(raw: string)
      requires Selects(raw)
      ensures FindCategory(Fields(raw), 0).Some?
      ensures var f := Fields(raw);
        var row := BuildRow(f, FindCategory(f, 0).value);
        ProcessRecord(raw) == if row.Ok? then Ok(Some(row.value)) else Err(row.error)
    {
    }

    /** The outcome of the loop body for each record, in input order. */
    function Outcomes(): (outs: seq<Outcome>)
      ensures |outs| == |availableTrains|
      ensures forall i | 0 <= i < |outs| :: outs[i] == ProcessRecord(availableTrains[i])
    {
      seq(|availableTrains|, i requires 0 <= i < |availableTrains| => ProcessRecord(availableTrains[i]))
    }

    /** Without an exception, the records that yield a row are exactly the
        records the filter keeps. */
    lemma TrainsKeepSelected()
      ensures Collect(Outcomes()).error.None? ==>
        forall i | 0 <= i < |availableTrains| :: i in RowPositions(Outcomes()) <==> Selects(availableTrains[i])
    {
      CollectSucceeds(Outcomes());
    }

    /** Without an exception, the rows are those kept records' rows, one per
        kept record, in input order. */
    lemma TrainsRowsInOrder()
      ensures Collect(Outcomes()).error.None? ==>
        var rows, ps := Collect(Outcomes()).rows, RowPositions(Outcomes());
        |rows| == |ps| <= |availableTrains|
        && forall j | 0 <= j < |ps| :: ProcessRecord(availableTrains[ps[j]]) == Ok(Some(rows[j]))
    {
      CollectRows(Outcomes());
    }

    /** The `trains` generator, run to its end or to its first exception. */
    method Trains() returns (run: Run)
      ensures run == Collect(Outcomes())
    {
      ghost var outs := Outcomes();
      var rows: seq<Row> := [];
      var i := 0;
      while i < |availableTrains|
        invariant i <= |availableTrains|
        invariant Collect(outs[..i]) == Run(rows, None)
      {
        var out := ProcessRecord(availableTrains[i]);
        assert outs[..i + 1][..i] == outs[..i];
        match out {
          case Err(e) =>
            CollectGrows(outs, i + 1);
            return Run(rows, Some(e));
          case Ok(None) =>
          case Ok(Some(row)) =>
            rows := rows + [row];
        }
        i := i + 1;
      }
      assert outs[..i] == outs;
      run := Run(rows, None);
    }
  }
}
