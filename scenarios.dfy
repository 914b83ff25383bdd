/** One schedule record in the service's layout, followed through the
    train collection: the row it becomes, and the cases in which it yields
    no row or raises. */
module Scenarios {
  import opened Strings
  import opened Records
  import opened Tickets

  /** Field `k` of a G1 record from Beijing (BJP) to Shanghai (SHH): a
      secret, the booking text, the train code, the train number, the route
      ends, the query ends, departure, arrival, duration, flags, the 8-digit
      start date (field 13), further codes, seat counts, and seat types.
      Unlisted fields are empty. */
  function SampleField(k: int): string {
    match k
    case 0 => "secret"
    case 1 => "预订"
    case 2 => "24000000G10I"
    case 3 => "G1"
    case 4 => "BJP"
    case 5 => "SHH"
    case 6 => "BJP"
    case 7 => "SHH"
    case 8 => "09:00"
    case 9 => "11:05"
    case 10 => "02:05"
    case 11 => "Y"
    case 12 => "key"
    case 13 => "20161010"
    case 14 => "3"
    case 15 => "P2"
    case 16 => "01"
    case 17 => "11"
    case 18 => "1"
    case 19 => "0"
    case 30 => "有"
    case 31 => "20"
    case 32 => "5"
    case 34 => "O0M090"
    case 35 => "OM9"
    case _ => ""
  }

  const Sample: seq<string> := seq(36, k => SampleField(k))

  /** The same record before its sale has opened: its booking text holds the sold marker. */
  const NotOnSale: seq<string> := Sample[1 := "12点起售"]

  const Stations: map<string, string> := map["BJP" := "北京", "SHH" := "上海"]

  /** The cells the sample record becomes: train number, stations, times
      and duration, and the eight seat columns. */
  const SampleRoute: string := TwoLines("北京", "上海")
  const SampleClockCells: seq<string> := [TwoLines("09:00", "11:05"), "2小时05分"]
  const SampleSeats: seq<string> := ["5", "20", "有", "", "", "", "", ""]
  const SampleRow: Row := ["G1", SampleRoute] + SampleClockCells + SampleSeats

  lemma SampleHasNoDelimiter(fs: seq<string>)
    requires fs == Sample || fs == NotOnSale
    ensures |fs| >= 1 && forall k | 0 <= k < |fs| :: '|' !in fs[k]
  {
  }

  /** The raw record is the fields joined with `|`, and its fields are the sample's. */
  lemma SampleFields(fs: seq<string>)
    requires fs == Sample || fs == NotOnSale
    ensures Fields(Join(fs, '|')) == fs
  {
    SampleHasNoDelimiter(fs);
    SplitJoin(fs, '|');
  }

  lemma SampleCategory(fs: seq<string>)
    requires fs == Sample || fs == NotOnSale
    ensures FindCategory(fs, 0) == Some(1) && CategoryChar(fs, 1) == 'G'
  {
    assert !CategoryAt(fs, 0);
    assert CategoryAt(fs, 1);
  }

  /** A field that opens with `digits:` holds a colon. */
  lemma HourHasColon(s: string)
    ensures StartsWithHour(s) ==> ':' in s
  {
    if StartsWithHour(s) {
      assert s[DigitRun(s)] == ':';
    }
  }

  /** No field before the departure time opens with `digits:`. */
  lemma SampleNoEarlyHour(j: nat)
    requires j < 8
    ensures !StartsWithHour(Sample[j])
  {
    HourHasColon(Sample[j]);
    assert ':' !in Sample[j];
  }

  lemma SampleStationsAt()
    ensures StationsAt(Sample, 8)
  {
    assert Sample[6] == "BJP" && Sample[7] == "SHH" && Sample[8] == "09:00";
    assert DigitRun("09:00") == 2;
  }

  /** The station pattern matches first with `09:00` as its `digits:`. */
  lemma SampleStations()
    ensures FindStations(Sample, 0) == Some(8)
  {
    SampleStationsAt();
    forall j: nat | j < 8
      ensures !StationsAt(Sample, j)
    {
      SampleNoEarlyHour(j);
    }
  }

  /** The codes of a station match are read off the two fields before it. */
  lemma CodesBefore(f: seq<string>, j: nat, origin: string, destination: string)
    requires StationsAt(f, j) && f[j - 2] == origin && f[j - 1] == destination
    requires AllWord(origin)
    ensures Origin(f, j) == origin && Destination(f, j) == destination
  {
  }

  lemma SampleCodes()
    ensures StationsAt(Sample, 8)
    ensures Origin(Sample, 8) == "BJP" && Destination(Sample, 8) == "SHH"
  {
    SampleStationsAt();
    CodesBefore(Sample, 8, "BJP", "SHH");
  }

  lemma SampleDeparture()
    ensures IsTimeField(Sample[8]) && TimeText(Sample[8]) == "09:00"
  {
    assert Sample[8] == "09:00";
    assert IsClock("09:00") by {
      assert DigitRun("09:00") == 2;
    }
    ClockIsTimeField("09:00");
  }

  lemma SampleArrival()
    ensures IsTimeField(Sample[9]) && TimeText(Sample[9]) == "11:05"
  {
    assert Sample[9] == "11:05";
    assert IsClock("11:05") by {
      assert DigitRun("11:05") == 2;
    }
    ClockIsTimeField("11:05");
  }

  lemma SampleDuration()
    ensures IsTimeField(Sample[10]) && TimeText(Sample[10]) == "02:05"
  {
    assert Sample[10] == "02:05";
    assert IsClock("02:05") by {
      assert DigitRun("02:05") == 2;
    }
    ClockIsTimeField("02:05");
  }

  /** No field after the duration opens with `digits:`. */
  lemma SampleNoLateHour(m: nat)
    requires 11 <= m < |Sample|
    ensures !StartsWithHour(Sample[m])
  {
    HourHasColon(Sample[m]);
    assert ':' !in SampleField(m);
  }

  lemma SampleNoLateTime()
    ensures TimesFrom(Sample, 11) == []
  {
    forall m | 11 <= m < |Sample|
      ensures !IsTimeField(Sample[m])
    {
      SampleNoLateHour(m);
    }
    TimesFromSkip(Sample, 11, |Sample|);
  }

  lemma SampleNoEarlyTime()
    ensures TimesFrom(Sample, 1) == TimesFrom(Sample, 8)
  {
    forall m | 1 <= m < 8
      ensures !IsTimeField(Sample[m])
    {
      SampleNoEarlyHour(m);
    }
    TimesFromSkip(Sample, 1, 8);
  }

  lemma SampleClockRun()
    ensures TimesFrom(Sample, 8) == ["09:00", "11:05", "02:05"]
  {
    SampleNoLateTime();
    SampleDeparture();
    SampleArrival();
    SampleDuration();
    assert TimesFrom(Sample, 10) == [TimeText(Sample[10])] + TimesFrom(Sample, 11);
    assert TimesFrom(Sample, 9) == [TimeText(Sample[9])] + TimesFrom(Sample, 10);
    assert TimesFrom(Sample, 8) == [TimeText(Sample[8])] + TimesFrom(Sample, 9);
  }

  /** The clock matches are departure, arrival and duration, in that order. */
  lemma SampleTimes()
    ensures Times(Sample) == ["09:00", "11:05", "02:05"]
  {
    SampleNoEarlyTime();
    SampleClockRun();
  }

  /** The 8-digit date in field 13 is the first field ending in eight digits. */
  lemma SampleNoEarlyAnchor(a: nat)
    requires a < 13
    ensures !EndsWithEightDigits(Sample[a])
  {
    if a == 2 {
      assert Sample[2][|Sample[2]| - 8..][4] == 'G';
    }
  }

  lemma SampleWordsAfterDate(m: nat)
    requires 13 < m < |Sample|
    ensures AllWord(Sample[m])
  {
  }

  lemma SampleAnchor(k: nat)
    requires k <= 18
    ensures FindAnchor(Sample, k, 0) == Some(13)
  {
    assert EndsWithEightDigits(Sample[13]) by {
      assert Sample[13][|Sample[13]| - 8..] == "20161010";
    }
    forall m | 13 < m <= 13 + k
      ensures AllWord(Sample[m])
    {
      SampleWordsAfterDate(m);
    }
    assert AnchorAt(Sample, 13, k);
    forall a: nat | a < 13
      ensures !AnchorAt(Sample, a, k)
    {
      SampleNoEarlyAnchor(a);
    }
  }

  /** A field made of word characters is its own word prefix. */
  lemma WordPrefixOfWord(s: string)
    requires AllWord(s)
    ensures WordPrefix(s) == s
  {
  }

  lemma SampleSeatAt(k: nat)
    requires k <= 18
    ensures SeatColumn(Sample, k) == Some(SampleField(14 + k))
  {
    SampleAnchor(k);
    SampleWordsAfterDate(14 + k);
    WordPrefixOfWord(Sample[14 + k]);
  }

  lemma SampleSeatColumn(c: nat)
    requires c < |SeatOffsets|
    ensures SeatColumn(Sample, SeatOffsets[c]) == Some(SampleSeats[c])
  {
    SampleSeatAt(SeatOffsets[c]);
    assert SampleField(14 + SeatOffsets[c]) == SampleSeats[c];
  }

  /** The eight seat patterns all match, giving the sample's seat cells. */
  lemma SampleSeatValues()
    ensures Seats(Sample, SeatOffsets) == Ok(SampleSeats)
  {
    forall c | 0 <= c < |SeatOffsets|
      ensures SeatColumn(Sample, SeatOffsets[c]) == Some(SampleSeats[c])
    {
      SampleSeatColumn(c);
    }
    SeatsFromColumns(Sample, SeatOffsets, SampleSeats);
  }

  /** The raw records the service would send. */
  const RawSample: string := Join(Sample, '|')
  const RawNotOnSale: string := Join(NotOnSale, '|')

  /** The sample holds neither the sold nor the suspended marker. */
  lemma SampleMarkerFree(m: nat)
    requires m < |Sample|
    ensures '售' !in Sample[m] && '停' !in Sample[m]
  {
    assert '售' !in SampleField(m) && '停' !in SampleField(m);
  }

  lemma SampleUnmarked()
    ensures !Contains(RawSample, SoldOutMarker) && !Contains(RawSample, SuspendedMarker)
  {
    forall m | 0 <= m < |Sample|
      ensures !Contains(Sample[m], SoldOutMarker) && !Contains(Sample[m], SuspendedMarker)
    {
      SampleMarkerFree(m);
      ContainsHead(Sample[m], SoldOutMarker);
      ContainsHead(Sample[m], SuspendedMarker);
    }
    ContainsJoin(Sample, '|', SoldOutMarker);
    ContainsJoin(Sample, '|', SuspendedMarker);
  }

  lemma SampleStationsCell(c: TrainsCollection)
    requires c.stationMap == Stations
    ensures c.StationsCell(Sample) == Ok(SampleRoute)
  {
    SampleStations();
    SampleCodes();
  }

  /** Departure above arrival, and the duration `02:05` read as two hours
      and five minutes. */
  lemma SampleTimeCells(c: TrainsCollection)
    ensures c.TimeCells(Sample) == Ok(SampleClockCells)
  {
    SampleTimes();
    ExampleOneZero();
    var ts := Times(Sample);
    assert ts[0] == "09:00" && ts[1] == "11:05" && ts[|ts| - 1] == "02:05";
  }

  lemma SampleTrainNumber()
    ensures CategoryAt(Sample, 1) && TrainNumber(Sample, 1) == "G1"
  {
    SampleCategory(Sample);
    assert Sample[3] == "G1";
    assert WordPrefix("1") == "1";
  }

  /** The sample's category matches at field 1; its row is `SampleRow`. */
  lemma SampleBuildRow(c: TrainsCollection)
    requires c.stationMap == Stations
    ensures CategoryAt(Sample, 1) && c.BuildRow(Sample, 1) == Ok(SampleRow)
  {
    SampleTrainNumber();
    SampleStationsCell(c);
    SampleTimeCells(c);
    SampleSeatValues();
    assert c.BuildRow(Sample, 1) == Ok(["G1", SampleRoute] + SampleClockCells + SampleSeats);
  }

  /** A collection holding the sample record and asking for its category
      yields the sample's row. */
  lemma SampleSelected(c: TrainsCollection)
    requires c.stationMap == Stations && 'g' in c.options
    ensures c.ProcessRecord(RawSample) == Ok(Some(SampleRow))
  {
    var raw := RawSample;
    SampleFields(Sample);
    SampleCategory(Sample);
    SampleUnmarked();
    assert c.Selects(raw);
    c.SelectedBuildsRow(raw);
    SampleBuildRow(c);
  }

  /** A collection not asking for `g` yields nothing for the sample. */
  lemma SampleNotRequested(c: TrainsCollection)
    requires 'g' !in c.options
    ensures c.ProcessRecord(RawSample) == Ok(None)
  {
    SampleFields(Sample);
    SampleCategory(Sample);
  }

  /** A record whose sale has not opened is skipped, stations or not. */
  lemma NotOnSaleSkipped(c: TrainsCollection)
    ensures c.ProcessRecord(RawNotOnSale) == Ok(None)
  {
    SampleFields(NotOnSale);
    SampleCategory(NotOnSale);
    assert Contains(NotOnSale[1], SoldOutMarker) by {
      assert "12点起售"[4..5] == "售";
      assert OccursAt("12点起售", "售", 4);
      ContainsAt("12点起售", "售");
    }
    ContainsJoin(NotOnSale, '|', SoldOutMarker);
  }

  /** A destination code missing from the station map raises with that code. */
  lemma UnknownDestination(c: TrainsCollection)
    requires c.stationMap == map["BJP" := "北京"] && 'g' in c.options
    ensures c.ProcessRecord(RawSample) == Err(UnknownStation("SHH"))
  {
    SampleFields(Sample);
    SampleCategory(Sample);
    SampleUnmarked();
    DestinationMissing(c);
  }

  lemma DestinationMissing(c: TrainsCollection)
    requires c.stationMap == map["BJP" := "北京"]
    ensures c.StationsCell(Sample) == Err(UnknownStation("SHH"))
  {
    SampleStations();
    SampleCodes();
  }

  /** An empty record has no category match and raises. */
  lemma EmptyRecordRaises(c: TrainsCollection)
    ensures c.ProcessRecord("") == Err(NoMatch(CategoryPattern))
  {
    assert Fields("") == [""];
  }

  /** A query answer with the sample, a record not yet on sale, an empty
      record and the sample again. */
  const Mixed: TrainsCollection :=
    TrainsCollection([RawSample, RawNotOnSale, "", RawSample], Stations, "g")

  /** The loop body's outcome for each of its records. */
  const MixedOutcomes: seq<Outcome> :=
    [Ok(Some(SampleRow)), Ok(None), Err(NoMatch(CategoryPattern)), Ok(Some(SampleRow))]

  lemma MixedOutcome(k: nat)
    requires k < 4
    ensures Mixed.Outcomes()[k] == MixedOutcomes[k]
  {
    if k == 0 || k == 3 {
      SampleSelected(Mixed);
    } else if k == 1 {
      NotOnSaleSkipped(Mixed);
    } else {
      EmptyRecordRaises(Mixed);
    }
  }

  lemma MixedAllOutcomes()
    ensures Mixed.Outcomes() == MixedOutcomes
  {
    forall k | 0 <= k < 4
      ensures Mixed.Outcomes()[k] == MixedOutcomes[k]
    {
      MixedOutcome(k);
    }
  }

  /** A row, a skip, an exception, a row: the run keeps the first row and
      ends with the exception. */
  lemma CollectStopsEarly(row: Row, e: Error)
    ensures Collect([Ok(Some(row)), Ok(None), Err(e), Ok(Some(row))]) == Run([row], Some(e))
  {
    var outs: seq<Outcome> := [Ok(Some(row)), Ok(None), Err(e), Ok(Some(row))];
    assert Collect(outs[..1]) == Run([row], None) by {
      assert outs[..1][..0] == [];
    }
    assert Collect(outs[..2]) == Run([row], None) by {
      assert outs[..2][..1] == outs[..1];
    }
    assert Collect(outs[..3]) == Run([row], Some(e)) by {
      assert outs[..3][..2] == outs[..2];
    }
    assert outs[..3] == outs[..|outs| - 1];
  }

  /** Iterating over it yields the sample's row, skips the record not on
      sale, and stops at the empty record: the last sample is never reached. */
  lemma MixedRun()
    ensures Collect(Mixed.Outcomes()) == Run([SampleRow], Some(NoMatch(CategoryPattern)))
  {
    MixedAllOutcomes();
    CollectStopsEarly(SampleRow, NoMatch(CategoryPattern));
  }
}
