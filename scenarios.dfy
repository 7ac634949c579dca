/**
 * Concrete inputs worked through the model: the documented example files and a tie.
 */
module Scenarios {
  import opened Wrappers
  import opened Csv
  import opened Strtol
  import opened Aggregates
  import opened Ingestion
  import opened Ranking
  import opened Queries
  import opened Analyzer

  lemma FieldsOfThree(a: string, b: string, c: string)
    requires NoComma(a) && NoComma(b) && NoComma(c)
    ensures Fields(a + "," + b + "," + c) == [a, b, c]
  {
    var fs := [a, b, c];
    assert fs[1..][1..] == [c];
    assert Join(fs[1..]) == b + "," + c;
    assert Join(fs) == a + "," + b + "," + c;
    SplitJoin(fs);
  }

  lemma FieldsOfFour(a: string, b: string, c: string, d: string)
    requires NoComma(a) && NoComma(b) && NoComma(c) && NoComma(d)
    ensures Fields(a + "," + b + "," + c + "," + d) == [a, b, c, d]
  {
    var fs := [a, b, c, d];
    assert fs[1..][1..][1..] == [d];
    assert fs[1..][1..] == [c, d];
    assert Join(fs[1..][1..]) == c + "," + d;
    assert Join(fs[1..]) == b + "," + c + "," + d;
    assert Join(fs) == a + "," + b + "," + c + "," + d;
    SplitJoin(fs);
  }

  /** A time field made of a space-free date, a space and a clock: its hour is read from
      the first two characters of the clock. */
  lemma HourOfClock(zone: string, date: string, clock: string)
    requires ' ' !in date && |clock| >= 2
    ensures TimeOutcome(zone, date + " " + clock) ==
      match Stoi([clock[0], clock[1]])
      case None => Skipped(HourNotNumber)
      case Some(h) => if h < 0 || h > 23 then Skipped(HourOutOfRange) else Accepted(zone, h)
  {
    var time := date + " " + clock;
    forall j | 0 <= j < |date|
      ensures time[j] != ' '
    {
      assert time[j] == date[j];
    }
    HourAfterFirstSpace(zone, time, |date|);
  }

  /** A file of one header and one accepted row gives a store with that one trip. */
  lemma OneRowFile(headerLine: string, header: seq<string>, row: string, zone: string, h: Hour)
    requires Fields(headerLine) == header
    requires ZoneColumn(header) != -1 && TimeColumn(header) != -1
    requires ClassifyRow(row, |header|, ZoneColumn(header), TimeColumn(header)) == Accepted(zone, h)
    ensures Ingest(map[], Some([headerLine, row])) == map[zone := Record(NewStats(), h)]
  {
    var lines := [headerLine, row];
    var z, t := ZoneColumn(header), TimeColumn(header);
    assert lines[0] == headerLine && lines[1..] == [row] && [row][..0] == [];
    assert ApplyRows(map[], [], |header|, z, t) == map[];
    assert ApplyRows(map[], [row], |header|, z, t) == ApplyRow(map[], Accepted(zone, h));
    assert StatsOf(map[], zone) == NewStats();
  }

  /** The documented header names its zone column 1 and its time column 2. */
  lemma NamedHeaderColumns(header: seq<string>)
    requires header == ["TripID", "PickupZoneID", "PickupTime"]
    ensures ZoneColumn(header) == 1 && TimeColumn(header) == 2
  {
    NamedColumnWins(["TripID"], "PickupZoneID", ["PickupTime"]);
    NamedColumnWins(["TripID", "PickupZoneID"], "PickupTime", []);
    assert ["TripID"] + ["PickupZoneID"] + ["PickupTime"] == header;
    assert ["TripID", "PickupZoneID"] + ["PickupTime"] + [] == header;
  }

  /** Header `TripID,PickupZoneID,PickupTime` and one row at 09:15 record one trip for Z1 at hour 9. */
  lemma NamedHeaderScenario(time: string)
    requires time == "2024-01-05 09:15"
    ensures Ingest(map[], Some(["TripID,PickupZoneID,PickupTime", "1,Z1," + time]))
         == map["Z1" := Record(NewStats(), 9)]
  {
    var header := ["TripID", "PickupZoneID", "PickupTime"];
    assert "TripID,PickupZoneID,PickupTime" == "TripID" + "," + "PickupZoneID" + "," + "PickupTime";
    assert NoComma("TripID") && NoComma("PickupZoneID") && NoComma("PickupTime");
    FieldsOfThree("TripID", "PickupZoneID", "PickupTime");
    NamedHeaderColumns(header);
    NamedRow(time);
    OneRowFile("TripID,PickupZoneID,PickupTime", header, "1,Z1," + time, "Z1", 9);
  }

  /** The row `1,Z1,2024-01-05 09:15` under that header is accepted for Z1 at hour 9. */
  lemma NamedRow(time: string)
    requires time == "2024-01-05 09:15"
    ensures ClassifyRow("1,Z1," + time, 3, 1, 2) == Accepted("Z1", 9)
  {
    assert "1,Z1," + time == "1" + "," + "Z1" + "," + time;
    assert NoComma(time);
    FieldsOfThree("1", "Z1", time);
    assert TimeOutcome("Z1", time) == Accepted("Z1", 9) by {
      assert time == "2024-01-05" + " " + "09:15";
      HourOfClock("Z1", "2024-01-05", "09:15");
      StoiTwo('0', '9');
    }
  }

  /** Without header names, four columns use column 1 for the zone and column 3 for the time. */
  lemma PositionalHeaderScenario(time: string)
    requires time == "2024-01-05 23:59"
    ensures Ingest(map[], Some(["A,B,C,D", "a,Z2,x," + time]))
         == map["Z2" := Record(NewStats(), 23)]
  {
    var header := ["A", "B", "C", "D"];
    assert "A,B,C,D" == "A" + "," + "B" + "," + "C" + "," + "D";
    FieldsOfFour("A", "B", "C", "D");
    assert ZoneHeader !in header;
    assert forall j :: 0 <= j < |header| ==> header[j] !in TimeHeaders;
    FallbackColumns(header);
    PositionalRow(time);
    OneRowFile("A,B,C,D", header, "a,Z2,x," + time, "Z2", 23);
  }

  /** The row `a,Z2,x,2024-01-05 23:59` under that header is accepted for Z2 at hour 23. */
  lemma PositionalRow(time: string)
    requires time == "2024-01-05 23:59"
    ensures ClassifyRow("a,Z2,x," + time, 4, 1, 3) == Accepted("Z2", 23)
  {
    assert "a,Z2,x," + time == "a" + "," + "Z2" + "," + "x" + "," + time;
    assert NoComma(time);
    FieldsOfFour("a", "Z2", "x", time);
    assert TimeOutcome("Z2", time) == Accepted("Z2", 23) by {
      assert time == "2024-01-05" + " " + "23:59";
      HourOfClock("Z2", "2024-01-05", "23:59");
      StoiTwo('2', '3');
    }
  }

  /** A row with an empty zone field is skipped. */
  lemma EmptyZoneRow()
    ensures ClassifyRow("1,,2024-01-05 10:00", 3, 1, 2) == Skipped(EmptyZone)
  {
    assert "1,,2024-01-05 10:00" == "1" + "," + "" + "," + "2024-01-05 10:00";
    assert NoComma("2024-01-05 10:00");
    FieldsOfThree("1", "", "2024-01-05 10:00");
  }

  /** An hour with no leading digit is skipped. */
  lemma NonNumericHourRow(time: string)
    requires time == "2024-01-05 XY"
    ensures ClassifyRow("1,Z1," + time, 3, 1, 2) == Skipped(HourNotNumber)
  {
    assert "1,Z1," + time == "1" + "," + "Z1" + "," + time;
    assert NoComma(time);
    FieldsOfThree("1", "Z1", time);
    assert TimeOutcome("Z1", time) == Skipped(HourNotNumber) by {
      assert time == "2024-01-05" + " " + "XY";
      HourOfClock("Z1", "2024-01-05", "XY");
      StoiTwo('X', 'Y');
    }
  }

  /** Two zones with five trips each come out in zone order: `Z1` before `Z2`. */
  lemma TieBrokenByZone(store: Store, r: seq<ZoneCount>)
    requires store.Keys == {"Z1", "Z2"}
    requires store["Z1"].totalTrips == 5 && store["Z2"].totalTrips == 5
    requires IsTopK(r, ZoneEntries(store), 2, ZoneBefore)
    ensures r == [ZoneCount("Z1", 5), ZoneCount("Z2", 5)]
  {
    var expected := [ZoneCount("Z1", 5), ZoneCount("Z2", 5)];
    var s := ZoneEntries(store);
    assert s == {ZoneCount("Z1", 5), ZoneCount("Z2", 5)};
    assert |s| == 2;
    assert StrLess("Z1", "Z2") by {
      assert "Z1"[1..] == "1" && "Z2"[1..] == "2";
    }
    assert IsTopK(expected, s, 2, ZoneBefore);
    ZoneBeforeIsStrictTotal();
    TopKUnique(r, expected, s, 2, ZoneBefore);
  }

  /** A store holding one trip, for `zone` at hour `h`, ranks that zone alone with count 1
      for any positive `k`. */
  lemma OneTripTopZones(zone: string, h: Hour, k: int, r: seq<ZoneCount>)
    requires k >= 1
    requires IsTopK(r, ZoneEntries(map[zone := Record(NewStats(), h)]), k, ZoneBefore)
    ensures r == [ZoneCount(zone, 1)]
  {
    var store := map[zone := Record(NewStats(), h)];
    var row := ZoneCount(zone, 1);
    forall x
      ensures x in ZoneEntries(store) <==> x == row
    {
      ZoneEntriesExactly(store, x);
    }
    assert ZoneEntries(store) == {row};
    ZoneBeforeIsStrictTotal();
    TopKUnique(r, [row], ZoneEntries(store), k, ZoneBefore);
  }

  /** The same store has exactly one busy slot, `(zone, h)` with count 1, for any positive `k`. */
  lemma OneTripTopSlots(zone: string, h: Hour, k: int, r: seq<SlotCount>)
    requires k >= 1
    requires IsTopK(r, SlotEntries(map[zone := Record(NewStats(), h)]), k, SlotBefore)
    ensures r == [SlotCount(zone, h, 1)]
  {
    var store := map[zone := Record(NewStats(), h)];
    var row := SlotCount(zone, h, 1);
    forall x
      ensures x in SlotEntries(store) <==> x == row
    {
      SlotEntriesExactly(store, x);
    }
    assert SlotEntries(store) == {row};
    SlotBeforeIsStrictTotal();
    TopKUnique(r, [row], SlotEntries(store), k, SlotBefore);
  }

  /** The documented file through the analyzer: after ingesting it, `topZones(1)` is
      `[(Z1, 1)]` and `topBusySlots(5)` is `[(Z1, 9, 1)]`. */
  method DocumentedExample() returns (zones: seq<ZoneCount>, slots: seq<SlotCount>)
    ensures zones == [ZoneCount("Z1", 1)]
    ensures slots == [SlotCount("Z1", 9, 1)]
  {
    var time := "2024-01-05 09:15";
    var analyzer := new TripAnalyzer();
    NamedHeaderScenario(time);
    analyzer.IngestFile(Some(["TripID,PickupZoneID,PickupTime", "1,Z1," + time]));
    zones := analyzer.TopZones(1);
    slots := analyzer.TopBusySlots(5);
    OneTripTopZones("Z1", 9, 1, zones);
    OneTripTopSlots("Z1", 9, 5, slots);
  }

  /** The header `A,PickupZoneID,PickupTime,` names zone column 1 and time column 2;
      its trailing comma makes a fourth, empty cell. */
  lemma TrailingCommaHeaderColumns(header: seq<string>)
    requires header == ["A", "PickupZoneID", "PickupTime", ""]
    ensures ZoneColumn(header) == 1 && TimeColumn(header) == 2
  {
    NamedColumnWins(["A"], "PickupZoneID", ["PickupTime", ""]);
    NamedColumnWins(["A", "PickupZoneID"], "PickupTime", [""]);
    assert ["A"] + ["PickupZoneID"] + ["PickupTime", ""] == header;
    assert ["A", "PickupZoneID"] + ["PickupTime"] + [""] == header;
  }

  /** The row `1,Z3,2024-01-05 05:00,` has four fields, the last one empty, and is
      accepted for Z3 at hour 5. */
  lemma TrailingCommaRow(time: string)
    requires time == "2024-01-05 05:00"
    ensures ClassifyRow("1,Z3," + time + ",", 4, 1, 2) == Accepted("Z3", 5)
  {
    assert "1,Z3," + time + "," == "1" + "," + "Z3" + "," + time + "," + "";
    assert NoComma(time);
    FieldsOfFour("1", "Z3", time, "");
    assert TimeOutcome("Z3", time) == Accepted("Z3", 5) by {
      assert time == "2024-01-05" + " " + "05:00";
      HourOfClock("Z3", "2024-01-05", "05:00");
      StoiTwo('0', '5');
    }
  }

  /** Header and row both ending in a comma: the widths agree at four fields and the
      row records one trip for Z3 at hour 5. */
  lemma TrailingCommaScenario(time: string)
    requires time == "2024-01-05 05:00"
    ensures Ingest(map[], Some(["A,PickupZoneID,PickupTime,", "1,Z3," + time + ","]))
         == map["Z3" := Record(NewStats(), 5)]
  {
    var header := ["A", "PickupZoneID", "PickupTime", ""];
    assert "A,PickupZoneID,PickupTime," == "A" + "," + "PickupZoneID" + "," + "PickupTime" + "," + "";
    assert NoComma("A") && NoComma("PickupZoneID") && NoComma("PickupTime");
    FieldsOfFour("A", "PickupZoneID", "PickupTime", "");
    TrailingCommaHeaderColumns(header);
    TrailingCommaRow(time);
    OneRowFile("A,PickupZoneID,PickupTime,", header, "1,Z3," + time + ",", "Z3", 5);
  }
}
