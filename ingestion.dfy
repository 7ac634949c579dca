/**
 * What `TripAnalyzer::ingestFile` does to the store, as functions of the lines of
 * the file: header column detection, the accept/skip decision for each data row,
 * and the fold of the accepted rows into the store. The class method that runs
 * the loop is proved equal to `Ingest` below.
 */
module Ingestion {
  import opened Wrappers
  import opened Csv
  import opened Strtol
  import opened Aggregates

  const ZoneHeader: string := "PickupZoneID"
  const TimeHeaders: set<string> := {"PickupTime", "PickupDateTime"}

  /** Index of the last header cell whose name is in `names`, or -1 when none is. */
  function LastNamed(header: seq<string>, names: set<string>): (i: int)
    ensures -1 <= i < |header|
    ensures i >= 0 ==> header[i] in names && forall j :: i < j < |header| ==> header[j] !in names
    ensures i == -1 ==> forall j :: 0 <= j < |header| ==> header[j] !in names
  {
    if header == [] then -1
    else if header[|header| - 1] in names then |header| - 1
    else LastNamed(header[..|header| - 1], names)
  }

  /** The zone column: the last cell named `PickupZoneID`, else column 1 when the
      header has more than one cell, else undetermined (-1). */
  function ZoneColumn(header: seq<string>): (z: int)
    ensures -1 <= z < |header|
    ensures z == -1 <==> |header| <= 1 && ZoneHeader !in header
  {
    var named := LastNamed(header, {ZoneHeader});
    if named == -1 && |header| > 1 then 1 else named
  }

  /** The time column: the last cell named `PickupTime` or `PickupDateTime`, else column 3
      when the header has more than three cells, else column 2 when it has more than two,
      else undetermined (-1). */
  function TimeColumn(header: seq<string>): (t: int)
    ensures -1 <= t < |header|
    ensures t == -1 <==> |header| <= 2 && forall j :: 0 <= j < |header| ==> header[j] !in TimeHeaders
  {
    var named := LastNamed(header, TimeHeaders);
    if named != -1 then named
    else if |header| > 3 then 3
    else if |header| > 2 then 2
    else -1
  }

  /** The header scan of `ingestFile` and its positional fallbacks. */
  method DetectColumns(header: seq<string>) returns (zoneIdx: int, timeIdx: int)
    ensures zoneIdx == ZoneColumn(header)
    ensures timeIdx == TimeColumn(header)
  {
    zoneIdx, timeIdx := -1, -1;
    for i := 0 to |header|
      invariant zoneIdx == LastNamed(header[..i], {ZoneHeader})
      invariant timeIdx == LastNamed(header[..i], TimeHeaders)
    {
      assert header[..i + 1][..i] == header[..i];
      if header[i] == "PickupZoneID" {
        zoneIdx := i;
      } else if header[i] == "PickupTime" || header[i] == "PickupDateTime" {
        timeIdx := i;
      }
    }
    assert header[..|header|] == header;
    if zoneIdx == -1 && |header| > 1 {
      zoneIdx := 1;
    }
    if timeIdx == -1 && |header| > 3 {
      timeIdx := 3;
    }
    if timeIdx == -1 && |header| > 2 {
      timeIdx := 2;
    }
  }

  /** A named column takes priority over the fallbacks, and of several cells with the
      name the last one wins. */
  lemma NamedColumnWins(a: seq<string>, name: string, b: seq<string>)
    ensures name == ZoneHeader && (forall j :: 0 <= j < |b| ==> b[j] != ZoneHeader) ==>
      ZoneColumn(a + [name] + b) == |a|
    ensures name in TimeHeaders && (forall j :: 0 <= j < |b| ==> b[j] !in TimeHeaders) ==>
      TimeColumn(a + [name] + b) == |a|
  {
    var h := a + [name] + b;
    assert h[|a|] == name;
    if name == ZoneHeader && (forall j :: 0 <= j < |b| ==> b[j] != ZoneHeader) {
      var z := LastNamed(h, {ZoneHeader});
      assert z >= |a|;
    }
    if name in TimeHeaders && (forall j :: 0 <= j < |b| ==> b[j] !in TimeHeaders) {
      var t := LastNamed(h, TimeHeaders);
      assert t >= |a|;
    }
  }

  /** Without the names the positional fallbacks apply, in the order 1 for the zone,
      then 3, then 2 for the time. */
  lemma FallbackColumns(header: seq<string>)
    ensures ZoneHeader !in header ==> ZoneColumn(header) == if |header| > 1 then 1 else -1
    ensures (forall j :: 0 <= j < |header| ==> header[j] !in TimeHeaders) ==>
      TimeColumn(header) == if |header| > 3 then 3 else if |header| > 2 then 2 else -1
  {
    var z := LastNamed(header, {ZoneHeader});
    if z >= 0 {
      assert header[z] in header;
    }
  }

  /** Zone and time can resolve to the same column: `X,PickupTime` gives 1 for both. */
  lemma SameColumnQuirk()
    ensures ZoneColumn(["X", "PickupTime"]) == 1 && TimeColumn(["X", "PickupTime"]) == 1
  {
    NamedColumnWins(["X"], "PickupTime", []);
    assert ["X"] + ["PickupTime"] + [] == ["X", "PickupTime"];
    assert ["X", "PickupTime"][0] != ZoneHeader && ["X", "PickupTime"][1] != ZoneHeader;
  }

  /** Why a data row was skipped, one reason per `continue` of the row loop. */
  datatype SkipReason =
    | EmptyLine
    | WrongFieldCount
    | EmptyZone
    | EmptyTime
    | NoSpace
    | NothingAfterSpace
    | HourNotNumber
    | HourOutOfRange

  datatype RowOutcome = Accepted(zone: string, hour: Hour) | Skipped(reason: SkipReason)

  /** `dateStr.substr(space + 1, 2)`: at most two characters after the space. */
  function HourText(time: string, space: nat): (w: string)
    requires space + 1 < |time|
    ensures 1 <= |w| <= 2
  {
    time[space + 1 .. if space + 3 <= |time| then space + 3 else |time|]
  }

  /** The part of the row decision that reads the time field, for a row whose zone is `zone`:
      it must be non-empty, contain a space with a character after the first one, and the
      one or two characters after that space must read as an hour from 0 to 23. */
  function TimeOutcome(zone: string, time: string): (o: RowOutcome)
    ensures o.Accepted? ==> o.zone == zone
    ensures o.Accepted? ==> FirstIndex(time, ' ') + 1 < |time|
    ensures o.Accepted? ==> Stoi(HourText(time, FirstIndex(time, ' '))) == Some(o.hour as int)
  {
    if time == [] then Skipped(EmptyTime)
    else
      var space := FirstIndex(time, ' ');
      if space == |time| then Skipped(NoSpace)
      else if space + 1 >= |time| then Skipped(NothingAfterSpace)
      else
        match Stoi(HourText(time, space))
        case None => Skipped(HourNotNumber)
        case Some(h) => if h < 0 || h > 23 then Skipped(HourOutOfRange) else Accepted(zone, h)
  }

  /** When the time field has at least two characters after its first space, the hour is
      what `std::stoi` reads from exactly those two characters. */
  lemma HourAfterFirstSpace(zone: string, time: string, p: nat)
    requires p + 2 < |time| && time[p] == ' '
    requires forall j :: 0 <= j < p ==> time[j] != ' '
    ensures TimeOutcome(zone, time) ==
      match Stoi([time[p + 1], time[p + 2]])
      case None => Skipped(HourNotNumber)
      case Some(h) => if h < 0 || h > 23 then Skipped(HourOutOfRange) else Accepted(zone, h)
  {
    FirstIndexIs(time, ' ', p);
    assert HourText(time, p) == [time[p + 1], time[p + 2]];
  }

  /** The decision the row loop of `ingestFile` takes for one data line, given the header
      width and the two column indices. */
  function ClassifyRow(line: string, width: nat, zoneIdx: nat, timeIdx: nat): (o: RowOutcome)
    requires zoneIdx < width && timeIdx < width
    ensures o.Accepted? ==> line != [] && |Fields(line)| == width
    ensures o.Accepted? ==> o.zone == Fields(line)[zoneIdx] && o.zone != ""
  {
    if line == [] then Skipped(EmptyLine)
    else
      var tokens := Fields(line);
      if |tokens| != width then Skipped(WrongFieldCount)
      else if tokens[zoneIdx] == [] then Skipped(EmptyZone)
      else TimeOutcome(tokens[zoneIdx], tokens[timeIdx])
  }

  /** The checks of the row loop of `ingestFile`, in the order it makes them; each early
      return is one of its `continue`s. The bounds checks on the two indices are absent
      because the indices are below the header width, which the field count equals. */
  method CheckRow(line: string, expectedCols: nat, zoneIdx: nat, timeIdx: nat) returns (outcome: RowOutcome)
    requires zoneIdx < expectedCols && timeIdx < expectedCols
    ensures outcome == ClassifyRow(line, expectedCols, zoneIdx, timeIdx)
  {
    if line == [] {
      return Skipped(EmptyLine);
    }
    var tokens := ParseCSVRow(line);
    if |tokens| != expectedCols {
      return Skipped(WrongFieldCount);
    }
    var zone := tokens[zoneIdx];
    if zone == [] {
      return Skipped(EmptyZone);
    }
    var dateStr := tokens[timeIdx];
    if dateStr == [] {
      return Skipped(EmptyTime);
    }
    var spacePos := FirstIndex(dateStr, ' ');
    if spacePos == |dateStr| {
      return Skipped(NoSpace);
    }
    if spacePos + 1 >= |dateStr| {
      return Skipped(NothingAfterSpace);
    }
    var hourStr := HourText(dateStr, spacePos);
    var parsed := Stoi(hourStr);
    if parsed.None? {
      return Skipped(HourNotNumber);
    }
    var h := parsed.value;
    if h < 0 || h > 23 {
      return Skipped(HourOutOfRange);
    }
    return Accepted(zone, h);
  }

  /** A row is accepted exactly when it is non-empty, has the header's field count, a
      non-empty zone, and a time field with a first space followed by one or two
      characters that `std::stoi` reads as 0 to 23; the zone and hour are those. */
  lemma AcceptedRow(line: string, width: nat, zoneIdx: nat, timeIdx: nat, zone: string, hour: Hour)
    requires zoneIdx < width && timeIdx < width
    ensures ClassifyRow(line, width, zoneIdx, timeIdx) == Accepted(zone, hour) <==>
      && line != []
      && |Fields(line)| == width
      && Fields(line)[zoneIdx] == zone && zone != ""
      && ' ' in Fields(line)[timeIdx]
      && FirstIndex(Fields(line)[timeIdx], ' ') + 1 < |Fields(line)[timeIdx]|
      && Stoi(HourText(Fields(line)[timeIdx], FirstIndex(Fields(line)[timeIdx], ' '))) == Some(hour as int)
  {
    if line != [] && |Fields(line)| == width {
      var time := Fields(line)[timeIdx];
      if ' ' in time {
        var j :| 0 <= j < |time| && time[j] == ' ';
        assert FirstIndex(time, ' ') <= j;
      }
    }
  }

  /** The store after one row: a skipped row changes nothing; an accepted row adds one
      trip to its zone's total and to its hour, creating the zone with zero counters first. */
  function ApplyRow(store: Store, o: RowOutcome): (r: Store)
    ensures o.Skipped? ==> r == store
    ensures o.Accepted? ==> r.Keys == store.Keys + {o.zone}
    ensures Grows(store, r)
  {
    match o
    case Skipped(_) => store
    case Accepted(zone, h) => store[zone := Record(StatsOf(store, zone), h)]
  }

  /** The rows applied in file order. */
  function ApplyRows(store: Store, rows: seq<string>, width: nat, zoneIdx: nat, timeIdx: nat): Store
    requires zoneIdx < width && timeIdx < width
    decreases |rows|
  {
    if rows == [] then store
    else
      ApplyRow(ApplyRows(store, rows[..|rows| - 1], width, zoneIdx, timeIdx),
               ClassifyRow(rows[|rows| - 1], width, zoneIdx, timeIdx))
  }

  /** Applying one more row of the file. */
  lemma ApplyRowsStep(store: Store, rows: seq<string>, n: nat, width: nat, zoneIdx: nat, timeIdx: nat)
    requires zoneIdx < width && timeIdx < width
    requires n < |rows|
    ensures ApplyRows(store, rows[..n + 1], width, zoneIdx, timeIdx)
         == ApplyRow(ApplyRows(store, rows[..n], width, zoneIdx, timeIdx), ClassifyRow(rows[n], width, zoneIdx, timeIdx))
  {
    assert rows[..n + 1][..n] == rows[..n];
  }

  /** The store after `ingestFile` on a file given as its lines: `None` is a file that
      cannot be opened, and `Some([])` one without a header line. */
  function Ingest(store: Store, file: Option<seq<string>>): Store
  {
    match file
    case None => store
    case Some(lines) =>
      if lines == [] then store
      else
        var header := Fields(lines[0]);
        var zoneIdx := ZoneColumn(header);
        var timeIdx := TimeColumn(header);
        if zoneIdx == -1 || timeIdx == -1 then store
        else ApplyRows(store, lines[1..], |header|, zoneIdx, timeIdx)
  }

  /** An accepted row changes exactly its zone's total and its hour's counter, each by
      one, and leaves every other zone and hour as it was. */
  lemma AcceptedRowEffect(store: Store, zone: string, h: Hour)
    ensures var after := ApplyRow(store, Accepted(zone, h));
      && after.Keys == store.Keys + {zone}
      && after[zone].totalTrips == (if zone in store then store[zone].totalTrips else 0) + 1
      && after[zone].hourlyTrips[h] == (if zone in store then store[zone].hourlyTrips[h] else 0) + 1
      && (forall g :: 0 <= g < HoursPerDay && g != h ==>
            after[zone].hourlyTrips[g] == if zone in store then store[zone].hourlyTrips[g] else 0)
      && (forall y :: y in store && y != zone ==> after[y] == store[y])
  {
  }

  lemma {:induction false} ApplyRowsKeepsInvariant(store: Store, rows: seq<string>, width: nat, zoneIdx: nat, timeIdx: nat)
    requires zoneIdx < width && timeIdx < width
    requires StoreInvariant(store)
    ensures StoreInvariant(ApplyRows(store, rows, width, zoneIdx, timeIdx))
    decreases |rows|
  {
    if rows != [] {
      var before := ApplyRows(store, rows[..|rows| - 1], width, zoneIdx, timeIdx);
      ApplyRowsKeepsInvariant(store, rows[..|rows| - 1], width, zoneIdx, timeIdx);
      var o := ClassifyRow(rows[|rows| - 1], width, zoneIdx, timeIdx);
      if o.Accepted? {
        var after := ApplyRow(before, o);
        forall z | z in after
          ensures z != "" && after[z].totalTrips >= 1 && Conserved(after[z])
        {
          if z != o.zone {
            assert after[z] == before[z];
          }
        }
      }
    }
  }

  /** Count conservation and key validity hold after every ingestion. */
  lemma IngestKeepsInvariant(store: Store, file: Option<seq<string>>)
    requires StoreInvariant(store)
    ensures StoreInvariant(Ingest(store, file))
  {
    if file.Some? && file.value != [] {
      var header := Fields(file.value[0]);
      if ZoneColumn(header) != -1 && TimeColumn(header) != -1 {
        ApplyRowsKeepsInvariant(store, file.value[1..], |header|, ZoneColumn(header), TimeColumn(header));
      }
    }
  }

  lemma GrowsTransitive(a: Store, b: Store, c: Store)
    requires Grows(a, b) && Grows(b, c)
    ensures Grows(a, c)
  {
  }

  lemma {:induction false} ApplyRowsGrows(store: Store, rows: seq<string>, width: nat, zoneIdx: nat, timeIdx: nat)
    requires zoneIdx < width && timeIdx < width
    ensures Grows(store, ApplyRows(store, rows, width, zoneIdx, timeIdx))
    decreases |rows|
  {
    if rows != [] {
      var before := ApplyRows(store, rows[..|rows| - 1], width, zoneIdx, timeIdx);
      ApplyRowsGrows(store, rows[..|rows| - 1], width, zoneIdx, timeIdx);
      var after := ApplyRow(before, ClassifyRow(rows[|rows| - 1], width, zoneIdx, timeIdx));
      assert Grows(before, after);
      GrowsTransitive(store, before, after);
    }
  }

  /** Ingestion is monotone: no zone disappears and no counter decreases. */
  lemma IngestGrows(store: Store, file: Option<seq<string>>)
    ensures Grows(store, Ingest(store, file))
  {
    if file.Some? && file.value != [] {
      var header := Fields(file.value[0]);
      if ZoneColumn(header) != -1 && TimeColumn(header) != -1 {
        ApplyRowsGrows(store, file.value[1..], |header|, ZoneColumn(header), TimeColumn(header));
      }
    }
  }

  /** A file that cannot be opened, has no header line, or whose header leaves a column
      undetermined leaves the store as it was. */
  lemma IngestNoOp(store: Store, file: Option<seq<string>>)
    requires || file.None?
             || file.value == []
             || ZoneColumn(Fields(file.value[0])) == -1
             || TimeColumn(Fields(file.value[0])) == -1
    ensures Ingest(store, file) == store
  {
  }
}
