/**
 * `TripAnalyzer`: the store of per-zone counters, filled by `IngestFile` and read
 * by the two ranking queries.
 */
module Analyzer {
  import opened Wrappers
  import opened Csv
  import opened Aggregates
  import opened Ingestion
  import opened Ranking
  import opened Queries

  class TripAnalyzer {
    /** `m_data`: zone identifier to its statistics. */
    var data: Store

    ghost predicate Valid()
      reads this
    {
      StoreInvariant(data)
    }

    constructor ()
      ensures Valid()
      ensures data == map[]
    {
      data := map[];
    }

    /** `ingestFile`: the file is given as its lines (`None` when it cannot be opened).
        Bad rows are skipped, the call never fails, and the store ends as `Ingest`
        says; no zone is lost and no counter decreases. */
    method IngestFile(file: Option<seq<string>>)
      requires Valid()
      modifies this
      ensures Valid()
      ensures data == Ingest(old(data), file)
      ensures Grows(old(data), data)
    {
      IngestKeepsInvariant(data, file);
      IngestGrows(data, file);
      if file.None? {
        return;
      }
      var lines := file.value;
      if |lines| == 0 {
        return;
      }
      var headerTokens := ParseCSVRow(lines[0]);
      var expectedCols := |headerTokens|;
      var zoneIdx, timeIdx := DetectColumns(headerTokens);
      if zoneIdx == -1 || timeIdx == -1 {
        return;
      }
      IngestRows(lines[1..], expectedCols, zoneIdx, timeIdx);
    }

    /** The row loop of `ingestFile`: every data line is checked, and an accepted one adds
        a trip to its zone's total and to its hour, creating the zone's entry first when new. */
    method IngestRows(rows: seq<string>, expectedCols: nat, zoneIdx: nat, timeIdx: nat)
      requires zoneIdx < expectedCols && timeIdx < expectedCols
      modifies this
      ensures data == ApplyRows(old(data), rows, expectedCols, zoneIdx, timeIdx)
    {
      for i := 0 to |rows|
        invariant data == ApplyRows(old(data), rows[..i], expectedCols, zoneIdx, timeIdx)
      {
        ApplyRowsStep(old(data), rows, i, expectedCols, zoneIdx, timeIdx);
        var outcome := CheckRow(rows[i], expectedCols, zoneIdx, timeIdx);
        if outcome.Skipped? {
          continue;
        }
        RecordTrip(outcome.zone, outcome.hour);
      }
      assert rows[..|rows|] == rows;
    }

    /** `m_data[zone].total_trips++` and `m_data[zone].hourly_trips[h]++`: the zone's entry,
        created with zero counters when missing, gains one trip in total and one at hour `h`. */
    method RecordTrip(zone: string, h: Hour)
      modifies this
      ensures data == ApplyRow(old(data), Accepted(zone, h))
    {
      var stats := if zone in data then data[zone] else NewStats();
      stats := stats.(totalTrips := stats.totalTrips + 1);
      stats := stats.(hourlyTrips := stats.hourlyTrips[h := stats.hourlyTrips[h] + 1]);
      data := data[zone := stats];
    }

    /** `topZones(k)`: the `k` zones with most trips (all of them when `k` is negative),
        most trips first and ties by zone identifier ascending. The store is only read. */
    method TopZones(k: int := 10) returns (result: seq<ZoneCount>)
      ensures IsTopK(result, ZoneEntries(data), k, ZoneBefore)
      ensures |result| == TruncLen(k, |data.Keys|)
    {
      var entries: seq<ZoneCount> := [];
      var rest := data.Keys;
      while rest != {}
        invariant rest <= data.Keys
        invariant Distinct(entries)
        invariant forall i :: 0 <= i < |entries| ==> entries[i].zone !in rest && entries[i] in ZoneEntries(data)
        invariant forall z :: z in data && z !in rest ==> ZoneCount(z, data[z].totalTrips) in entries
        decreases rest
      {
        var zone :| zone in rest;
        entries := entries + [ZoneCount(zone, data[zone].totalTrips)];
        rest := rest - {zone};
      }
      ZoneBeforeIsStrictTotal();
      result := InsertionSort(entries, ZoneBefore);
      PermutationElements(entries, result, ZoneEntries(data));
      TruncatedIsTopK(result, ZoneEntries(data), k, ZoneBefore);
      ZoneEntriesCard(data);
      if k >= 0 && k < |result| {
        result := result[..k];
      }
    }

    /** `topBusySlots(k)`: the `k` (zone, hour) slots with most trips among those with a
        positive counter, ordered by count descending, zone ascending, hour ascending. */
    method TopBusySlots(k: int := 10) returns (result: seq<SlotCount>)
      ensures IsTopK(result, SlotEntries(data), k, SlotBefore)
    {
      var entries: seq<SlotCount> := [];
      var rest := data.Keys;
      while rest != {}
        invariant rest <= data.Keys
        invariant Distinct(entries)
        invariant forall i :: 0 <= i < |entries| ==> entries[i].zone !in rest && entries[i] in SlotEntries(data)
        invariant forall x :: x in SlotEntries(data) && x.zone !in rest ==> x in entries
        decreases rest
      {
        var zone :| zone in rest;
        var slots := ZoneSlots(zone);
        forall i, j | 0 <= i < j < |entries + slots|
          ensures (entries + slots)[i] != (entries + slots)[j]
        {
          if i < |entries| <= j {
            assert (entries + slots)[j] == slots[j - |entries|];
          }
        }
        entries := entries + slots;
        rest := rest - {zone};
      }
      SlotBeforeIsStrictTotal();
      result := InsertionSort(entries, SlotBefore);
      PermutationElements(entries, result, SlotEntries(data));
      TruncatedIsTopK(result, SlotEntries(data), k, SlotBefore);
      if k >= 0 && k < |result| {
        result := result[..k];
      }
    }

    /** The inner loop of `topBusySlots` for one zone: its hours with a positive counter,
        in hour order, each with its count. */
    method ZoneSlots(zone: string) returns (slots: seq<SlotCount>)
      requires zone in data
      ensures Distinct(slots)
      ensures forall i :: 0 <= i < |slots| ==> slots[i].zone == zone && slots[i] in SlotEntries(data)
      ensures forall x :: x in SlotEntries(data) && x.zone == zone ==> x in slots
    {
      slots := [];
      var stats := data[zone];
      for h := 0 to HoursPerDay
        invariant forall i :: 0 <= i < |slots| ==>
          slots[i].zone == zone && slots[i].hour < h && slots[i] in SlotEntries(data)
        invariant Distinct(slots)
        invariant forall x :: x in SlotEntries(data) && x.zone == zone && x.hour < h ==> x in slots
      {
        if stats.hourlyTrips[h] > 0 {
          SlotEntriesExactly(data, SlotCount(zone, h, stats.hourlyTrips[h]));
          slots := slots + [SlotCount(zone, h, stats.hourlyTrips[h])];
        }
        forall x | x in SlotEntries(data) && x.zone == zone && x.hour == h
          ensures x in slots
        {
          SlotEntriesExactly(data, x);
        }
      }
    }
  }
}
