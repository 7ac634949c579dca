/**
 * The records of analyzer.h: the per-zone statistics kept by the analyzer's
 * store, and the rows the two queries return.
 */
module Aggregates {

  const HoursPerDay: nat := 24

  /** An hour of the day, 0 to 23: the index range of the hourly counters. */
  type Hour = h: nat | h < HoursPerDay

  /** The fixed array of 24 hourly counters. */
  type HourCounters = s: seq<nat> | |s| == HoursPerDay witness seq(HoursPerDay, _ => 0)

  /** `TripAnalyzer::ZoneStats`: the zone's trip count and its count per pickup hour. */
  datatype ZoneStats = ZoneStats(totalTrips: nat, hourlyTrips: HourCounters)

  /** `ZoneCount`: a row of `topZones`. */
  datatype ZoneCount = ZoneCount(zone: string, count: nat)

  /** `SlotCount`: a row of `topBusySlots`; its hour is 0 to 23 by type. */
  datatype SlotCount = SlotCount(zone: string, hour: Hour, count: nat)

  /** The store `m_data`: zone identifier to statistics. */
  type Store = map<string, ZoneStats>

  /** A value-initialised `ZoneStats`: no trips, every hourly counter zero. */
  function NewStats(): (st: ZoneStats)
    ensures st.totalTrips == 0
    ensures forall h :: 0 <= h < HoursPerDay ==> st.hourlyTrips[h] == 0
    ensures Conserved(st)
  {
    var zeros := seq(HoursPerDay, _ => 0);
    SumZeros(zeros);
    ZoneStats(0, zeros)
  }

  function Sum(s: seq<nat>): nat
  {
    if s == [] then 0 else Sum(s[..|s| - 1]) + s[|s| - 1]
  }

  lemma {:induction false} SumZeros(s: seq<nat>)
    requires forall i :: 0 <= i < |s| ==> s[i] == 0
    ensures Sum(s) == 0
    decreases |s|
  {
    if s != [] {
      SumZeros(s[..|s| - 1]);
    }
  }

  /** Adding one to one counter adds one to the sum. */
  lemma {:induction false} SumIncrement(s: seq<nat>, h: nat)
    requires h < |s|
    ensures Sum(s[h := s[h] + 1]) == Sum(s) + 1
    decreases |s|
  {
    var t := s[h := s[h] + 1];
    var n := |s| - 1;
    if h < n {
      assert t[..n] == s[..n][h := s[h] + 1];
      SumIncrement(s[..n], h);
    } else {
      assert t[..n] == s[..n];
    }
  }

  /** Count conservation: the total is the sum of the hourly counters. */
  predicate Conserved(st: ZoneStats)
  {
    st.totalTrips == Sum(st.hourlyTrips)
  }

  /** The two increments of an accepted row, `total_trips++` and `hourly_trips[h]++`. */
  function Record(st: ZoneStats, h: Hour): (r: ZoneStats)
    ensures r.totalTrips == st.totalTrips + 1
    ensures r.hourlyTrips[h] == st.hourlyTrips[h] + 1
    ensures forall g :: 0 <= g < HoursPerDay && g != h ==> r.hourlyTrips[g] == st.hourlyTrips[g]
    ensures Conserved(st) ==> Conserved(r)
  {
    SumIncrement(st.hourlyTrips, h);
    ZoneStats(st.totalTrips + 1, st.hourlyTrips[h := st.hourlyTrips[h] + 1])
  }

  /** `m_data[zone]`: the zone's entry, or a fresh zero entry when the zone is new. */
  function StatsOf(store: Store, zone: string): ZoneStats
  {
    if zone in store then store[zone] else NewStats()
  }

  /** What holds of the store after every ingestion: keys are non-empty zone identifiers
      that have at least one trip, and each total is the sum of its hourly counters. */
  ghost predicate StoreInvariant(store: Store)
  {
    forall z :: z in store ==> z != "" && store[z].totalTrips >= 1 && Conserved(store[z])
  }

  /** `after` keeps every zone of `before` and no counter went down. */
  ghost predicate Grows(before: Store, after: Store)
  {
    && before.Keys <= after.Keys
    && (forall z :: z in before ==> before[z].totalTrips <= after[z].totalTrips)
    && (forall z, h :: z in before && 0 <= h < HoursPerDay ==>
          before[z].hourlyTrips[h] <= after[z].hourlyTrips[h])
  }
}
