/**
 * The populations `topZones` and `topBusySlots` rank, and their comparators.
 */
module Queries {
  import opened Aggregates
  import opened Ranking

  /** The `topZones` comparator: more trips first, then the zone identifier ascending. */
  predicate ZoneBefore(a: ZoneCount, b: ZoneCount)
    ensures ZoneBefore(a, b) ==> a.count >= b.count
  {
    if a.count != b.count then a.count > b.count else StrLess(a.zone, b.zone)
  }

  /** The `topBusySlots` comparator: more trips first, then zone ascending, then hour ascending. */
  predicate SlotBefore(a: SlotCount, b: SlotCount)
    ensures SlotBefore(a, b) ==> a.count >= b.count
  {
    if a.count != b.count then a.count > b.count
    else if a.zone != b.zone then StrLess(a.zone, b.zone)
    else a.hour < b.hour
  }

  /** The zone comparator is a strict total order on all rows, so sorting by it has a
      single possible outcome. */
  lemma ZoneBeforeIsStrictTotal()
    ensures StrictOrder(ZoneBefore) && Connected(ZoneBefore)
  {
    forall a: ZoneCount
      ensures !ZoneBefore(a, a)
    {
      StrLessIrreflexive(a.zone);
    }
    forall a: ZoneCount, b: ZoneCount, c: ZoneCount | ZoneBefore(a, b) && ZoneBefore(b, c)
      ensures ZoneBefore(a, c)
    {
      if a.count == b.count == c.count {
        StrLessTransitive(a.zone, b.zone, c.zone);
      }
    }
    forall a: ZoneCount, b: ZoneCount | a != b
      ensures ZoneBefore(a, b) || ZoneBefore(b, a)
    {
      if a.count == b.count {
        StrLessTotal(a.zone, b.zone);
      }
    }
  }

  /** The slot comparator is a strict total order on all rows. */
  lemma SlotBeforeIsStrictTotal()
    ensures StrictOrder(SlotBefore) && Connected(SlotBefore)
  {
    forall a: SlotCount, b: SlotCount, c: SlotCount | SlotBefore(a, b) && SlotBefore(b, c)
      ensures SlotBefore(a, c)
    {
      if a.count == b.count == c.count && a.zone != b.zone && b.zone != c.zone {
        StrLessTransitive(a.zone, b.zone, c.zone);
        if a.zone == c.zone {
          StrLessIrreflexive(a.zone);
        }
      }
    }
    forall a: SlotCount, b: SlotCount | a != b
      ensures SlotBefore(a, b) || SlotBefore(b, a)
    {
      if a.count == b.count && a.zone != b.zone {
        StrLessTotal(a.zone, b.zone);
      }
    }
  }

  /** One row per zone of the store: the zone and its total. */
  function ZoneEntries(store: Store): (r: set<ZoneCount>)
    ensures forall x :: x in r ==> x.zone in store && x.count == store[x.zone].totalTrips
  {
    set z | z in store :: ZoneCount(z, store[z].totalTrips)
  }

  /** One row per (zone, hour) whose counter is positive. */
  function SlotEntries(store: Store): (r: set<SlotCount>)
    ensures forall x :: x in r ==> x.zone in store && x.count > 0 && x.count == store[x.zone].hourlyTrips[x.hour]
  {
    set z, h: nat | z in store && h < HoursPerDay && store[z].hourlyTrips[h] > 0 :: SlotCount(z, h, store[z].hourlyTrips[h])
  }

  /** The zone population is exactly the store's zones, each with its total. */
  lemma ZoneEntriesExactly(store: Store, x: ZoneCount)
    ensures x in ZoneEntries(store) <==> x.zone in store && x.count == store[x.zone].totalTrips
  {
  }

  /** The zone population has one row per stored zone. */
  lemma {:induction false} ZoneEntriesCard(store: Store)
    ensures |ZoneEntries(store)| == |store.Keys|
    decreases |store.Keys|
  {
    if store.Keys != {} {
      var z :| z in store;
      var rest := store - {z};
      var row := ZoneCount(z, store[z].totalTrips);
      assert rest.Keys == store.Keys - {z};
      ZoneEntriesCard(rest);
      forall x
        ensures x in ZoneEntries(store) <==> x in ZoneEntries(rest) + {row}
      {
        ZoneEntriesExactly(store, x);
        ZoneEntriesExactly(rest, x);
      }
      assert ZoneEntries(store) == ZoneEntries(rest) + {row};
      ZoneEntriesExactly(rest, row);
    }
  }

  /** The slot population is exactly the (zone, hour) pairs with a positive counter. */
  lemma SlotEntriesExactly(store: Store, x: SlotCount)
    ensures x in SlotEntries(store) <==>
      x.zone in store && x.count > 0 && x.count == store[x.zone].hourlyTrips[x.hour]
  {
    if x.zone in store && x.count > 0 && x.count == store[x.zone].hourlyTrips[x.hour] {
      assert x == SlotCount(x.zone, x.hour, store[x.zone].hourlyTrips[x.hour]);
    }
  }
}
