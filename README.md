# TripAnalyzer in Dafny

A model of `TripAnalyzer`. It reads a CSV file of taxi trips, keeps per-zone trip counters
(a total and one counter per pickup hour), and answers two ranking queries: the busiest
zones and the busiest (zone, hour) slots.

The model follows the C++ class:

- `Analyzer.TripAnalyzer` is a class with one field, `data`, the `m_data` store (zone
  identifier to `ZoneStats`).
- `IngestFile` runs the header scan and the row loop of `ingestFile` and updates that field.
- `TopZones` and `TopBusySlots` fill a sequence from the store in a loop, sort it and cut it.
  They have no `modifies` clause, so they leave the store unchanged, as the `const` queries do.
- Each method is proved against a specification function:
  - `Csv.Fields` for `parseCSVRow`;
  - `Ingestion.ZoneColumn` / `TimeColumn` for the header scan;
  - `Ingestion.ClassifyRow` for the per-row checks;
  - `Ingestion.Ingest` for the whole file;
  - `Ranking.IsTopK` for the queries.
- Lemmas then state what the source promises about those functions:
  - field counts and round trips of the CSV split;
  - priority of named columns over positional fallbacks;
  - the exact acceptance condition of a row;
  - conservation (`total == sum of hourly counters`), key validity and monotonicity of the store;
  - the comparators being strict total orders, so the ranked list is unique and `top(k)`
    is a prefix of `top(-1)`.

Modules:

- `Csv`: `parseCSVRow` and the field-splitting function it implements.
- `Strtol`: `std::stoi` on the one- or two-character hour window, with `strtol` rules:
  C-locale white space, an optional sign, decimal digits, and trailing characters ignored.
  This follows section 7.22.1.4 of ISO C11.
- `Aggregates`: the records of `analyzer.h` (`ZoneStats`, `ZoneCount`, `SlotCount`) and the
  store type.
- `Ingestion`: column detection, the row decision and the fold of accepted rows into the store.
- `Ranking`: string order, a verified sort, and the top-k characterisation.
- `Queries`: the two comparators and the populations they rank.
- `Analyzer`: the class.
- `Scenarios`: documented example files worked through the model.

The file is given to `IngestFile` as `Option<seq<string>>`:

- `None` is a file that cannot be opened;
- `Some([])` is a file without a header line;
- otherwise it is the file's lines, as `getline` returns them.

## Model

| member | source | states |
|---|---|---|
| Csv.ParseCSVRow | analyzer.cpp:10-23 | the repeated `getline` on `,` plus the trailing-comma rule returns exactly `Fields(line)` |
| Csv.Fields | analyzer.cpp:10-23 | the fields `parseCSVRow` returns: none exactly for the empty line; its counts, comma-freedom and round trip are `FieldsShape` |
| Csv.Split | analyzer.cpp:15-21 | the comma-separated pieces, at least one; counted by `SplitCount`, inverted by `JoinSplit` and `SplitJoin` |
| Csv.CellEnd | analyzer.cpp:15 | one `getline(ss, cell, ',')` stops at the next comma or at the end of the line, with no comma before |
| Csv.RemainingExtract | analyzer.cpp:15-17 | each extracted cell moves from what remains of the line to the collected fields |
| Csv.RemainingAtEnd | analyzer.cpp:18-21 | once the line is used up, only the trailing-comma field remains, and only when the line ends in a comma |
| Csv.SplitAtComma | analyzer.cpp:15-17 | a comma-free prefix followed by a comma is the first piece |
| Csv.FieldsShape | analyzer.cpp:10-23 | the empty line gives no field; a non-empty line gives one more field than it has commas; no field holds a comma; joining the fields with `,` rebuilds the line |
| Csv.TrailingCommaGivesEmptyField | analyzer.cpp:18-21 | a line ending in `,` has at least two fields and its last field is empty |
| Csv.FieldsExamples | analyzer.cpp:8-9 | `""` gives `[]`, `"a,"` gives `["a",""]`, `","` gives `["",""]`, `"a,,b"` gives `["a","","b"]` |
| Csv.JoinSplit | analyzer.cpp:15-21 | joining the pieces of a string with commas gives the string back |
| Csv.SplitJoin | analyzer.cpp:15-21 | splitting the comma-join of comma-free fields gives those fields back |
| Csv.SplitCount | analyzer.cpp:15-21 | the number of pieces is the number of commas plus one |
| Csv.FirstIndex | analyzer.cpp:81-82 | the result is the position of the first occurrence, or the length when there is none |
| Strtol.Stoi | analyzer.cpp:93 | `std::stoi` as `strtol` reads it (white space, sign, digits, rest ignored), `None` where it throws; its table on the hour window is `HourWindow`, with `StoiOne`, `StoiTwo` and `StoiFromSpace` |
| Strtol.HourWindow | analyzer.cpp:90-93 | the complete table of `stoi` on a window of one or two characters: a leading digit reads one or two digits; a space or sign before one digit reads that digit with its sign; anything else fails |
| Strtol.StoiTwo | analyzer.cpp:93 | `stoi` on two characters, case by case: digits, white space, `+`, `-`, failure |
| Strtol.StoiOne | analyzer.cpp:93 | `stoi` on one character succeeds exactly on a digit |
| Strtol.StoiFromSpace | analyzer.cpp:93 | leading white space is skipped |
| Strtol.HourDigitExamples | analyzer.cpp:89-93 | `"09"`→9, `"23"`→23, `"24"`→24 (then rejected by the range check), `"9x"`→9, `"9:"`→9 |
| Strtol.HourSignExamples | analyzer.cpp:89-93 | `"+9"`→9, `"-0"`→0, `" 9"`→9, `"-5"`→-5 |
| Strtol.HourFailExamples | analyzer.cpp:93-105 | `"XY"`, `"+"` and `":0"` fail, so the row is skipped |
| Ingestion.ZoneColumn | analyzer.cpp:40-50 | the zone column is below the header width; it is -1 exactly when the width is at most 1 and no cell is named `PickupZoneID` |
| Ingestion.TimeColumn | analyzer.cpp:40-53 | the time column is below the header width; it is -1 exactly when the width is at most 2 and no cell is named `PickupTime` or `PickupDateTime` |
| Ingestion.LastNamed | analyzer.cpp:43-46 | the index found holds one of the names and no later cell does; -1 means no cell does |
| Ingestion.DetectColumns | analyzer.cpp:40-53 | the header loop with its fallbacks returns `ZoneColumn(header)` and `TimeColumn(header)` |
| Ingestion.NamedColumnWins | analyzer.cpp:43-46 | a named cell with no later cell of that name is the chosen column, whatever comes before it, ahead of the fallbacks |
| Ingestion.FallbackColumns | analyzer.cpp:50-53 | without names the zone column is 1 when the width exceeds 1, and the time column is 3, else 2, else undetermined |
| Ingestion.SameColumnQuirk | analyzer.cpp:43-53 | the header `X,PickupTime` gives column 1 for both zone and time |
| Ingestion.HourText | analyzer.cpp:90 | `dateStr.substr(spacePos + 1, 2)`: one or two characters after the space |
| Ingestion.TimeOutcome | analyzer.cpp:76-96 | an accepted time field keeps the row's zone, has a character after its first space, and `stoi` of the window after that space is the hour; the full condition is `AcceptedRow` and `HourAfterFirstSpace` |
| Ingestion.HourAfterFirstSpace | analyzer.cpp:81-96 | with two characters after the first space, the row's fate is decided by `stoi` of exactly those two characters and the 0..23 range check |
| Ingestion.ClassifyRow | analyzer.cpp:59-101 | an accepted row is non-empty, has the header's field count, and its zone is the non-empty zone field; the full acceptance condition, as an if-and-only-if, is `AcceptedRow` |
| Ingestion.CheckRow | analyzer.cpp:61-96 | the checks in source order, each `continue` an early return, give exactly `ClassifyRow` |
| Ingestion.AcceptedRow | analyzer.cpp:59-96 | a row is accepted with zone `z` and hour `h` if and only if: it is non-empty; it has the header's field count; its zone field is `z` and non-empty; its time field has a first space with a character after it; and `stoi` of the one or two characters after that space is `h` |
| Ingestion.ApplyRow | analyzer.cpp:100-101 | a skipped row leaves the store as it was; an accepted row adds its zone to the keys; no counter decreases; the exact effect is `AcceptedRowEffect` |
| Ingestion.ApplyRows | analyzer.cpp:59-107 | the rows applied in file order; preserves the invariant (`ApplyRowsKeepsInvariant`) and grows the store (`ApplyRowsGrows`) |
| Ingestion.Ingest | analyzer.cpp:25-108 | the store after `ingestFile`; its properties are `IngestKeepsInvariant`, `IngestGrows` and `IngestNoOp`, and `TripAnalyzer.IngestFile` is proved equal to it |
| Ingestion.AcceptedRowEffect | analyzer.cpp:100-101 | an accepted row adds one to its zone's total and one to its hour's counter; the zone is created with zero counters when new; every other counter and zone is unchanged |
| Ingestion.ApplyRowsStep | analyzer.cpp:59-107 | the rows are applied in file order, one at a time |
| Ingestion.ApplyRowsKeepsInvariant | analyzer.cpp:59-107 | applying rows keeps every key non-empty, every total at least 1, and every total equal to the sum of its hourly counters |
| Ingestion.IngestKeepsInvariant | analyzer.cpp:25-108 | the same invariant holds after every ingestion |
| Ingestion.ApplyRowsGrows | analyzer.cpp:59-107 | applying rows removes no zone and decreases no counter |
| Ingestion.IngestGrows | analyzer.cpp:25-108 | ingestion removes no zone and decreases no counter |
| Ingestion.GrowsTransitive | analyzer.cpp:100-101 | growth composes across successive updates |
| Ingestion.IngestNoOp | analyzer.cpp:26-33 | an unopenable file, a file without a header line, or a header with an undetermined column (line 56) leaves the store unchanged |
| Aggregates.NewStats | analyzer.h:31-34 | a new `ZoneStats` has total 0 and all 24 hourly counters 0, and is conserved |
| Aggregates.Record | analyzer.cpp:100-101 | `total_trips++` and `hourly_trips[h]++`: the total and the hour each grow by one, the other hours are unchanged, and conservation is kept |
| Aggregates.SumIncrement | analyzer.h:33 | adding one to one hourly counter adds one to their sum |
| Queries.ZoneBefore | analyzer.cpp:122-127 | the `topZones` comparator: a row before another never has fewer trips; it is a strict total order by `ZoneBeforeIsStrictTotal` |
| Queries.SlotBefore | analyzer.cpp:152-156 | the `topBusySlots` comparator: a row before another never has fewer trips; it is a strict total order by `SlotBeforeIsStrictTotal` |
| Queries.ZoneEntries | analyzer.cpp:115-117 | the rows `topZones` collects: every row is a stored zone with its total; exactly so by `ZoneEntriesExactly`, one per zone by `ZoneEntriesCard` |
| Queries.SlotEntries | analyzer.cpp:140-146 | the rows `topBusySlots` collects: every row is a stored zone and hour with its positive counter; exactly so by `SlotEntriesExactly` |
| Queries.ZoneBeforeIsStrictTotal | analyzer.cpp:122-127 | the `topZones` comparator (count descending, then zone ascending) is irreflexive, transitive and total on distinct rows |
| Queries.SlotBeforeIsStrictTotal | analyzer.cpp:152-156 | the `topBusySlots` comparator (count descending, zone ascending, hour ascending) is irreflexive, transitive and total on distinct rows |
| Queries.ZoneEntriesExactly | analyzer.cpp:115-117 | the zone population is exactly one row per stored zone with its total |
| Queries.ZoneEntriesCard | analyzer.cpp:115-117 | the zone population has exactly as many rows as the store has zones |
| Queries.SlotEntriesExactly | analyzer.cpp:140-146 | the slot population is exactly the (zone, hour, count) rows whose hourly counter is positive |
| Ranking.StrLess | analyzer.cpp:126 | `std::string` `<`: lexicographic, a proper prefix first; irreflexive, transitive and total by the three lemmas below |
| Ranking.TruncLen | analyzer.cpp:130-132 | the kept length: `min(k, n)` for `k >= 0`, all `n` for a negative `k` |
| Ranking.StrLessIrreflexive | analyzer.cpp:126 | no zone identifier sorts before itself |
| Ranking.StrLessTransitive | analyzer.cpp:126 | string order is transitive |
| Ranking.StrLessTotal | analyzer.cpp:126 | two different strings are ordered one way or the other |
| Ranking.PermutationElements | analyzer.cpp:122-127 | sorting neither adds nor drops a row: a permutation of a list that enumerates the population enumerates it too |
| Ranking.InsertionPoint | analyzer.cpp:122-127 | the scan stops at the first element that does not precede the new one |
| Ranking.InsertionSort | analyzer.cpp:122-127 | with a strict total comparator the sort returns a strictly sorted permutation of its input |
| Ranking.InsertKeepsSorted | analyzer.cpp:122-127 | inserting before the first element that does not precede the new one keeps the sequence sorted |
| Ranking.TruncatedIsTopK | analyzer.cpp:129-132 | cutting the full ranking at the truncation length gives the top `k`: sorted, drawn from the population, and everything left out ranks after everything kept |
| Ranking.TopAllCovers | analyzer.cpp:130-132 | with a negative `k` the result holds the whole population |
| Ranking.HeadRanksFirst | analyzer.cpp:122-127 | the first entry of a top list precedes every other member of the population |
| Ranking.TopKUnique | analyzer.cpp:110-134 | two top-`k` lists of the same population are equal, so the result does not depend on the store's iteration order |
| Ranking.TopKPrefix | analyzer.cpp:129-132 | `top(k)` is a prefix of `top(-1)` |
| Ranking.SortedDistinct | analyzer.cpp:122-127 | a strictly sorted list has no duplicates |
| Ranking.DistinctCard | analyzer.cpp:115-117 | a list without duplicates has as many elements as its set |
| Analyzer.TripAnalyzer.constructor | analyzer.h:37 | a new analyzer has an empty store, which satisfies the store invariant |
| Analyzer.TripAnalyzer.IngestFile | analyzer.cpp:25-108 | the new store is `Ingest(old store, file)`; the store invariant is kept; no zone or counter is lost |
| Analyzer.TripAnalyzer.IngestRows | analyzer.cpp:59-107 | the row loop leaves the store equal to the rows applied in order; accepted rows update their entry in place |
| Analyzer.TripAnalyzer.RecordTrip | analyzer.cpp:100-101 | the zone's entry, created with zero counters when missing, gains one trip in total and one at the row's hour; nothing else changes |
| Analyzer.TripAnalyzer.TopZones | analyzer.cpp:110-134 | the result is the top `k` (default 10) of the (zone, total) rows of the store under the zone comparator; its length is `min(k, number of zones)` for `k >= 0` and the number of zones for `k < 0` |
| Analyzer.TripAnalyzer.ZoneSlots | analyzer.cpp:141-145 | for one zone, exactly its hours with a positive counter, each once with its count |
| Analyzer.TripAnalyzer.TopBusySlots | analyzer.cpp:136-163 | the result is the top `k` (default 10) of the (zone, hour, count) rows with a positive counter under the slot comparator |
| Scenarios.NamedHeaderScenario | analyzer.cpp:43-46 | header `TripID,PickupZoneID,PickupTime` and row `1,Z1,2024-01-05 09:15` record one trip for `Z1` at hour 9 |
| Scenarios.NamedRow | analyzer.cpp:59-101 | the row `1,Z1,2024-01-05 09:15` is accepted for `Z1` at hour 9 |
| Scenarios.NamedHeaderColumns | analyzer.cpp:43-46 | the header `TripID,PickupZoneID,PickupTime` gives zone column 1 and time column 2 |
| Scenarios.PositionalHeaderScenario | analyzer.cpp:48-51 | with the header `A,B,C,D`, the row `a,Z2,x,2024-01-05 23:59` records one trip for `Z2` at hour 23 |
| Scenarios.PositionalRow | analyzer.cpp:59-101 | the row `a,Z2,x,2024-01-05 23:59` is accepted for `Z2` at hour 23 |
| Scenarios.HourOfClock | analyzer.cpp:81-96 | for a time field `date clock` with a space-free date, the hour is `stoi` of the first two clock characters |
| Scenarios.OneTripTopZones | analyzer.cpp:110-134 | a store holding one trip ranks its zone alone, with count 1, for every positive `k` |
| Scenarios.OneTripTopSlots | analyzer.cpp:136-163 | that store has exactly one busy slot, its zone and hour with count 1, for every positive `k` |
| Scenarios.DocumentedExample | analyzer.cpp:25-163 | after ingesting the documented file, `topZones(1)` is `[(Z1, 1)]` and `topBusySlots(5)` is `[(Z1, 9, 1)]` |
| Scenarios.TrailingCommaHeaderColumns | analyzer.cpp:36-46 | the header `A,PickupZoneID,PickupTime,` has four cells, the last empty, with zone column 1 and time column 2 |
| Scenarios.TrailingCommaRow | analyzer.cpp:63-101 | the row `1,Z3,2024-01-05 05:00,` has four fields and is accepted for `Z3` at hour 5 |
| Scenarios.TrailingCommaScenario | analyzer.cpp:36-66 | a header and a row that both end in a comma agree at four fields, and the row records one trip for `Z3` at hour 5 |
| Scenarios.OneRowFile | analyzer.cpp:25-108 | a header with both columns determined plus one accepted row gives a store with that one trip |
| Scenarios.EmptyZoneRow | analyzer.cpp:72 | a row with an empty zone field is skipped |
| Scenarios.NonNumericHourRow | analyzer.cpp:93-105 | a time field `2024-01-05 XY` is skipped, because `stoi` fails |
| Scenarios.TieBrokenByZone | analyzer.cpp:122-127 | two zones with the same total come out in zone order |

## Left out

- Opening and reading the file (`std::ifstream`, analyzer.cpp:26-33, 59) is not modelled.
  The file is a parameter holding its lines, or `None` when it cannot be opened.
  `getline` strips `\n` but keeps a `\r`, so CRLF files leave `\r` at the end of the last field.
  The model handles that like any other character.
- `std::unordered_map` hashing and iteration order are not modelled.
  The store is a Dafny `map`, and the queries visit its keys in an arbitrary order (`:|`).
  `Ranking.TopKUnique` shows that the result does not depend on that order.
- `std::sort` is not modelled as an algorithm.
  The queries use a verified insertion sort on a sequence instead of sorting a vector in place.
  Its contract is the one `std::sort` promises here: a sorted permutation.
- The `try`/`catch` machinery is not modelled.
  A failed `stoi` is `None` and skips the row, as the `catch (...)` does.
  `stoi`'s `out_of_range` cannot occur on a window of at most two characters.
- The `long long` counters are unbounded `nat`s: overflow of a counter is not modelled.
- Hashed access through `m_data[zone]` is not modelled.
  `ZoneStats` is stored by value, so `Analyzer.TripAnalyzer.RecordTrip` performs the two in-place increments as one replacement of the zone's map entry with both counters updated.
- Analyzer.TripAnalyzer.IngestRows: the bounds checks `zoneIdx >= tokens.size()` and `timeIdx >= tokens.size()` (analyzer.cpp:70, 75) are not branches of the model.
  Both indices are below the header width, and a row that gets that far has exactly that many fields, so those checks never skip a row.
  The precondition `zoneIdx < expectedCols && timeIdx < expectedCols` records this.
- Zone identifiers are sequences of characters compared by code point, not byte strings.
  For UTF-8 text, code-point order is the unsigned byte order that `std::string` comparison uses.
  Invalid UTF-8 in a zone identifier is not modelled.
- The unused `processed` count of `stoi` (analyzer.cpp:92) and the unused `<iostream>` include are left out.
