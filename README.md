# busmap-ktx core, modelled in Dafny

busmap-ktx publishes the live positions of buses. It takes the departures that a departure monitor
reports at one stop. For each departure it finds the shape (the polyline of the route) in a
GTFS-like trips table. It places every previous, onward and current stop of the vehicle on that
shape as a normalised position, the distance along the shape divided by the shape's length.

The model follows the Kotlin sources file by file. In the table below, "the code" means those
sources.

| file | module | contents |
|---|---|---|
| `options.dfy` | `Options` | Kotlin nullable types; the elvis operator `?:` |
| `strings.dfy` | `Strings` | Kotlin `split` with a one-character delimiter; `toIntOrNull` with the 32-bit `Int` range |
| `table.dfy` | `Table` | the loaders' shared row parse: header skipped, lines split at commas, short rows dropped |
| `textmatch.dfy` | `TextMatch` | `normalize`, `levenshteinDistance` and `similarity` from `findShapeId` |
| `trips.dfy` | `Trips` | `Trip`, the trips loader, the best-match loop, the shape-id selection and the class `TripManager` |
| `shapes.dfy` | `Shapes` | `Shape`, the shapes loader and grouping, `calculateDistance`, and the class `ShapeManager` |
| `assembly.dfy` | `Assembly` | the per-event mapping of `updateData` (Main.kt 71-91) and `toStopList` (Main.kt 94-105) |

## How the model is put together

- **Imperative parts.** The two classes keep their state as fields.
  - `TripManager` has the table and both lookup logs.
  - `ShapeManager` has the stop cache (a `map`) and the shape table (a `map` of `seq`s).
  - Each `modifies`-method is proved equal to a pure specification function: `ResolveShapeId`, `CalculatePercentage` and `GetPercentage`.
  - The properties are lemmas about those functions.
  - Loops are methods with invariants:
    - the two-row Levenshtein table (`TextMatch.LevenshteinDistance` over `array<int>` rows);
    - the best-match loop (`Trips.CollectBestMatches`).
- **Double division.** A Kotlin `Double` quotient is the datatype `Perc`, which is one of:
  - `Finite(value)`;
  - `NaN`, for `0.0 / 0.0`;
  - `Infinite(negative)`, for `x / 0.0`.
- **Haversine.** The distance function is a parameter. Every lemma assumes only that its results are non-negative.
- **Pure parts.** `toStopList` and the `mapNotNull` body are pure functions. They thread the resolver's state (`ShapeState`) through the calls in the order Kotlin makes them.
- **Exceptions.** The two exceptions the mapping can raise become `Err` values: `split(":")[2]` on an id with fewer than three fields, and `coord[0]`/`coord[1]` on a short list.

### Behaviour of the code worth knowing

- **`similarity` is 0.0 or 1.0.** It computes `1.0 - dist / maxLen`, and `dist / maxLen` is Kotlin `Int` division. The result is 0.0 exactly when the distance equals the longer length, and 1.0 otherwise (`TextMatch.ScoreValues`).
- **`calculateDistance` takes each predecessor from the unfiltered list.** It filters the list to the points whose sequence number is at most the point's own. Then it takes the predecessor of the k-th filtered point from position k-1 of the unfiltered list. When sequence numbers ascend in list order, this is the polyline length along the list (`Shapes.CalculateDistanceAscending`). The model keeps the code's indexing (`Shapes.Legs`).
- **The current stop's cache key uses the full id.** For the current stop, `getPercentageDistance` gets the whole `location.parent.id` as its key. For previous and onward stops it gets the short id. So, for the same shape id, the current stop and a previous or onward stop with the same `parent.id` never share a cache entry (`Assembly.CurrentKeyDiffers`). Keys of different shape ids can collide: the shape id and the stop id are joined by a `-`, so the key of shape `A` and stop `x:y:z-w` equals the key of shape `A-x:y:z` and stop `w`.
- **An unknown shape's NaN is cached.** `getOrPut` also stores the NaN that an unknown shape id gives, so it is memoized (`Shapes.GetPercentageMiss`, `Shapes.CalculatePercentageUnknown`).
- **The route-lookup log is written but never read.** Nothing consults `storedTrips`. The model writes it the same way.
- **`findShapeId` returns null exactly when the line has no trip.** A non-empty route always has best matches, so its two later `null` returns are never reached (`Trips.ResolveSomeIffRoute`).
- **Positions depend only on the state before a run.** Settling points only fills in distances the code would compute anyway. Hence the first lookup of each key in a run gives the position that the cache, or else the shape table, had before the run (`Assembly.FirstsPlaced`). Every lookup of the run stays recorded in the final cache (`Assembly.Records`), so a later lookup of the same key repeats the first one's value, computed from the first coordinate looked up under it (`Assembly.RepeatPlaced`).

## Model

| member | source | states |
|---|---|---|
| Options.Option.Or | src/nativeMain/kotlin/Main.kt:81-82 | `a ?: b` between nullable times is `a` when present and `b` otherwise |
| Strings.JoinSplit | src/nativeMain/kotlin/TripManager.kt:18 | `split` loses nothing: rejoining the fields with the delimiter gives the line back |
| Strings.SplitJoin | src/nativeMain/kotlin/TripManager.kt:18 | delimiter-free fields joined by the delimiter split back into exactly those fields |
| Strings.SplitFieldsNoSep | src/nativeMain/kotlin/TripManager.kt:74 | no field of a split contains the delimiter |
| Strings.ToIntOrNull | src/nativeMain/kotlin/TripManager.kt:76 | a value is read exactly when the string is an optional `-` or `+` followed by at least one decimal digit and nothing else, and that numeral lies in the 32-bit `Int` range; the value is then the numeral's; an empty string, a lone sign or any other character gives null |
| Strings.ToIntOrNullShowInt | src/nativeMain/kotlin/TripManager.kt:76 | every 32-bit integer is read back from its decimal rendering |
| Table.RowsOf | src/nativeMain/kotlin/TripManager.kt:16-26 | every row kept has at least the minimum number of fields; there are no more rows than lines |
| Table.RowsOfAppend | src/nativeMain/kotlin/TripManager.kt:16-26 | rows are produced line by line and keep file order |
| Table.RowsOfSingle | src/nativeMain/kotlin/TripManager.kt:18 | a line gives its fields when it has enough of them, and nothing otherwise |
| Table.RowsOfMembers | src/nativeMain/kotlin/ShapeManager.kt:16-26 | a row is produced exactly when some line splits into it with enough fields |
| Table.HeaderSkipped | src/nativeMain/kotlin/ShapeManager.kt:16-17 | the first line never contributes, whatever it holds |
| TextMatch.LowerAllNoCapital | src/nativeMain/kotlin/TripManager.kt:31 | after `lowercase()` no ASCII capital remains |
| TextMatch.ReplaceAllNoCapital | src/nativeMain/kotlin/TripManager.kt:32-35 | replacing a letter with a lower-case digraph keeps the string free of capitals |
| TextMatch.KeepWordCharsNormal | src/nativeMain/kotlin/TripManager.kt:36 | removing the `\W+` runs from a capital-free string leaves only `[a-z0-9_]` |
| TextMatch.TrimNormal | src/nativeMain/kotlin/TripManager.kt:37 | `trim()` changes nothing on such a string |
| TextMatch.NormalizeIsNormal | src/nativeMain/kotlin/TripManager.kt:30-37 | a normalised label consists of lower-case ASCII letters, digits and `_` only |
| TextMatch.ReplaceAllAbsent | src/nativeMain/kotlin/TripManager.kt:32-35 | replacing a character that does not occur changes nothing |
| TextMatch.KeepWordCharsNormalId | src/nativeMain/kotlin/TripManager.kt:36 | removing non-word runs changes nothing on a normalised label |
| TextMatch.NormalizeIdempotent | src/nativeMain/kotlin/TripManager.kt:30-37 | normalising twice is normalising once |
| TextMatch.EditDistanceSymmetric | src/nativeMain/kotlin/TripManager.kt:39-64 | the edit distance does not depend on argument order, which the swap at line 44 relies on |
| TextMatch.EditDistanceUpper | src/nativeMain/kotlin/TripManager.kt:39-64 | the edit distance is at most the longer length |
| TextMatch.EditDistanceLower | src/nativeMain/kotlin/TripManager.kt:39-64 | the edit distance is at least the difference of the lengths |
| TextMatch.EditDistanceZeroIff | src/nativeMain/kotlin/TripManager.kt:39-64 | the distance is zero exactly between equal strings |
| TextMatch.EditDistanceAlignedMatch | src/nativeMain/kotlin/TripManager.kt:39-64 | a character shared at the same position keeps the distance below the longer length |
| TextMatch.EditDistanceCell | src/nativeMain/kotlin/TripManager.kt:55-59 | each table cell is the minimum of insert, delete and replace costs |
| TextMatch.NextRow | src/nativeMain/kotlin/TripManager.kt:51-60 | the new row holds the distances of the next prefix of the longer string to every prefix of the shorter |
| TextMatch.LevenshteinDistance | src/nativeMain/kotlin/TripManager.kt:39-64 | the two-row table computes the edit distance |
| TextMatch.ScoreValues | src/nativeMain/kotlin/TripManager.kt:66-71 | the score is 0.0 exactly when the distance reaches a positive longer length, else 1.0 |
| TextMatch.ScoreSelf | src/nativeMain/kotlin/TripManager.kt:66-71 | a label scores 1.0 against itself, the empty label included |
| TextMatch.ScoreSymmetric | src/nativeMain/kotlin/TripManager.kt:66-71 | the score does not depend on argument order |
| TextMatch.ScoreEmpty | src/nativeMain/kotlin/TripManager.kt:66-71 | the empty label scores 0.0 against any non-empty one |
| TextMatch.ScoreAlignedMatch | src/nativeMain/kotlin/TripManager.kt:66-71 | labels sharing a character at the same position score 1.0 |
| TextMatch.Similarity | src/nativeMain/kotlin/TripManager.kt:66-71 | `similarity` is the score, with the distance from the Levenshtein table; it is 0.0 or 1.0 |
| Trips.ParseTripsSkipsHeader | src/nativeMain/kotlin/TripManager.kt:16-17 | the header line of the trips file is skipped, whatever it holds |
| Trips.TripsOfLinesAppend | src/nativeMain/kotlin/TripManager.kt:16-26 | trips are parsed line by line in file order |
| Trips.TripsOfLine | src/nativeMain/kotlin/TripManager.kt:18-25 | a line of at least 8 fields gives route, trip, headsign and shape from columns 0, 2, 3 and 7; a shorter one nothing |
| Trips.RouteTrips | src/nativeMain/kotlin/TripManager.kt:84 | exactly the trips of the given route |
| Trips.TripScoreValues | src/nativeMain/kotlin/TripManager.kt:96 | a trip's score against a station is 0.0 or 1.0 |
| Trips.MaxScore | src/nativeMain/kotlin/TripManager.kt:91-113 | the highest score of any trip, attained by one of them |
| Trips.WithScore | src/nativeMain/kotlin/TripManager.kt:97-103 | a trip is kept exactly when it has the given score |
| Trips.WithScoreNone | src/nativeMain/kotlin/TripManager.kt:97-103 | when every score is lower, nothing is kept |
| Trips.BestMatchesSpec | src/nativeMain/kotlin/TripManager.kt:91-113 | a trip is a best match exactly when no trip scores higher; there is one when there are trips |
| Trips.RunningBestStep | src/nativeMain/kotlin/TripManager.kt:97-103 | clear-on-greater, add-on-equal keeps the running maximum and its ties |
| Trips.KeepBest | src/nativeMain/kotlin/TripManager.kt:97-103 | one step of the loop keeps the running-maximum invariant |
| Trips.CollectBestMatches | src/nativeMain/kotlin/TripManager.kt:91-113 | the loop yields the maximal-score trips for origin and for destination, in trip order |
| Trips.DisambiguatorNumeric | src/nativeMain/kotlin/TripManager.kt:73-76 | the second numeric part exists exactly when the second `_` field is a numeral in the `Int` range, and is its value; a missing or non-numeric field gives none |
| Trips.DisambiguatorNone | src/nativeMain/kotlin/TripManager.kt:73-76 | a shape id without `_` has no second numeric part |
| Trips.DisambiguatorOf | src/nativeMain/kotlin/TripManager.kt:73-76 | `prefix_n` and `prefix_n_rest` have second numeric part `n` |
| Trips.FirstWithNumber | src/nativeMain/kotlin/TripManager.kt:127-129 | `firstOrNull` is null exactly when no origin candidate has that number, else such a candidate |
| Trips.PairedStartNoneIff | src/nativeMain/kotlin/TripManager.kt:125-134 | there is a pairing exactly when some destination and origin candidate share a number |
| Trips.PairedStartChoice | src/nativeMain/kotlin/TripManager.kt:125-134 | the pairing is the first origin match of the first destination candidate that has one |
| Trips.SelectShapeSomeIff | src/nativeMain/kotlin/TripManager.kt:115-144 | the selection gives a shape id exactly when there is a best destination match |
| Trips.SelectShapeFrom | src/nativeMain/kotlin/TripManager.kt:120-141 | the answer is the shape id of a best destination match or a paired best origin match |
| Trips.SelectShapeSeveralEnds | src/nativeMain/kotlin/TripManager.kt:125-141 | with several destination matches: the paired origin's shape if any, else the first destination's |
| Trips.ResolveSomeIffRoute | src/nativeMain/kotlin/TripManager.kt:84-89 | a shape id is found exactly when the line has a trip |
| Trips.ResolveIsRouteShape | src/nativeMain/kotlin/TripManager.kt:84-141 | any answer is the shape id of one of the line's trips |
| Trips.ResolveSingleEnd | src/nativeMain/kotlin/TripManager.kt:120-123 | a single best destination match wins outright |
| Trips.TripManager.constructor | src/nativeMain/kotlin/TripManager.kt:15-27 | loads the trips from the file text; both logs start empty |
| Trips.TripManager.FindShapeId | src/nativeMain/kotlin/TripManager.kt:29-149 | `findShapeId` returns `ResolveShapeId` and appends the key to the miss log or records it with its shape |
| Shapes.Divide | src/nativeMain/kotlin/ShapeManager.kt:93 | `Double` division is finite exactly for a non-zero divisor, NaN exactly for 0/0, else an infinity of the dividend's sign |
| Shapes.ParseShapesSkipsHeader | src/nativeMain/kotlin/ShapeManager.kt:16-17 | the header line of the shapes file is skipped |
| Shapes.ShapesOfLinesAppend | src/nativeMain/kotlin/ShapeManager.kt:16-26 | points are parsed line by line in file order |
| Shapes.ShapesOfLine | src/nativeMain/kotlin/ShapeManager.kt:18-25 | a line of at least 4 fields gives a point from columns 0-3, plus column 4 when present; a shorter one nothing |
| Shapes.OfId | src/nativeMain/kotlin/ShapeManager.kt:27 | the points of one shape id |
| Shapes.GroupByIdSpec | src/nativeMain/kotlin/ShapeManager.kt:27-29 | the table has a key exactly for each id that occurs; its list is that id's points in file order |
| Shapes.FilterUpTo | src/nativeMain/kotlin/ShapeManager.kt:55-57 | the filter keeps at most as many points as it sees |
| Shapes.Legs | src/nativeMain/kotlin/ShapeManager.kt:57-63 | the sum of the legs is non-negative |
| Shapes.CalculateDistance | src/nativeMain/kotlin/ShapeManager.kt:54-64 | a cumulative distance is non-negative |
| Shapes.PathTo | src/nativeMain/kotlin/ShapeManager.kt:54-64 | the reference polyline length up to a point is non-negative |
| Shapes.FilterAscending | src/nativeMain/kotlin/ShapeManager.kt:55-57 | on an ascending list, filtering up to the k-th point's number keeps exactly the first k+1 points |
| Shapes.LegsOfPrefix | src/nativeMain/kotlin/ShapeManager.kt:57-63 | summing legs over a prefix-filtered list gives the polyline length |
| Shapes.PathToGrows | src/nativeMain/kotlin/ShapeManager.kt:54-64 | the polyline length grows along the list |
| Shapes.CalculateDistanceAscending | src/nativeMain/kotlin/ShapeManager.kt:54-64 | on an ascending list, a point's distance is the polyline length from the first point to it |
| Shapes.CalculateDistanceFirst | src/nativeMain/kotlin/ShapeManager.kt:58 | the first point's distance is 0 |
| Shapes.CalculateDistanceLast | src/nativeMain/kotlin/ShapeManager.kt:54-64 | the last point's distance is the whole polyline length |
| Shapes.CalculateDistanceMonotone | src/nativeMain/kotlin/ShapeManager.kt:54-64 | distances do not decrease along an ascending list |
| Shapes.CalculateDistanceSamePath | src/nativeMain/kotlin/ShapeManager.kt:54-64 | the distance depends only on the positions and sequence numbers, not on stored distances |
| Shapes.FirstMinBy | src/nativeMain/kotlin/ShapeManager.kt:75-77 | `minBy` gives a minimal element, and the first one if there are ties |
| Shapes.FirstMinByUnique | src/nativeMain/kotlin/ShapeManager.kt:75-77 | the first minimum is unique |
| Shapes.IndexFrom | src/nativeMain/kotlin/ShapeManager.kt:80 | `indexOf` finds the first equal point, or -1 when there is none |
| Shapes.IndexOfFirstMin | src/nativeMain/kotlin/ShapeManager.kt:75-80 | `indexOf` of the `minBy` point is the slot `minBy` chose |
| Shapes.Settle | src/nativeMain/kotlin/ShapeManager.kt:77-83 | settling a slot keeps the list's length |
| Shapes.SettledPoints | src/nativeMain/kotlin/ShapeManager.kt:74-91 | both settlements keep the list's length |
| Shapes.SettleFrame | src/nativeMain/kotlin/ShapeManager.kt:77-83 | settling changes only one slot's stored distance, from unknown to known, and keeps ids and positions |
| Shapes.SettleKeepsDistances | src/nativeMain/kotlin/ShapeManager.kt:77-91 | settling a slot never changes the distance any point is given |
| Shapes.PositionAsWritten | src/nativeMain/kotlin/ShapeManager.kt:75-93 | reading the last point after the stop point is settled gives the same position |
| Shapes.SettledPointsFrame | src/nativeMain/kotlin/ShapeManager.kt:74-91 | a slot changes only when it is the stop slot or equals the last point, and then gains a distance |
| Shapes.IndexOfDistinct | src/nativeMain/kotlin/ShapeManager.kt:80 | with distinct sequence numbers, `indexOf` of a list point is its own slot |
| Shapes.SettledPointsTwoSlots | src/nativeMain/kotlin/ShapeManager.kt:74-91 | with distinct points, the stop slot and the last slot get distances and nothing else changes |
| Shapes.DivideInUnitInterval | src/nativeMain/kotlin/ShapeManager.kt:93 | a part over a positive whole is a fraction in [0, 1] |
| Shapes.PositionAtLast | src/nativeMain/kotlin/ShapeManager.kt:73-93 | a stop nearest the last point of a shape of non-zero length is at position 1 |
| Shapes.SettleConsistent | src/nativeMain/kotlin/ShapeManager.kt:77-83 | settling keeps every stored distance the computed one |
| Shapes.SettledPointsConsistent | src/nativeMain/kotlin/ShapeManager.kt:74-91 | both settlements keep the stored distances consistent |
| Shapes.ConsistentDistanceAt | src/nativeMain/kotlin/ShapeManager.kt:54-64 | on an ascending consistent list, a point's distance is the polyline length to it, at most the total |
| Shapes.PositionInUnitInterval | src/nativeMain/kotlin/ShapeManager.kt:73-93 | on an ascending consistent shape of positive length, the position is the length to the stop over the total, in [0, 1] |
| Shapes.DistanceRatio | src/nativeMain/kotlin/ShapeManager.kt:85-93 | any point's distance over the last point's is its polyline fraction |
| Shapes.PositionAtFirst | src/nativeMain/kotlin/ShapeManager.kt:73-93 | a stop nearest the first point of such a shape is at position 0 |
| Shapes.CalculatePercentage | src/nativeMain/kotlin/ShapeManager.kt:73-97 | the table keeps its keys and stays well formed |
| Shapes.CalculatePercentageSteps | src/nativeMain/kotlin/ShapeManager.kt:74-93 | the code's step order gives the specified position and table |
| Shapes.CalculatePercentageUnknown | src/nativeMain/kotlin/ShapeManager.kt:96 | an unknown shape id gives NaN and leaves the table unchanged |
| Shapes.CalculatePercentageOthers | src/nativeMain/kotlin/ShapeManager.kt:74-91 | only the requested shape's list can change |
| Shapes.GetPercentage | src/nativeMain/kotlin/ShapeManager.kt:66-71 | the result is stored under the key, and every cached entry is kept |
| Shapes.GetPercentageHit | src/nativeMain/kotlin/ShapeManager.kt:68 | a cached key gives its stored value and changes nothing |
| Shapes.GetPercentageMiss | src/nativeMain/kotlin/ShapeManager.kt:68-70 | a new key gives the computed position and stores it, NaN included |
| Shapes.GetPercentageTwice | src/nativeMain/kotlin/ShapeManager.kt:66-71 | a second call with the same shape and stop returns the same value and changes nothing, whatever the coordinate |
| Shapes.SettleSameDistances | src/nativeMain/kotlin/ShapeManager.kt:77-83 | settling a slot keeps the positions and sequence numbers of the list and every distance the code gives |
| Shapes.SameDistancesTrans | src/nativeMain/kotlin/ShapeManager.kt:74-91 | lists that give the same distances, chained, still do |
| Shapes.NearestSamePath | src/nativeMain/kotlin/ShapeManager.kt:75-77 | the point `minBy` picks depends only on the points' positions |
| Shapes.PositionSameDistances | src/nativeMain/kotlin/ShapeManager.kt:73-93 | lists that give the same distances give every stop the same position |
| Shapes.CalculatePercentageSameTableAfter | src/nativeMain/kotlin/ShapeManager.kt:73-97 | a position calculation leaves every shape giving the same distances |
| Shapes.SettledPointsSameDistances | src/nativeMain/kotlin/ShapeManager.kt:74-91 | settling the stop point and then the last point leaves every distance the code gives unchanged |
| Shapes.UpdateSameTable | src/nativeMain/kotlin/ShapeManager.kt:74-91 | replacing one shape's list by one that gives the same distances keeps the whole table's distances |
| Shapes.CalculatePercentageSameTable | src/nativeMain/kotlin/ShapeManager.kt:73-97 | tables that give the same distances give the same position |
| Shapes.SameTableTrans | src/nativeMain/kotlin/ShapeManager.kt:73-97 | tables that give the same distances, chained, still do |
| Shapes.GetPercentagePlaced | src/nativeMain/kotlin/ShapeManager.kt:66-71 | a lookup gives the cached position, or else the position the table gives; afterwards every shape gives the same distances and the cache has gained only that key |
| Shapes.ShapeManager.constructor | src/nativeMain/kotlin/ShapeManager.kt:15-30 | the table is the parsed points grouped by shape id; the cache starts empty |
| Shapes.ShapeManager.FillDistance | src/nativeMain/kotlin/ShapeManager.kt:77-83 | the point gets its computed distance when it has none, written at the slot `indexOf` finds |
| Shapes.ShapeManager.CalculatePercentageDistance | src/nativeMain/kotlin/ShapeManager.kt:73-97 | returns the position and leaves the table as `CalculatePercentage` says; the cache is untouched |
| Shapes.ShapeManager.GetPercentageDistance | src/nativeMain/kotlin/ShapeManager.kt:66-71 | the result and the new state are those of `GetPercentage` |
| Assembly.ShortId | src/nativeMain/kotlin/Main.kt:96 | a short id exists only for an id with a `:`, and it contains no `:` |
| Assembly.ShortIdOf | src/nativeMain/kotlin/Main.kt:96 | the id `a:b:c` or `a:b:c:...` has short id `c` |
| Assembly.ShortIdFields | src/nativeMain/kotlin/Main.kt:96 | conversely, an id with short id `c` is `a:b:c` followed by nothing or by more `:` fields, for `:`-free `a` and `b` |
| Assembly.ShortIdNoColon | src/nativeMain/kotlin/Main.kt:96 | an id without `:` raises the fault |
| Assembly.CoordPair | src/nativeMain/kotlin/Main.kt:101 | the pair exists exactly when the coordinate has two entries, and holds the first two |
| Assembly.ExtendsCached | src/nativeMain/kotlin/Main.kt:71-105 | a cached position stays cached through later calls |
| Assembly.PlacedAdvances | src/nativeMain/kotlin/Main.kt:71-105 | a key not looked up in between gives the same position before and after |
| Assembly.KeysOfAppend | src/nativeMain/kotlin/Main.kt:71-105 | the keys of two runs of lookups are the keys of each |
| Assembly.FirstsPlacedAppendAt | src/nativeMain/kotlin/Main.kt:71-105 | a later run's first lookup of a key the earlier run did not use is placed in the state before both runs |
| Assembly.FirstsPlacedPrefixAt | src/nativeMain/kotlin/Main.kt:71-105 | an earlier run's first lookups stay first-lookup placed when more lookups follow |
| Assembly.FirstsPlacedJoin | src/nativeMain/kotlin/Main.kt:71-105 | two runs made one after the other: every first lookup of a key is placed in the state before both |
| Assembly.AdvancesTrans | src/nativeMain/kotlin/Main.kt:71-105 | two runs made one after the other gain cache keys only for the lookups of either, and keep the distances |
| Assembly.FirstsPlacedAppend | src/nativeMain/kotlin/Main.kt:71-105 | lookups made one after another are placed as if all were made from the first state, first lookup of each key at a time |
| Assembly.SingleLookup | src/nativeMain/kotlin/Main.kt:95-102 | a single placed lookup is a placed run |
| Assembly.RecordsJoin | src/nativeMain/kotlin/ShapeManager.kt:66-71 | lookups recorded by a state, then lookups recorded by a later state, are all recorded in the later one |
| Assembly.RepeatPlaced | src/nativeMain/kotlin/ShapeManager.kt:66-71 | in a placed and recorded run, a later lookup of a key gives exactly the first lookup's value, which is the position of the first lookup's coordinate in the state before the run |
| Assembly.ToStop | src/nativeMain/kotlin/Main.kt:95-102 | a stop is built exactly when its id and coordinate are readable; it carries the short id and estimated-else-planned times; its position and the new state are those of `getPercentageDistance` for the short id and the location's first two coordinates, which is the position the state before held for that key |
| Assembly.ToStopList | src/nativeMain/kotlin/Main.kt:94-105 | one stop per location, in order, each with its location's data and a cached position; the first lookup of each key gives the position that key and its location's coordinate had in the state before the list, and the cache gains only those keys; the final cache records every lookup of the list |
| Assembly.LocationLookups | src/nativeMain/kotlin/Main.kt:94-105 | one lookup per location, under the shape and the stop's short id, with the stop's position |
| Assembly.LocationLookupsRecorded | src/nativeMain/kotlin/Main.kt:94-105 | stops whose positions are all cached record their lookups |
| Assembly.StopsCons | src/nativeMain/kotlin/Main.kt:94-105 | the first location's stop followed by the rest's stops is a stop list of all the locations |
| Assembly.ToStopListStep | src/nativeMain/kotlin/Main.kt:94-105 | the first stop's lookup followed by the rest's lookups is placed in the state before the list |
| Assembly.ToStopListOkIff | src/nativeMain/kotlin/Main.kt:94-105 | `toStopList` raises no fault exactly when every location is readable |
| Assembly.ReadableCons | src/nativeMain/kotlin/Main.kt:94-105 | all locations are readable exactly when the first and the rest are |
| Assembly.CurrentStop | src/nativeMain/kotlin/Main.kt:78-85 | the current stop has the short id and the estimated-else-planned times; its position and the new state are those of `getPercentageDistance` for the full `parent.id` and the event's coordinate, which is the position the state before held for that key |
| Assembly.StopsInOrderConcat | src/nativeMain/kotlin/Main.kt:78-89 | previous stops, then onward stops, then the current stop with its short id and its estimated-else-planned arrival and departure |
| Assembly.Vehicle | src/nativeMain/kotlin/Main.kt:76-90 | the vehicle is named by the line number, with previous, onward and current stops in that order, each with its short id and its estimated-else-planned times; the first lookup of each key in the event gives the position the state before the event held for it, and the final cache records every lookup of the event |
| Assembly.VehicleStops | src/nativeMain/kotlin/Main.kt:76-90 | the previous, onward and current lookups of an event, joined, are placed in the state before the event |
| Assembly.EventLookupsSplit | src/nativeMain/kotlin/Main.kt:76-89 | an event's lookups are those of its previous stops, then its onward stops, then its current stop |
| Assembly.VehicleRecords | src/nativeMain/kotlin/Main.kt:76-90 | the three lookup runs of an event are all recorded in the final cache |
| Assembly.ProcessEvent | src/nativeMain/kotlin/Main.kt:71-91 | an event is dropped, with the state unchanged, exactly when no shape is found; otherwise the result and the new state are those of the vehicle on the shape found |
| Assembly.VehicleOkIff | src/nativeMain/kotlin/Main.kt:76-89 | a vehicle is built exactly when every location of its event is readable |
| Assembly.ProcessEventOkIff | src/nativeMain/kotlin/Main.kt:71-91 | an event raises no fault exactly when it is dropped or all its locations are readable |
| Assembly.VehicleCached | src/nativeMain/kotlin/Main.kt:76-89 | after the vehicle is built, every stop's position is cached under its key |
| Assembly.CachedConcat | src/nativeMain/kotlin/Main.kt:76-89 | positions cached by the previous and onward runs are still cached after the current stop |
| Assembly.CurrentKeyDiffers | src/nativeMain/kotlin/Main.kt:83 | the current stop's key differs from the one its short id forms |
| Assembly.UpdateData | src/nativeMain/kotlin/Main.kt:71-91 | the i-th published vehicle is the vehicle of the i-th event that resolves to a shape, with its line number and its stops in order; the first lookup of each key in the whole run gives the position the state before the run held for it, and the cache gains only the keys looked up; the final cache records every lookup of the run, so a repeated key gives its first lookup's value |
| Assembly.ResolvedEvents | src/nativeMain/kotlin/Main.kt:71-74 | the kept events are exactly those that resolve to a shape, in order |
| Assembly.PublishesCons | src/nativeMain/kotlin/Main.kt:71-91 | an event's vehicle followed by the rest's vehicles publishes all those events |
| Assembly.RunLookupsCons | src/nativeMain/kotlin/Main.kt:71-91 | a run's lookups are the first event's lookups followed by the rest's |
| Assembly.UpdateDataStep | src/nativeMain/kotlin/Main.kt:71-91 | the first event's vehicle, if any, followed by the rest's publishes all the resolving events and keeps the run placed |
| Assembly.UpdateDataRecords | src/nativeMain/kotlin/Main.kt:71-91 | the first event's lookups, if any, and the rest's are all recorded in the final cache |
| Assembly.AllReadableCons | src/nativeMain/kotlin/Main.kt:71-91 | all events are readable exactly when the first and the rest are |
| Assembly.UpdateDataOkIff | src/nativeMain/kotlin/Main.kt:71-91 | the run raises no fault exactly when every event is dropped or readable |
| Assembly.ShapeFinderKeepsKnownLines | src/nativeMain/kotlin/Main.kt:73-74 | with the trip table's resolver, the events kept are exactly those whose line has a trip, in order |

## Left out

- Haversine trigonometry (ShapeManager.kt 32-52): the distance function is a parameter, and the proofs use only that it is non-negative. Its symmetry, and distance 0 for equal points, are therefore not proved.
- `Double` rounding, signed zeros and the sign of NaN: positions are exact real arithmetic. Only the three outcomes of division (finite, NaN, infinite) are kept.
- `toDouble`, `toInt` and `toDoubleOrNull` in the shapes loader are abstract parameters (`Shapes.NumberParsers`). The `NumberFormatException` that `toDouble`/`toInt` throw on a malformed row is not modelled.
- All I/O is left out:
  - `readAllText` and the default file names `trips.txt` and `shapes.txt`; the constructors take the file text;
  - the HTTP request and the JSON decoding in `updateData`, which are replaced by a list of decoded events;
  - the `println` logging;
  - coroutines, the server and `main`.
- `Util.kt` is not part of this model.
- Shapes.ShapeManager.CalculatePercentageDistance: Kotlin writes both settled points into the `MutableList` that the table holds (aliasing). The model replaces the table entry once, after both writes, because nothing reads the table in between.
- Assembly threads only the `ShapeManager` state (`ShapeState`). `TripManager`'s two logs are never read, so `Assembly.ShapeFinder` uses the pure `Trips.ResolveShapeId`.
- Assembly: when an exception aborts `updateData`, Kotlin loses the partial result. The model returns an `Err` together with the state reached at that point.
- Strings.ToIntOrNull: reads only the ASCII digits `0`-`9`. Kotlin/Native's `toIntOrNull` also accepts the other Unicode decimal digits, so a shape id such as `S_\u0663` has second numeric part 3 in Kotlin and none in the model.
- TextMatch.Lower: `lowercase()` is modelled per character for the ASCII capitals, the Latin-1 capitals and the capital sharp s. It is not modelled for the rest of Unicode, nor for the mappings that change length. `\W` is the ASCII class `[^a-zA-Z0-9_]`, as Kotlin/Native's default regex flags give.
- Shapes.CalculatePercentage: its own contract states only the frame. The value of the position is stated by `Shapes.PositionInUnitInterval`, `Shapes.PositionAtFirst` and `Shapes.PositionAtLast`, under the conditions they name (ascending sequence numbers, consistent stored distances, positive length).
