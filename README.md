# BinGo collection routing and dashboard, modelled in Dafny

BinGo is a smart-dustbin dashboard. It reads the dustbins' fill levels from a
realtime database, shows them in a table and in cards, and simulates a
collection round. The collection tour is optimised in three phases:

1. a priority-weighted nearest-neighbour construction that starts at the
   fullest bin;
2. 2-opt local search (at most 100 improving passes);
3. simulated annealing over swaps of two positions, for tours of four or
   more stops.

The tour is then enriched with road segments from a routing service, and
each stop is shown with its distance, heading, compass name and travel time.

This project models that core:

- the cost function;
- the three optimisation phases and the facade that chains them;
- the road-segment mapping with its straight-line fallback;
- the per-stop navigation values and the route totals;
- the normalisation of raw database records into dustbins, and the snapshot
  handler that keeps the state the dashboard reads;
- the display helpers of the table and the cards.

Conventions of the model:

- The great-circle distance is a parameter `dist` of type `Metric`. Only its
  non-negativity is assumed.
- The azimuth is a parameter `azimuth` with values in [-180, 180].
- The random numbers annealing consumes are a sequence of `Draw`s.
- The routing service is an oracle `respond(k, from, to)`.
- The clock is a parameter `now`.
- Where a finding below shows a defect in the source, the model states the code as written in its own member and uses the corrected definition everywhere else: the time texts and the fill taken from the history.

Every imperative routine of the source is a method with the source's loop. It
is proved equal to a specification function, and the properties are proved
about that function:

- `CalculateRouteCost` against `Cost`;
- `ConstructRoute` and `PickNext` against `InitialRoute` and `BestIndex`;
- `TwoOptImprovement`, `Pass` and `Scan` against `Rounds` and `FirstImprovement`;
- `SimulatedAnnealing` and `Cool` against `Anneal` and `Run`;
- `FetchAllRoutes` against `SegmentFor`;
- `DustbinFeed.OnSnapshot` against `Collect`.

## Model

| member | source | states |
|---|---|---|
| RouteCost.CalculateRouteCost | src/components/RouteSimulation.tsx:59-77 | the accumulating loop returns the tour's cost: 0 for at most one stop, else the summed leg distances plus 0.1 times the sum of (fill/100)*(position+1) |
| RouteCost.PathLengthNonNegative | src/components/RouteSimulation.tsx:65-68 | the summed leg distances are never negative |
| RouteCost.PenaltyNonNegative | src/components/RouteSimulation.tsx:69-72 | with non-negative fill levels the urgency penalty is never negative |
| RouteCost.CostNonNegative | src/components/RouteSimulation.tsx:59-77 | with non-negative fill levels no tour has a negative cost |
| RouteCost.TwoStopCost | src/components/RouteSimulation.tsx:71-76 | a two-stop tour costs its leg plus 0.1*(f0/100 + 2*f1/100): later stops weigh more |
| Sorting.ByFillDescending | src/components/RouteSimulation.tsx:233 | the comparator sort `b.fill - a.fill` yields a permutation of the input, non-increasing in fill |
| Sorting.FullestFirst | src/components/RouteSimulation.tsx:232-234 | the first bin of that order is at least as full as every bin |
| Sorting.SortByKey | src/hooks/useDustbinData.ts:50 | the ascending sort by a numeric key is sorted, has the input's length and is a permutation of it |
| Construction.BestIndex | src/components/RouteSimulation.tsx:241-256 | the candidate chosen scores at least as much as every candidate, and strictly more than every earlier one (the `score > bestScore` scan keeps the first best) |
| Construction.PickNext | src/components/RouteSimulation.tsx:244-256 | the scan over `unvisited` returns the first best-scoring index |
| Construction.RemoveAt | src/components/RouteSimulation.tsx:261-262 | `splice(index, 1)` removes exactly the chosen bin and shortens the list by one; the bins before it stay in place and the bins after it move down one place, in order |
| Construction.GreedyStep | src/components/RouteSimulation.tsx:258-263 | one pass of the loop moves the chosen bin from the unvisited list to the tour |
| Construction.GreedyPermutes | src/components/RouteSimulation.tsx:240-264 | the loop visits every unvisited bin exactly once |
| Construction.InitialRoutePermutes | src/components/RouteSimulation.tsx:229-264 | the constructed tour is a permutation of the bins |
| Construction.InitialRouteStartsFullest | src/components/RouteSimulation.tsx:232-235 | the constructed tour starts at a bin of maximal fill |
| Construction.GreedyHeadIsBest | src/components/RouteSimulation.tsx:244-259 | the first stop chosen scores, from the current bin, at least as much as every stop chosen later |
| Construction.GreedyCons | src/components/RouteSimulation.tsx:252-260 | a greedy tour stays greedy behind a stop from which its first stop scores best |
| Construction.GreedyIsGreedy | src/components/RouteSimulation.tsx:239-264 | every step moves to a best-scoring bin among those not yet visited |
| Construction.InitialRouteIsGreedy | src/components/RouteSimulation.tsx:229-264 | the whole constructed tour is greedy in that sense |
| Construction.ConstructRoute | src/components/RouteSimulation.tsx:229-264 | the sort, shift, push and splice loop builds exactly the constructed tour |
| TwoOpt.Reversed | src/components/RouteSimulation.tsx:98 | `reverse()` puts element k at position n-1-k and keeps the elements |
| TwoOpt.ReverseSegment | src/components/RouteSimulation.tsx:96-100 | the candidate keeps every position before i and after j, holds r[i+j-k] at each position k from i to j, and has the same elements |
| TwoOpt.FirstImprovementIsReversal | src/components/RouteSimulation.tsx:93-100 | every accepted candidate is a reversal of r[i..j] with 1 <= i < j < n |
| TwoOpt.FirstImprovementCheaper | src/components/RouteSimulation.tsx:102-108 | a candidate is accepted only when it is strictly cheaper |
| TwoOpt.ReversalPermutes | src/components/RouteSimulation.tsx:96-100 | a reversal keeps every stop and the first stop |
| TwoOpt.FirstImprovementPermutes | src/components/RouteSimulation.tsx:93-111 | what one pass accepts keeps every stop and the first stop |
| TwoOpt.RoundsPermute | src/components/RouteSimulation.tsx:83-115 | 2-opt returns a permutation with the same first stop |
| TwoOpt.RoundsNoCostlier | src/components/RouteSimulation.tsx:85-113 | 2-opt never returns a costlier tour |
| TwoOpt.ShortRoutesUnchanged | src/components/RouteSimulation.tsx:81 | tours of at most two stops come back unchanged |
| TwoOpt.Scan | src/components/RouteSimulation.tsx:94-110 | the inner loop stops at the first strictly cheaper reversal i..j; when there is none it has changed nothing and the search goes on at the next i |
| TwoOpt.Pass | src/components/RouteSimulation.tsx:93-112 | one pass reports an improvement exactly when the scan finds a strictly cheaper reversal, and returns the first one in scan order; when it reports none, no reversal r[a..b] with 1 <= a < b < n is cheaper than the tour |
| TwoOpt.FirstImprovementComplete | src/components/RouteSimulation.tsx:93-110 | the scan from (i, j) finds an improvement whenever some reversal at or after (i, j) in scan order is strictly cheaper |
| TwoOpt.NoImprovementIsLocalOptimum | src/components/RouteSimulation.tsx:93-112 | a pass that finds nothing leaves a 2-opt local optimum: no reversal with 1 <= a < b < n is cheaper |
| TwoOpt.RoundsLocalOptimum | src/components/RouteSimulation.tsx:89-113 | a 2-opt run that stops before the pass cap ends at a 2-opt local optimum, and a run that makes at least one pass ends strictly cheaper than its input |
| TwoOpt.TwoOptImprovement | src/components/RouteSimulation.tsx:80-116 | the nested loops with `break` and at most 100 passes compute `Rounds`, a permutation with the same first stop and no greater cost; when fewer than 100 passes improve, the result is a 2-opt local optimum |
| Annealing.ScaledFloorBound | src/components/RouteSimulation.tsx:135-136 | floor(u*m) for u in [0, 1) lies in [0, m) |
| Annealing.FirstIndex | src/components/RouteSimulation.tsx:135 | the first swap position lies in [1, n-1], so position 0 is never moved |
| Annealing.SecondIndex | src/components/RouteSimulation.tsx:136 | the second swap position lies in [i, n-1] |
| Annealing.Swap | src/components/RouteSimulation.tsx:139-140 | the neighbour exchanges positions i and j, leaves the rest and keeps the elements |
| Annealing.Iterations | src/components/RouteSimulation.tsx:126-131 | the loop runs while the temperature is above 0.1, at most 200 times: every iteration starts above 0.1, and stopping early means the temperature reached 0.1 |
| Annealing.Run | src/components/RouteSimulation.tsx:131-158 | the iterations keep the tour's length |
| Annealing.RunOneMore | src/components/RouteSimulation.tsx:131-158 | consuming one more draw is one more iteration |
| Annealing.StepReachable | src/components/RouteSimulation.tsx:142-154 | an iteration keeps the invariant: both tours keep every stop and the first stop, the costs are the tours' costs, and the best cost is no greater than the input's |
| Annealing.RunReachable | src/components/RouteSimulation.tsx:131-158 | the invariant holds after any number of iterations |
| Annealing.AnnealPermutes | src/components/RouteSimulation.tsx:119-161 | annealing returns a permutation with the same first stop |
| Annealing.AnnealNoCostlier | src/components/RouteSimulation.tsx:150-160 | annealing never returns a tour costlier than its input |
| Annealing.StepKeepsBest | src/components/RouteSimulation.tsx:145-153 | an iteration never raises the best cost, keeps it at most the current cost, and either leaves the best tour or makes it the current tour |
| Annealing.RunBestIsCheapestSeen | src/components/RouteSimulation.tsx:131-158 | after k iterations the best cost is at most the best cost after any earlier number of iterations and at most the current cost, and the best tour is the tour the search was at after some number of iterations |
| Annealing.AnnealIsCheapestSeen | src/components/RouteSimulation.tsx:119-161 | the returned tour is one the search visited, and it costs no more than any tour visited during the run |
| Annealing.AfterReachable | src/components/RouteSimulation.tsx:131-158 | the state after any number of iterations satisfies the invariant of `StepReachable` |
| Annealing.Iterate | src/components/RouteSimulation.tsx:134-154 | the loop body computes one `Step` |
| Annealing.CoolDown | src/components/RouteSimulation.tsx:157 | `temperature *= coolingRate` moves from the k-th to the (k+1)-th temperature |
| Annealing.Cool | src/components/RouteSimulation.tsx:131-158 | the while loop returns the best tour of `Run` over as many draws as `Iterations` allows |
| Annealing.SimulatedAnnealing | src/components/RouteSimulation.tsx:119-161 | returns `Anneal`: the input for at most two stops, else a permutation with the same first stop and no greater cost |
| Optimizer.CalculateOptimizedRoute | src/components/RouteSimulation.tsx:221-274 | [] for no bins, the bin itself for one; otherwise a permutation of the bins that starts at a fullest bin and costs no more than the constructed tour |
| Optimizer.OptimizeKeepsInitialStart | src/components/RouteSimulation.tsx:266-272 | 2-opt and annealing (run for four or more stops) keep the stops and the first stop of the constructed tour |
| Optimizer.OptimizePermutes | src/components/RouteSimulation.tsx:221-264 | every bin is visited exactly once |
| Optimizer.OptimizeStartsFullest | src/components/RouteSimulation.tsx:232-235 | the final tour starts at a bin of maximal fill |
| Optimizer.OptimizeNoCostlier | src/components/RouteSimulation.tsx:266-274 | the final tour costs no more than the constructed one |
| Enrichment.Geometry | src/components/RouteSimulation.tsx:336 | each [lng, lat] vertex becomes [lat, lng], in order |
| Enrichment.StepInstruction | src/components/RouteSimulation.tsx:341-344 | a step yields its maneuver's instruction exactly when that is present and not empty, and nothing otherwise |
| Enrichment.GeometryRoundTrip | src/components/RouteSimulation.tsx:336 | a polyline written longitude first maps back to exactly its vertices |
| Enrichment.InstructionsAppend | src/components/RouteSimulation.tsx:339-346 | instructions keep the order of the steps |
| Enrichment.InstructionsBound | src/components/RouteSimulation.tsx:340-345 | at most one instruction per step, none empty |
| Enrichment.UnitConversion | src/components/RouteSimulation.tsx:349-350 | metres become kilometres and seconds become minutes |
| Enrichment.FetchRoadRoute | src/components/RouteSimulation.tsx:321-365 | a thrown lookup gives the straight-line segment; a reply gives a segment exactly when its code is "Ok" and it has a route |
| Enrichment.Fallback | src/components/RouteSimulation.tsx:356-363 | the fallback runs straight from `from` to `to` over the non-negative straight-line distance at 30 km/h (two minutes per km) with no instructions |
| Enrichment.SegmentFor | src/components/RouteSimulation.tsx:383-398 | the segment is the fallback exactly when the lookup threw or the reply is unusable (a null result), and otherwise the reply's first route |
| Enrichment.FetchAllRoutes | src/components/RouteSimulation.tsx:369-417 | one segment per consecutive pair, in tour order, each the fetched or fallback segment of its own lookup; none for fewer than two stops |
| Navigation.TargetVertex | src/components/RouteSimulation.tsx:462 | the heading looks at vertex min(5, length-1), which is never the start vertex |
| Navigation.NormalizeRange | src/components/RouteSimulation.tsx:472 | `(bearing + 360) % 360` maps an azimuth into [0, 360) without changing its direction |
| Navigation.StepBearing | src/components/RouteSimulation.tsx:456-484 | the bearing lies in [0, 360) |
| Navigation.DirectionSector | src/components/RouteSimulation.tsx:487-491 | a bearing is named by the compass point within 22.5 degrees of it; [337.5, 360) is north |
| Navigation.Direction | src/components/RouteSimulation.tsx:487-491 | every bearing from -22.5 degrees on has one of the eight names; only a more negative one can index below 0 and name nothing |
| Navigation.StepDirection | src/components/RouteSimulation.tsx:752-754 | the first stop shows "Start", every other stop one of the eight compass names |
| Navigation.StepDistance | src/components/RouteSimulation.tsx:434-443 | 0 for the first stop; the road segment's distance when the leg has one; else the non-negative straight-line distance |
| Navigation.StepDuration | src/components/RouteSimulation.tsx:445-453 | 0 for the first stop; the road segment's minutes when the leg has one; else two minutes per km of the step distance |
| Navigation.FirstStep | src/components/RouteSimulation.tsx:434-446 | the first stop has no distance and no duration and reads "0 min" |
| Navigation.StraightLineDuration | src/components/RouteSimulation.tsx:445-453 | a leg without a road segment takes two minutes per km of straight line |
| Navigation.TotalDistanceStraight | src/components/RouteSimulation.tsx:505 | without road segments the total distance is the tour's straight-line length |
| Navigation.TotalDurationWithoutSegments | src/components/RouteSimulation.tsx:506 | without road segments the total time is that length at 30 km/h |
| Navigation.TotalDistance | src/components/RouteSimulation.tsx:505 | with non-negative segment distances the summed step distances are non-negative |
| Navigation.SumDurations | src/components/RouteSimulation.tsx:506 | with non-negative segment durations their sum is non-negative |
| Navigation.TotalDuration | src/components/RouteSimulation.tsx:506 | the segments' summed minutes, or, when that sum is 0, two minutes per km of the total distance; non-negative for non-negative segments |
| Navigation.TimeAsWrittenShowsSixtyMinutes | src/components/RouteSimulation.tsx:500-502 | as written, 119.5 minutes reads "1h 60m" and 59.5 minutes reads "60 min" |
| Navigation.TimeAsWritten | src/components/RouteSimulation.tsx:494-503 | as written: "N min" exactly below 60 minutes with N the rounded duration; otherwise hours h with 60h <= duration < 60h + 60 and minutes equal to round(duration - 60h), which lies in [0, 60], so 60 can appear |
| Navigation.Time | src/components/RouteSimulation.tsx:494-503 | the corrected text: minutes below 60, and hours*60 + minutes equals the rounded duration |
| Navigation.TimeAgreesBelowHour | src/components/RouteSimulation.tsx:497-498 | below 59.5 minutes the corrected text and the written one agree |
| Navigation.StepTime | src/components/RouteSimulation.tsx:494-503 | "0 min" for the first stop; every other stop gets the corrected text of its step duration: in the minutes shape the rounded step duration, in the hours shape minutes below 60 with hours*60 + minutes equal to the rounded step duration |
| Navigation.TotalTimeAsWrittenShowsSixtyMinutes | src/components/RouteSimulation.tsx:507-509 | as written, a 119.5-minute total reads "1h 60m"; the corrected total reads "2h 0m" |
| Navigation.TotalTime | src/components/RouteSimulation.tsx:507-509 | the corrected total text: in the minutes shape the rounded total duration (below 60); in the hours shape minutes below 60 and hours*60 + minutes equal to the rounded total duration |
| Text.NatToStringRoundTrip | src/components/RouteSimulation.tsx:498 | the digits a template literal prints read back as the number |
| Normalise.StatusOf | src/hooks/useDustbinData.ts:7-11 | critical exactly from 80, warning exactly in [60, 80), normal exactly below 60 |
| Normalise.Clamp | src/hooks/useDustbinData.ts:23 | the result lies in [0, 100] and equals the input inside that range |
| Normalise.ReadingFill | src/hooks/useDustbinData.ts:47 | a reading's fill lies in [0, 100] |
| Normalise.ToMillisThreshold | src/hooks/useDustbinData.ts:39-44 | a timestamp lands at or after year 2000 in milliseconds exactly when it is from year 2000 on in seconds or milliseconds |
| Normalise.ToMillisIdempotent | src/hooks/useDustbinData.ts:42-44 | repairing a repaired timestamp changes nothing |
| Normalise.LastN | src/hooks/useDustbinData.ts:51 | `slice(-24)` is a suffix of exactly min(24, length) entries |
| Normalise.SortedReadings | src/hooks/useDustbinData.ts:37-50 | the sorted entries are ascending by timestamp and are exactly the converted readings (repaired timestamp, clamped fill), one per reading |
| Normalise.NormalizedHistoryProperties | src/hooks/useDustbinData.ts:35-52 | the history is ascending and exactly min(24, readings) long; each entry is a converted reading, every fill lies in [0, 100], and with at most 24 readings all of them are kept |
| Normalise.NormalizedHistoryKeepsLatest | src/hooks/useDustbinData.ts:50-51 | the entries dropped are a prefix, none later than a kept one |
| Normalise.LatestIndex | src/hooks/useDustbinData.ts:26-28 | the index chosen holds the largest key, and no earlier index holds one as large |
| Normalise.InitialFillAsWritten | src/hooks/useDustbinData.ts:20-31 | as written: the clamped numeric `latest`; else the clamped value of a reading with the largest raw key; else 0; always in [0, 100] |
| Normalise.FillAsWrittenFromOlderReading | src/hooks/useDustbinData.ts:24-31 | as written, readings at 1600000000000 ms (fill 10) and 1700000000 s (fill 90) give fill 10, while the history ends with the 1700000000000 ms entry of fill 90; the corrected fill is 90 |
| Normalise.InitialFill | src/hooks/useDustbinData.ts:20-31 | corrected: the clamped numeric `latest`; else the clamped value of a reading with the latest repaired timestamp, taken from the entry that ends the sorted history; else 0; always in [0, 100] |
| Normalise.LatestFill | src/hooks/useDustbinData.ts:24-31 | corrected: the fill of a reading whose repaired timestamp no other reading exceeds |
| Normalise.FillMatchesLastUpdated | src/hooks/useDustbinData.ts:20-65 | when the fill comes from the history, the history is non-empty and the fill and `lastUpdated` are the fill and timestamp of its last entry, so they belong to the same reading |
| Normalise.FillFromLastOfTiedReadings | src/hooks/useDustbinData.ts:37-50 | two keys that repair to the same timestamp keep their enumeration order in the history, and the corrected fill (10) is the later one's, which is the entry `lastUpdated` shows |
| Normalise.HistoryOf | src/hooks/useDustbinData.ts:33-60 | the normalised history when there are readings, else the single entry (now, fill) for a positive fill and none for 0; ascending, at most 24, non-empty for a positive fill |
| Normalise.RemoveFirstBin | src/hooks/useDustbinData.ts:78 | `replace('bin', '')` removes three characters or none |
| Normalise.RemoveFirstBinFirst | src/hooks/useDustbinData.ts:78 | the occurrence removed is the first one: with the first "bin" at i the result is s[..i] + s[i+3..] |
| Normalise.RemoveBinPrefix | src/hooks/useDustbinData.ts:78 | "bin" + rest becomes rest |
| Normalise.RemoveFirstBinAbsent | src/hooks/useDustbinData.ts:78 | an id without "bin" is left as it is |
| Normalise.NameOf | src/hooks/useDustbinData.ts:78 | a non-empty name is kept; otherwise "Dustbin " + the id without its first "bin"; never empty |
| Normalise.LocationOf | src/hooks/useDustbinData.ts:79 | a non-empty location is kept; otherwise the default location of the id; never empty |
| Normalise.DefaultLocation | src/hooks/useDustbinData.ts:97-104 | never empty, and "Pune, India" exactly for ids other than bin1, bin2 and bin3 |
| Normalise.CoordinatesOf | src/hooks/useDustbinData.ts:74-84 | present coordinates are kept, each missing component 0; absent ones come from the per-id table |
| Normalise.CapacityOf | src/hooks/useDustbinData.ts:87 | a non-zero number is kept; otherwise 100; never 0 |
| Normalise.Transform | src/hooks/useDustbinData.ts:14-94 | no dustbin exactly for a falsy record |
| Normalise.TransformProperties | src/hooks/useDustbinData.ts:54-88 | a present record keeps its id, gets the fill and its status, the normalised history when the raw history has entries, else (now, fill) for a positive fill and nothing for 0, ascending and at most 24 long, and `lastUpdated` from the last entry or `now` |
| Normalise.TransformDefaults | src/hooks/useDustbinData.ts:67-87 | present coordinates, location, capacity and name are kept; missing ones fall back to the per-id tables and then to FC Road, "Pune, India", 100 and "Dustbin " + the id without "bin" |
| Normalise.DefaultTables | src/hooks/useDustbinData.ts:68-74 | the default position is FC Road exactly for ids other than bin2 and bin3 |
| Normalise.CollectAppend | src/hooks/useDustbinData.ts:136-141 | collecting consecutive runs of keys concatenates their results, so key order is kept |
| Normalise.CollectOne | src/hooks/useDustbinData.ts:137-140 | a key contributes its transform exactly when its record is present |
| Normalise.CollectFromEntries | src/hooks/useDustbinData.ts:136-141 | no more dustbins than keys, each the transform of the record under its own key |
| Normalise.DustbinFeed.constructor | src/hooks/useDustbinData.ts:107-109 | no dustbins, loading, no error |
| Normalise.DustbinFeed.OnSnapshot | src/hooks/useDustbinData.ts:121-150 | no data clears the list with its error; otherwise the list is the collected transforms, with the "no valid data" error exactly when it is empty; loading ends |
| Normalise.DustbinFeed.OnError | src/hooks/useDustbinData.ts:157-162 | the error's message, or the fixed one when it is empty; the list is cleared and loading ends |
| Display.BadgeVariant | src/components/DustbinTable.tsx:20-29 | "destructive" exactly for "critical", "warning" exactly for "warning", "secondary" for anything else |
| Display.CardIndicatorsAgree | src/components/DustbinCard.tsx:12-21 | on a card whose status was derived from its fill, the badge, the icon tint and the fill bar agree |
| Display.ProgressColor | src/components/DustbinCard.tsx:23-27 | red exactly from 80, yellow exactly in [60, 80), green exactly below 60 |
| Display.ProgressMatchesStatus | src/components/DustbinTable.tsx:76-80 | the fill bar's colour bands are the status bands |
| Display.CardBackground | src/components/DustbinCard.tsx:41-45 | the icon tint is red, yellow or green exactly for critical, warning and any other status |
| Display.Elapsed | src/components/DustbinTable.tsx:31-38 | exactly one band applies: minutes below an hour, hours below a day, else days, each count the elapsed time rounded down |
| Display.FormatTime | src/components/DustbinCard.tsx:29-36 | the text is the minute, hour or day text of the band the elapsed time falls in |
| Display.AgeTextReadsBack | src/components/DustbinTable.tsx:34-37 | the suffix names the unit and the digits before it read back as the count |
| Display.TableRowsFullestFirst | src/components/DustbinTable.tsx:40 | the rows are a permutation of the bins, fullest first |

## Left out

- The haversine formula and the bearing trigonometry are not modelled. They are the parameters `dist` (non-negative) and `azimuth` (values in [-180, 180]), because they are floating-point numerics.
- Floating point as a whole is not modelled. Numbers are exact reals, so NaN, infinities and rounding error are not represented.
- `Math.random` and `Math.exp` in annealing are replaced by the injected `Draw`s. A draw's `acceptWorse` stands for the outcome of `Math.random() < Math.exp(-delta / temperature)`, so the acceptance probability itself is not modelled. The draws also admit refusing a neighbour of equal cost, which the source cannot do because `Math.exp(0)` is 1; the proved properties hold for every draw.
- `Math.random` in `generateDummyDustbins` is not modelled, and neither is that generator. It fabricates test bins; the optimiser takes the bins as its input.
- Annealing.Anneal and Optimizer.CalculateOptimizedRoute: the iteration count for the temperature 50 and the rate 0.92 is not computed. It is characterised by `Iterations`.
- Annealing.Anneal and Optimizer.CalculateOptimizedRoute require at least 200 valid draws. The source draws as many random numbers as it needs.
- `fetch`, the URL text, the 100 ms pause, `async`/`await` and the React state setters and effects are not modelled. The routing service is the oracle `respond`.
- The outer `catch` of `fetchAllRoutes` (src/components/RouteSimulation.tsx:420-422) is not modelled.
- The per-segment `catch` (src/components/RouteSimulation.tsx:401-416) is not modelled. `fetchRoadRoute` already catches everything, so this path cannot be reached.
- The click handlers, the bin-count selection, the playback timer and auto-scroll are not modelled, because they are UI state.
- The map rendering is not modelled, because it is rendering.
- The slicing of instructions to three or five for display is not modelled, and neither is `toFixed`.
- The database listener's subscription and configuration are not modelled, and neither are the other components.
- Normalise.InitialFill, Normalise.InitialFillAsWritten, Normalise.OrZero and Normalise.CapacityOf: a raw value that is not a number is treated as the falsy 0, so a fill or coordinate becomes 0 and a capacity becomes 100. JavaScript would coerce a numeric string in `Math.min`, and would keep a truthy non-number under `||`, for instance a capacity given as a string.
- Normalise.Transform: the `try`/`catch` that turns an exception into `null` is not modelled. History keys are taken as integers. Ids that name `Object.prototype` members are not modelled.
- Sorting.SortByKey is written as a stable insertion sort, but its stability is not stated as a proved property.
- Construction.RemoveAt removes the chosen index. The source removes the first element identical to the chosen object, which is the same position because the bins are distinct objects.
- `DustbinCard.tsx` repeats `getStatusColor` and `formatTime` from `DustbinTable.tsx`. Each is modelled once, as `Display.BadgeVariant` and `Display.FormatTime`. The card's icon colour (`text-*-600`) follows the same three-way choice as `Display.CardBackground` and is not modelled separately.

## Findings

| source | as written | input that shows it | evidently intended | confidence | as-written member | corrected member |
|---|---|---|---|---|---|---|
| src/components/RouteSimulation.tsx:494-503 | the whole hours are taken with `floor(duration / 60)`, and the minutes are rounded afterwards with `round(duration % 60)` | a duration of 119.5 minutes reads "1h 60m"; 59.5 minutes reads "60 min" | round to whole minutes first, then split into hours and minutes below 60 | not executed | Navigation.TimeAsWrittenShowsSixtyMinutes | Navigation.Time |
| src/components/RouteSimulation.tsx:507-509 | the total time splits with `floor(totalDuration / 60)` and rounds `totalDuration % 60` afterwards | one road segment of 119.5 minutes gives a total that reads "1h 60m" | round the total first, then split, giving "2h 0m" | not executed | Navigation.TotalTimeAsWrittenShowsSixtyMinutes | Navigation.TotalTime |
| src/hooks/useDustbinData.ts:24-31 | without a numeric `latest`, the fill comes from the largest raw history key, while the history is ordered by timestamps whose seconds keys were multiplied by 1000 | history {"1600000000000": 10, "1700000000": 90}: the fill is 10, from 2020, but the history ends with the 2023 reading of 90, which `lastUpdated` shows | take the fill from the entry that ends the sorted history, the most recent reading after the seconds-to-milliseconds repair, so fill and `lastUpdated` describe the same reading | not executed; likely only with keys in mixed units | Normalise.FillAsWrittenFromOlderReading | Normalise.InitialFill |
