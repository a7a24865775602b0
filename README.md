# Indoor mapping and navigation: a Dafny model of its core

This project models, in Dafny, the core of an indoor mapping and navigation system:
a mobile client that draws the surveyed building and finds where the user stands, a
server that turns survey GeoJSON into a routing graph and gives turn-by-turn
instructions, and the earlier prototypes both grew out of. One Dafny module stands
for each source file:

- **Mobile client.** `GeoJson` (app/lib/geoJson.js) builds the map's features and
  `LegacyGeoJson` (app/components/buildGeoJson.js) is the older builder. `NearestNode`
  (app/lib/findNearestNode.js) finds the closest path node on the user's level.
  `ClientTrilateration` (app/components/Trilateration.js) matches scanned networks to
  known access points, sorts them by signal level in place and passes three to a
  placeholder solver.
- **Heuristic-training notebook** (app/data/heuristic_training.py). `HeuristicMatching`
  matches scans against the surveyed access points. `HeuristicTraining` solves every
  triple of matched networks, thins the point cloud by repeated 2-σ rejection, takes the
  centroid, and combines the errors in `err_controller`.
- **Localisation prototype** (src/localisation). `ScanLocalisation` reads an `iwlist`
  scan line by line. `ApParser` reads the access-point table. `TrilaterationSolver`
  solves the three-circle system by Cramer's rule.
- **Legacy localisation driver.** `LegacyLocalisation`
  (server/src/legacy_localisation/localisation.py).
- **Server parsers.** `PolygonParser` (server/src/parser/polygon_parser.py) loads room
  polygons, one per level they span, and places nodes in rooms. `ServerGraphParser`
  (server/src/parser/graph_parser.py) turns line strings into path nodes and edges,
  sharing repeated points, and ties each point of interest to its nearest node.
- **Server router.** `Router` (server/src/path_finding/router.py) stores nodes as flat
  dicts and rebuilds them, charges the A* heuristic's room penalty, classifies turns and
  generates instructions three nodes at a time.
- **First path-finding prototype.** `PathGraph` holds the breadth-first search
  (src/path_finding/graph.py and Path_Finding/Graph.py). The three parsers are
  `LegacyGraphParser` (src/path_finding/graph_parser.py), `LegacyParser`
  (src/path_finding/parser.py) and `PathFindingParser` (Path_Finding/Parser.py), with
  the shared input types in `LegacyTypes`.

Shared helpers:

- `Wrappers`: `Option`.
- `Text`: `split`, `strip`, substring search, JavaScript `parseInt` and the decimal
  subset of Python `float`.
- `Dicts`: an insertion-ordered dictionary as a list of entries.
- `Features` and `MapTypes`: the client's feature values and the server's records.
- `Seqs`: slice facts.

The model takes each source file's own form.

- Objects whose methods update their fields are classes with `modifies` clauses:
  - the parsers;
  - the router;
  - the localisation objects;
  - the client's `Trilateration`.
- Loops become methods with invariants, each proved against a function that states
  what the loop computes.
- Pure computations are functions.

Library calls become function-valued parameters, and their properties are assumed only
where a lemma's `requires` says so:

- shapely's `contains` and `distance`;
- pygeodesy's `isenclosedBy`;
- the n-vector solver;
- `rssi_to_distance`;
- `acos`;
- `sqrt`;
- `json.dumps`/`json.loads`;
- number formatting.

A Python exception that the code does not catch becomes a `requires`. The source
demands that input of its callers, since the program stops otherwise. Exceptions the
code catches are modelled as real paths.

## Model

| member | source | states |
|---|---|---|
| MapTypes.PyEqReflexive | server/src/parser/graph_parser.py:110-113 | Python `==` on a level read from JSON is reflexive, so a point met again at the same level is recognised |
| MapTypes.PyFloatOf | server/src/parser/graph_parser.py:167 | `float` leaves a number's value unchanged and raises on `None` and on a list |
| Text.Find | src/localisation/localisation.py:91-99 | the first occurrence of the pattern, or none exactly when it never occurs (Python `in` and `find`) |
| Text.Split | src/localisation/localisation.py:78 | Python `split` always gives at least one piece |
| Text.SplitJoin | src/localisation/localisation.py:92-104 | the pieces joined by the separator give back the text |
| Text.SplitPiecesFree | src/localisation/localisation.py:78 | no piece holds the separator |
| Text.SplitHasSecond | src/localisation/localisation.py:92-104 | `split(sep)[1]` exists (raises no IndexError) exactly when the separator occurs |
| Text.SplitTerminated | src/localisation/localisation.py:23-25 | newline-terminated lines split back into the lines followed by an empty piece |
| Text.AfterFirst | server/src/path_finding/router.py:55 | `split(sep, 1)[1]` is the text after some occurrence of the separator |
| Text.DropLast | src/localisation/localisation.py:96 | `[:-1]` drops exactly the last character, and leaves "" as it is |
| Text.StripLeft | src/localisation/localisation.py:88 | the leading whitespace is removed and nothing else |
| Text.StripRight | src/localisation/localisation.py:88 | the trailing whitespace is removed and nothing else |
| Text.Strip | src/localisation/localisation.py:88 | the result neither starts nor ends with whitespace |
| Text.DigitPrefix | app/lib/geoJson.js:2 | the longest run of decimal digits at the front, which `parseInt` reads |
| Text.ShowNatValue | app/lib/geoJson.js:2 | a natural number's numeral reads back as that number |
| Text.JsParseIntShow | app/lib/geoJson.js:2 | `parseInt(_, 10)` reads back every integer's numeral |
| Text.JsParseIntNaN | app/lib/geoJson.js:2 | a text not starting with a blank, a sign or a digit reads as `NaN` |
| Text.PyFloatShowNat | server/src/parser/polygon_parser.py:63 | `float` reads back every natural number's numeral |
| Text.PyFloatShowNegative | server/src/parser/polygon_parser.py:63 | `float` reads back every negative integer's numeral |
| Dicts.Keys | src/localisation/localisation.py:24 | the keys in insertion order |
| Dicts.IndexOf | src/localisation/localisation.py:112 | the first entry with the key, or none exactly when the key is absent |
| Dicts.Put | src/localisation/localisation.py:112 | `d[k] = v` keeps the key order when the key is present and appends otherwise |
| Dicts.PutGet | src/localisation/localisation.py:112 | after `d[k] = v` the key reads `v`, the other keys keep their values, and keys stay unique |
| Dicts.Take | server/src/legacy_localisation/localisation.py:9 | `dict(list(d.items())[:n])`: the first n entries in order |
| Dicts.LastIndex | src/localisation/AP_parser.py:69 | the last assignment under a key |
| Dicts.PutAllGet | src/localisation/AP_parser.py:51-69 | after a run of assignments a key holds the value of its last assignment, and keys not assigned keep theirs |
| Features.SpreadTags | app/lib/geoJson.js:26-40 | `{...tags}` gives one string property per tag, of the same name |
| GeoJson.Span | app/lib/geoJson.js:10-12 | the range loop's levels: `end - start + 1` integers (none when `start > end`), the i-th being `start + i` |
| GeoJson.ParseTokens | app/lib/geoJson.js:2 | one `parseInt` result per ';'-separated token, in token order |
| GeoJson.PushRange | app/lib/geoJson.js:7-12 | the `for` loop pushes exactly the inclusive range between the two parsed ends, and nothing when either end is `NaN` |
| GeoJson.LevelsOf | app/lib/geoJson.js:1-16 | `levelToArray` with its loop returns the token list, or for exactly two tokens the inclusive range between them |
| GeoJson.LevelSingle | app/lib/geoJson.js:2-15 | an integer level string reads back as the one-element list of that integer |
| GeoJson.LevelRange | app/lib/geoJson.js:6-13 | "a;b" yields every integer from a to b ascending, and the empty list when a > b |
| GeoJson.LevelRangeNaN | app/lib/geoJson.js:6-13 | two tokens of which one is not a number give the empty level list |
| GeoJson.SwapAll | app/lib/geoJson.js:23 | each vertex `[lat, lon]` becomes `[lon, lat]`, count and order kept |
| GeoJson.SwapAllTwice | app/lib/geoJson.js:23 | swapping the axes is its own inverse, so the surveyed vertices can be read back from a feature |
| GeoJson.PolyFeatures | app/lib/geoJson.js:18-30 | one feature per polygon, the i-th built from the i-th polygon |
| GeoJson.PolyFeatureRecovers | app/lib/geoJson.js:18-30 | a polygon feature is one ring of the swapped vertices, with the polygon as `queryObject`, its parsed level overriding a `level` tag, and every other tag kept |
| GeoJson.NodeFeatures | app/lib/geoJson.js:32-44 | one feature per node, the i-th built from the i-th node |
| GeoJson.NodeFeatureRecovers | app/lib/geoJson.js:32-44 | a node feature is the point `[lon, lat]` with the node as `queryObject`, its parsed level overriding a `level` tag, and every other tag kept |
| GeoJson.LookupLastWins | app/lib/geoJson.js:49-50 | the lookup table's keys are exactly the node ids, and each maps to the last node with that id |
| GeoJson.BuildLookup | app/lib/geoJson.js:49-50 | the filling loop builds that table |
| GeoJson.Resolved | app/lib/geoJson.js:55 | the filter keeps exactly the edges whose two ends are in the table, and every edge when all resolve |
| GeoJson.LineOfShape | app/lib/geoJson.js:56-73 | a line runs from node1 `[lon, lat]` to node2 `[lon, lat]` and carries the edge pair and node1's level |
| GeoJson.LineFeatures | app/lib/geoJson.js:46-76 | `buildLineString` gives at most one line per edge |
| GeoJson.ResolvedAppend | app/lib/geoJson.js:54-55 | the edge filter keeps the edges' order: the filter of a concatenation is the concatenation of the filters |
| GeoJson.LineFeaturesAppend | app/lib/geoJson.js:54-75 | lines come in edge order: the lines of two edge lists joined are the lines of each, joined |
| GeoJson.LineFeaturesOne | app/lib/geoJson.js:54-75 | one edge gives exactly one line when both its ids are listed nodes, running from the last node listed with the first id to the last with the second and carrying the edge; otherwise none |
| GeoJson.LineFeaturesSound | app/lib/geoJson.js:54-75 | every line joins two listed nodes that a listed edge connects, and carries that edge |
| GeoJson.LineFeaturesComplete | app/lib/geoJson.js:54-55 | every edge whose two ends are listed nodes yields a line |
| GeoJson.OnLevelRange | app/lib/geoJson.js:78-79 | a feature surveyed on "a;b" is on level l exactly when a <= l <= b |
| GeoJson.OnLevelSingle | app/lib/geoJson.js:78-79 | a feature surveyed on one level is on that level only |
| GeoJson.BuildGeoJsonLayout | app/lib/geoJson.js:81-95 | the features are polygons, then wall and node lines, then node points, then POI points; the length is the sum of the parts, and each point run keeps input order |
| NearestNode.SqDist | app/lib/findNearestNode.js:12-15 | the squared `Math.hypot` distance, never negative |
| NearestNode.FindNearestNode | app/lib/findNearestNode.js:1-24 | null exactly when no way on the user's first level is closer than the initial bound; otherwise one of those features, no farther than any other, and strictly nearer than every earlier one |
| LegacyGeoJson.PolyFeatures | app/components/buildGeoJson.js:1-24 | the loop pushes one feature per polygon, the i-th built from the i-th polygon |
| LegacyGeoJson.NodeFeatures | app/components/buildGeoJson.js:26-44 | the loop pushes one point `[[lon, lat]]` feature per node, in order |
| LegacyGeoJson.BuildGeoJson | app/components/buildGeoJson.js:46-64 | polygon features, then node features, then wall features, lengths adding up; `edges` is never read |
| LegacyGeoJson.PolyFeatureAgrees | app/components/buildGeoJson.js:14-19 | the same ring geometry and tags as the current builder, but the raw level string overrides the `level` tag and no `queryObject` is added |
| LegacyGeoJson.NodeFeatureAgrees | app/components/buildGeoJson.js:37-39 | the same point geometry and tags as the current builder, with the raw level string and no `queryObject` |
| ClientTrilateration.FirstMatch | app/components/Trilateration.js:25-28 | the index of `filter(...)[0]`, when there is one, lies in the known list |
| ClientTrilateration.FirstMatchIsFirst | app/components/Trilateration.js:25-29 | that index is the first known network whose BSSID starts with the key (BSSID less its last character); there is none exactly when no BSSID does |
| ClientTrilateration.CommonAppend | app/components/Trilateration.js:23-32 | matching is network by network: the kept networks of a concatenation are those of each part, so two radios of one access point are both kept |
| ClientTrilateration.CommonOne | app/components/Trilateration.js:25-31 | one scanned network is kept exactly when some known BSSID starts with its key, keeping its BSSID and level and taking the first match's coordinates |
| ClientTrilateration.CommonSound | app/components/Trilateration.js:23-32 | every kept network is a scanned one that some known network matches |
| ClientTrilateration.MatchNetworks | app/components/Trilateration.js:23-32 | the `forEach` loop builds the common list, in scan order |
| ClientTrilateration.Insert | app/components/Trilateration.js:62 | inserting into the sorted list adds exactly that network |
| ClientTrilateration.SortByLevel | app/components/Trilateration.js:62-68 | the comparator sort is a permutation of the list |
| ClientTrilateration.InsertSorted | app/components/Trilateration.js:62-68 | inserting keeps the list ordered by level |
| ClientTrilateration.SortByLevelSorted | app/components/Trilateration.js:62-68 | the sort orders by level, ascending or descending, and is a permutation |
| ClientTrilateration.InsertKeepsTies | app/components/Trilateration.js:62-68 | inserting a network puts it ahead of the networks of its level and leaves their order alone |
| ClientTrilateration.SortByLevelStable | app/components/Trilateration.js:62-68 | the sort is stable: the networks of any one level keep their common-list order, so ties in `firstThree`/`lastThree` go to the earlier-matched network |
| ClientTrilateration.TakeThree | app/components/Trilateration.js:62-68 | `slice(0, 3)` is the first min(3, n) networks |
| ClientTrilateration.SelectionExtremes | app/components/Trilateration.js:60-70 | at most three networks, drawn from the common list, none ordered after a network left out: the weakest for `firstThree`, the strongest for `lastThree` |
| ClientTrilateration.TakeThreeDrawn | app/components/Trilateration.js:62-68 | the selection is drawn from the list it is taken from |
| ClientTrilateration.Trilaterate | app/components/Trilateration.js:4-9 | the point is [-1, -1] and the error -1, and the networks pass through unchanged |
| ClientTrilateration.SelectionConsistent | app/components/Trilateration.js:41-47 | recording the first three of the common list keeps the object's invariant |
| ClientTrilateration.Trilateration.constructor | app/components/Trilateration.js:11-33 | an absent list counts as empty; the common list is the matched networks; nothing is used yet and the predicted location is [-999, -999] |
| ClientTrilateration.Trilateration.FirstThree | app/components/Trilateration.js:60-64 | sorts the common list ascending by level in place and returns the solver's result on its first three; nothing else changes |
| ClientTrilateration.Trilateration.LastThree | app/components/Trilateration.js:66-70 | the same with the descending comparator |
| ClientTrilateration.Trilateration.StartTrilateration | app/components/Trilateration.js:35-48 | the predicted location becomes [-1, -1] and the used networks the `firstThree` selection of the ascending-sorted common list |
| HeuristicMatching.Tagged | app/data/heuristic_training.py:102-104 | the appended network keeps its full BSSID (only the local `mac` is truncated) and its RSSI, loses its SSID and carries `LatLon` of the entry's first two coordinates |
| HeuristicMatching.CommonScanFirstWins | app/data/heuristic_training.py:91-107 | the loop keeps exactly the first usable network of each access point, in scan order, and an access point is kept exactly when one of its networks is usable |
| HeuristicMatching.FirstUsableLast | app/data/heuristic_training.py:99-105 | a network is appended exactly when it is usable and no earlier usable network shares its truncated BSSID |
| HeuristicMatching.CommonScanSound | app/data/heuristic_training.py:92-105 | every kept network's truncated BSSID is a table key on the requested level, it carries that entry's coordinates and no SSID, and no two kept networks share a truncated BSSID |
| HeuristicMatching.CompareNetworks | app/data/heuristic_training.py:84-111 | one list per scan, in scan order, each the scan's kept networks |
| HeuristicTraining.DoTrilaterate | app/data/heuristic_training.py:213-235 | the solver's point, or the sentinel [-1, -1] when the solver raises |
| HeuristicTraining.Done | app/data/heuristic_training.py:258-261 | the triples the loops have solved on reaching (i, j, k) are index triples below n |
| HeuristicTraining.DoneFacts | app/data/heuristic_training.py:258-261 | those triples are exactly the index triples below n that come before (i, j, k), each once, in lexicographic order |
| HeuristicTraining.Triples | app/data/heuristic_training.py:258-261 | the triples of the three loops are index triples below n |
| HeuristicTraining.TriplesExactlyOnce | app/data/heuristic_training.py:258-261 | every triple i < j < k < n is solved exactly once, in lexicographic order, and nothing else is |
| HeuristicTraining.Solved | app/data/heuristic_training.py:262-265 | no more points are kept than triples are solved |
| HeuristicTraining.SolvedMembers | app/data/heuristic_training.py:262-265 | a point is kept exactly when it is the result of one of the triples and its latitude is not the sentinel -1 |
| HeuristicTraining.CollectedIsSolved | app/data/heuristic_training.py:256-265 | what the loops collect, one triple at a time, is the kept points of the triples before the current one |
| HeuristicTraining.Candidates | app/data/heuristic_training.py:256-265 | the triple loops collect the candidate cloud |
| HeuristicTraining.SqDist | app/data/heuristic_training.py:239 | the squared distance under `distance`'s square root is never negative |
| HeuristicTraining.Keep | app/data/heuristic_training.py:274 | the comprehension keeps at most every point, and the list itself when it keeps as many |
| HeuristicTraining.KeepMembers | app/data/heuristic_training.py:274 | it keeps exactly the points strictly closer to the centroid than the bound |
| HeuristicTraining.PassIs | app/data/heuristic_training.py:272-274 | one pass keeps the points within twice the standard deviation `get_stats` returns |
| HeuristicTraining.Reject | app/data/heuristic_training.py:270-280 | the rejection loop ends with a non-empty cloud no larger than its input, on which a further pass would remove nothing or everything |
| HeuristicTraining.RejectStep | app/data/heuristic_training.py:270-280 | a pass that removes nothing or everything ends the loop with the cloud unchanged; any other pass continues the loop on the survivors |
| HeuristicTraining.Turn | app/data/heuristic_training.py:271-280 | the same, stated on the list one turn of the loop computes |
| HeuristicTraining.RejectDrawnFrom | app/data/heuristic_training.py:270-280 | every point the loop keeps was in its input |
| HeuristicTraining.WithinTwoSd | app/data/heuristic_training.py:249-274 | for a true square root, closer than 2·sd is squared distance below 4·variance |
| HeuristicTraining.SumSqErrExact | app/data/heuristic_training.py:246-248 | for a true square root, the summed squared errors are the summed squared distances to the centroid |
| HeuristicTraining.PassSquared | app/data/heuristic_training.py:242-274 | for a true square root, a pass keeps exactly the points whose squared distance to the centroid is below four times the mean squared distance |
| HeuristicTraining.IterateAll | app/data/heuristic_training.py:254-284 | the estimate is the centroid of the candidate cloud after the rejection loop; an empty cloud is excluded because the first `get_stats` raises on it |
| HeuristicTraining.Errors | app/data/heuristic_training.py:302-309 | one error per scan, location by location, each the distance from that scan's estimate to its location |
| HeuristicTraining.ErrorIs | app/data/heuristic_training.py:308-309 | the error of scan s at location m is the distance from the centroid of the thinned cloud to that location |
| HeuristicTraining.TotalSnoc | app/data/heuristic_training.py:305-315 | adding a location's errors and dividing by the location count is one step of the running total |
| HeuristicTraining.TotalCorrected | app/data/heuristic_training.py:302-315 | the intended mean over locations, 0 when there are none |
| HeuristicTraining.CorrectedIsMean | app/data/heuristic_training.py:302-315 | when every location's errors add up to e, the intended total is e |
| HeuristicTraining.OneLocationAgrees | app/data/heuristic_training.py:302-315 | with one location the loop's total and the intended mean agree |
| HeuristicTraining.TwoLocationsDisagree | app/data/heuristic_training.py:302-315 | with two locations whose errors each add up to 2, the loop gives 1.5 where the mean is 2 |
| HeuristicTraining.Clamp | app/data/heuristic_training.py:293-320 | the result lies in [0, 1e-4], equal to its input inside the bound and to the nearest end outside it |
| HeuristicTraining.ErrController | app/data/heuristic_training.py:292-322 | for level 2, the clamped total of every scan's error as the loop combines it (divided by the location count after each location); always in [0, 1e-4]; with one location this is the clamped mean |
| LegacyLocalisation.FirstThree | server/src/legacy_localisation/localisation.py:6-9 | the first three entries in insertion order, or all of them when there are fewer |
| LegacyLocalisation.Matched | server/src/legacy_localisation/localisation.py:49-61 | no more entries than were scanned |
| LegacyLocalisation.MatchedSound | server/src/legacy_localisation/localisation.py:49-61 | the chosen keys are unique and are exactly the scanned keys the reference holds, each carrying the reference's name and position and the scanned distance |
| LegacyLocalisation.MatchedOrder | server/src/legacy_localisation/localisation.py:49-54 | the chosen keys keep scan order |
| LegacyLocalisation.Localisation.constructor | server/src/legacy_localisation/localisation.py:15-26 | both dictionaries start empty and the reference is the processor's table |
| LegacyLocalisation.Localisation.LoadScan | server/src/legacy_localisation/localisation.py:30-40 | the scan's dictionary replaces `scanned_ap`; nothing else changes |
| LegacyLocalisation.Localisation.CompareApData | server/src/legacy_localisation/localisation.py:43-61 | `ap_dict` is reset and becomes the match of the scan against the reference; the rest is unchanged |
| LegacyLocalisation.Localisation.PerformTrilateration | server/src/legacy_localisation/localisation.py:65-73 | nothing is used when fewer than three access points were matched, otherwise exactly the first three |
| ScanLocalisation.QualityToRssi | src/localisation/localisation.py:30-42 | the RSSI lies in [-100, -50]: -100 for quality at most 0, -50 for quality at least 100 |
| ScanLocalisation.QualityToRssiMonotone | src/localisation/localisation.py:30-42 | a better quality never gives a weaker RSSI |
| ScanLocalisation.QualityToRssiInverse | src/localisation/localisation.py:31-42 | strictly inside the range, the quality is recovered as `2·(rssi + 100)` |
| ScanLocalisation.Classify | src/localisation/localisation.py:91-104 | a line is a "Cell " line, else an "SSID" line, else a "Quality" line, else none of them, checked in that order |
| ScanLocalisation.RunSnoc | src/localisation/localisation.py:86-117 | the state after one more line is one more turn of the loop |
| ScanLocalisation.StepCell | src/localisation/localisation.py:91-92 | a "Cell " line sets the current key to the text after the first ": " and nothing else |
| ScanLocalisation.StepSsid | src/localisation/localisation.py:95-96 | an "SSID" line sets the current SSID to the text after `:"` without its last character, and nothing else |
| ScanLocalisation.StepQuality | src/localisation/localisation.py:99-112 | a "Quality" line with '=' stores `(quality, rssi, distance, ssid)` under the current key |
| ScanLocalisation.StepOther | src/localisation/localisation.py:99-117 | a "Quality" line without '=' (the caught IndexError) and any other line change nothing |
| ScanLocalisation.ReadLine | src/localisation/localisation.py:88-117 | the loop body computes one step of the line machine |
| ScanLocalisation.RunTracksLatest | src/localisation/localisation.py:81-96 | the current key and SSID are those of the latest "Cell " and "SSID" lines, "ERR" before any |
| ScanLocalisation.RunLastLine | src/localisation/localisation.py:99-117 | a readable "Quality" line overwrites the entry under the latest key with its reading and the latest SSID; any other line leaves the dictionary alone |
| ScanLocalisation.WrittenAtSnoc | src/localisation/localisation.py:99-112 | a key is written within the scan plus one line exactly when it was written before or the last line is a reading under it |
| ScanLocalisation.StoredKeys | src/localisation/localisation.py:72-117 | a key is in the dictionary afterwards exactly when it was there before or was the latest key at some readable "Quality" line |
| ScanLocalisation.PutGetKeys | src/localisation/localisation.py:112 | assigning under a key adds that key and keeps all others |
| ScanLocalisation.Rows | src/localisation/localisation.py:24-25 | one row per entry, in dictionary order |
| ScanLocalisation.ReprLines | src/localisation/localisation.py:18-27 | the text after the header splits back into exactly one row per entry |
| ScanLocalisation.Localisation.constructor | src/localisation/localisation.py:7-16 | the dictionary and the raw output start empty |
| ScanLocalisation.Localisation.ProcessNetworkData | src/localisation/localisation.py:72-117 | the dictionary becomes the line machine run over the lines of the output, from "ERR"/"ERR" and the dictionary already held; the output is unchanged |
| ScanLocalisation.Localisation.Repr | src/localisation/localisation.py:18-27 | the header line followed by one newline-terminated row per entry |
| ApParser.EntryOf | src/localisation/AP_parser.py:54-69 | a feature is stored under its MAC with its name, longitude from `coord[0]` and latitude from `coord[1]` |
| ApParser.Entries | src/localisation/AP_parser.py:51-69 | one assignment per feature, in file order |
| ApParser.ApNodesLastWins | src/localisation/AP_parser.py:51-69 | the table holds a MAC exactly when it held it before or some feature carries it; the last feature with that MAC wins, and other MACs keep their records |
| ApParser.Rows | src/localisation/AP_parser.py:20-21 | one row per access point, in table order |
| ApParser.ReprLines | src/localisation/AP_parser.py:17-23 | the text after the header splits back into exactly one row per access point |
| ApParser.ApTable.constructor | src/localisation/AP_parser.py:10-14 | the path is kept and the table starts empty |
| ApParser.ApTable.ParseApNodes | src/localisation/AP_parser.py:30-69 | the table becomes the old table with every feature's record assigned in order; the path is unchanged |
| ApParser.ApTable.Repr | src/localisation/AP_parser.py:17-23 | the header line followed by one newline-terminated row per access point |
| TrilaterationSolver.Solve | src/localisation/trilateration.py:41 | a point Cramer's rule returns satisfies both linear equations |
| TrilaterationSolver.TrilaterateTriplet | src/localisation/trilateration.py:4-41 | a returned point satisfies the two equations obtained by subtracting consecutive circle equations; a zero denominator (ZeroDivisionError) gives no point |
| TrilaterationSolver.CramerSolves | src/localisation/trilateration.py:41 | the returned quotients solve the system whenever the determinant is non-zero |
| TrilaterationSolver.SolveFailsIff | src/localisation/trilateration.py:41 | Cramer's rule fails exactly when the determinant is zero |
| TrilaterationSolver.CrossProduct | src/localisation/trilateration.py:23-35 | the determinant is four times the cross product of `p2 - p1` and `p3 - p1` |
| TrilaterationSolver.DeterminantIsCross | src/localisation/trilateration.py:14-41 | the same, for the coefficients the function computes |
| TrilaterationSolver.DenominatorsVanishIffCollinear | src/localisation/trilateration.py:4-41 | the two denominators are opposite, and the function fails exactly when the three anchors are collinear |
| TrilaterationSolver.LinearFromCircles | src/localisation/trilateration.py:22-38 | subtracting the circle equations of two anchors gives the linear equation with the function's coefficients |
| TrilaterationSolver.EquationsHold | src/localisation/trilateration.py:22-38 | a point at the three distances satisfies both equations |
| TrilaterationSolver.CramerNumerators | src/localisation/trilateration.py:41 | for a solution of the system, each numerator is the coordinate times its denominator |
| TrilaterationSolver.QuotientCancels | src/localisation/trilateration.py:41 | multiplying by a non-zero denominator and dividing by it gives back the coordinate |
| TrilaterationSolver.SolveUnique | src/localisation/trilateration.py:41 | with a non-zero determinant, the solution Cramer's rule gives is the only one |
| TrilaterationSolver.RecoversExactPoint | src/localisation/trilateration.py:4-41 | a point at exactly the given distances from three non-collinear anchors is returned exactly |
| TrilaterationSolver.SameSystem | src/localisation/trilateration.py:14-38 | the coefficients depend only on the first two coordinates of the first three anchors and on the first three distances |
| TrilaterationSolver.ReadsOnlyTriplet | src/localisation/trilateration.py:14-20 | nothing beyond the first three anchors' first two coordinates and the first three distances affects the result |
| TrilaterationSolver.DistancesOnlyThroughDifferences | src/localisation/trilateration.py:29-38 | distances affect the result only through `r1² − r2²` and `r2² − r3²` |
| TrilaterationSolver.SampleRecovery | src/localisation/trilateration.py:4-41 | anchors (0,0), (10,0), (0,10) with distances 5, √65, √45 give (3, 4) |
| PolygonParser.Swapped | server/src/parser/polygon_parser.py:52 | one vertex per ring point, each `[lon, lat]` turned into `(lat, lon)`, in ring order |
| PolygonParser.MaxOf | server/src/parser/polygon_parser.py:58 | Python `max`: an element of the list no smaller than any other |
| PolygonParser.MinOf | server/src/parser/polygon_parser.py:59 | Python `min`: an element of the list no larger than any other |
| PolygonParser.Lats | server/src/parser/polygon_parser.py:55 | the latitudes of the vertices, in order |
| PolygonParser.Lons | server/src/parser/polygon_parser.py:56 | the longitudes of the vertices, in order |
| PolygonParser.BoundingBox | server/src/parser/polygon_parser.py:55-59 | `SW` and `NE` bound every vertex, and each of the four bounds is attained by some vertex |
| PolygonParser.LevelSpan | server/src/parser/polygon_parser.py:61-65 | defined only for a level whose ';' tokens all read as floats (`float` raises `ValueError`, which the `except AttributeError` does not catch); the span has at least one value |
| PolygonParser.LevelSpanOther | server/src/parser/polygon_parser.py:64-65 | a value without `split` (the AttributeError) spans itself alone |
| PolygonParser.LevelSpanTokens | server/src/parser/polygon_parser.py:62-63 | a string level spans one float per ';'-separated token, in token order, and the tokens rejoined are the level |
| PolygonParser.LevelSpanTwo | server/src/parser/polygon_parser.py:62-63 | "a;b" spans exactly a and b, not the levels between them |
| PolygonParser.FeatureLevels | server/src/parser/polygon_parser.py:49-65 | every feature spans at least one level |
| PolygonParser.FeaturePolygons | server/src/parser/polygon_parser.py:67-79 | one polygon per level of the span, all with the feature's id |
| PolygonParser.FeaturePolygonsShape | server/src/parser/polygon_parser.py:47-79 | each polygon carries the id, the properties, the swapped vertices in ring order inside their bounding box, the span's level in the `graph` field and the graph name in the `level` field (arguments passed positionally) |
| PolygonParser.Entries | server/src/parser/polygon_parser.py:68-71 | one geodesy entry per polygon, holding its id, level, shape and tags |
| PolygonParser.EntriesAppend | server/src/parser/polygon_parser.py:67-79 | appending polygons appends their entries |
| PolygonParser.NewPolygons | server/src/parser/polygon_parser.py:67-79 | the inner loop builds one polygon per level, identical but for the level, and the matching entries |
| PolygonParser.LoadOne | server/src/parser/polygon_parser.py:46-79 | loading a feature only appends, and every appended polygon's id is the number of polygons before it |
| PolygonParser.LoadAllSnoc | server/src/parser/polygon_parser.py:46 | loading one more feature is one more turn of the loop |
| PolygonParser.LoadAllKeeps | server/src/parser/polygon_parser.py:46-79 | loading keeps earlier polygons in place and adds at least one per feature |
| PolygonParser.LoadAllIds | server/src/parser/polygon_parser.py:46-79 | a polygon's id is the position of the first polygon of its feature and ids never decrease, so one feature's polygons share an id and different features do not |
| PolygonParser.AppendFeatureIds | server/src/parser/polygon_parser.py:47-73 | appending one feature's polygons under the current length keeps that numbering |
| PolygonParser.LookupOf | server/src/parser/polygon_parser.py:28-30 | the loop builds the lookup from ids to polygons |
| PolygonParser.LookupKeys | server/src/parser/polygon_parser.py:28-30 | the lookup holds exactly the polygons' ids |
| PolygonParser.LookupLastWins | server/src/parser/polygon_parser.py:28-30 | an id maps to the last polygon carrying it |
| PolygonParser.LastOfId | server/src/parser/polygon_parser.py:28-30 | every id has a last polygon |
| PolygonParser.LookupHas | server/src/parser/polygon_parser.py:28-37 | the id of every entry is in the lookup, so `lookup_polys[room["id"]]` does not raise |
| PolygonParser.FirstHit | server/src/parser/polygon_parser.py:32-39 | the first entry on the level whose polygon contains the point, or none when there is none |
| PolygonParser.FirstHitAt | server/src/parser/polygon_parser.py:32-37 | a hit after a run of misses is the one returned |
| PolygonParser.PolygonParser.constructor | server/src/parser/polygon_parser.py:16-21 | the name and features are kept, and both lists start empty |
| PolygonParser.PolygonParser.LoadPolygons | server/src/parser/polygon_parser.py:41-79 | the polygon list becomes every feature loaded in order onto the old one, with the entries kept aligned |
| PolygonParser.PolygonParser.LoadFeature | server/src/parser/polygon_parser.py:47-79 | one turn of the loop loads one feature and keeps the entries aligned |
| PolygonParser.PolygonParser.ContainingFound | server/src/parser/polygon_parser.py:23-39 | a polygon is found exactly when an entry on the level contains the point, and it is the last polygon with the id of the first such entry |
| PolygonParser.PolygonParser.InPoly | server/src/parser/polygon_parser.py:23-39 | `in_poly` returns what the lookup gives for the first containing entry on the level, or `None` |
| PolygonParser.PolygonParser.LocatedChangesPolyId | server/src/parser/polygon_parser.py:93-105 | only `poly_id` changes; it becomes the room's id when a room contains the node and stays as it was when none does |
| PolygonParser.PolygonParser.ParseRoom | server/src/parser/polygon_parser.py:93-105 | the node located by `in_poly` at `(lat, lon)` on its level |
| PolygonParser.PolygonParser.ParseRooms | server/src/parser/polygon_parser.py:81-91 | one located node per node, in the same order |
| ServerGraphParser.AddPointShape | server/src/parser/graph_parser.py:106-139 | a point adds a node exactly when it is not already recorded at an equal level, the new node taking the next id, the level, `(lat, lon)` swapped from the point, `poly_id` -1 and the properties; earlier nodes and edges are kept, and one edge from the previous node is added exactly when there is one |
| ServerGraphParser.AddPointValid | server/src/parser/graph_parser.py:106-139 | the graph stays consistent (ids are positions, recorded points name nodes standing there at the recorded level, edges join nodes), and the point's node stands at the point at an equal level |
| ServerGraphParser.AddPointSound | server/src/parser/graph_parser.py:106-139 | both of the above together |
| ServerGraphParser.GrowsTrans | server/src/parser/graph_parser.py:87-139 | only appending, step after step, is only appending |
| ServerGraphParser.AddPointGrows | server/src/parser/graph_parser.py:106-139 | a point's step keeps the graph consistent and only appends |
| ServerGraphParser.AddPointsGrows | server/src/parser/graph_parser.py:100-139 | a line keeps the graph consistent, only appends, and adds one edge per point after the first |
| ServerGraphParser.AddPointsFirstEdge | server/src/parser/graph_parser.py:134-139 | with a previous node, the line's first edge joins it to the node at the line's first point |
| ServerGraphParser.JoinsShift | server/src/parser/graph_parser.py:134-139 | an edge of the line's tail joins the corresponding consecutive points of the line |
| ServerGraphParser.AddPointsEdges | server/src/parser/graph_parser.py:100-139 | each edge a line adds joins the nodes standing at two consecutive points of the line, both at the line's level |
| ServerGraphParser.AddFeaturesSound | server/src/parser/graph_parser.py:77-139 | parsing every line feature, including ones without geometry, leaves a consistent graph that only grew |
| ServerGraphParser.RepeatedPointShared | server/src/parser/graph_parser.py:110-114 | a point met again at an equal level reuses its node and adds none |
| ServerGraphParser.FirstMin | server/src/parser/graph_parser.py:64-75 | the scan keeps a position within the list |
| ServerGraphParser.FirstMinIsFirstMin | server/src/parser/graph_parser.py:64-75 | with the strict `<`, the kept position holds a smallest value and every earlier value is strictly larger |
| ServerGraphParser.NearestIsNearest | server/src/parser/graph_parser.py:47-75 | there is a nearest node exactly when the list is not empty, and it is no further than any node and strictly nearer than every node before it |
| ServerGraphParser.NearestNode | server/src/parser/graph_parser.py:47-75 | `_nearest_node` returns that node's id, a single node unmeasured and `None` for no nodes |
| ServerGraphParser.NodesInMembers | server/src/parser/graph_parser.py:173 | the room's nodes are exactly the nodes whose `poly_id` is the room's |
| ServerGraphParser.PoiOfNearest | server/src/parser/graph_parser.py:156-188 | the point of interest keeps its id, raw level, coordinates and properties; it has a nearest node exactly when a room on its float level contains it and that room has nodes, and that node is the room's nearest |
| ServerGraphParser.PoisOfSnoc | server/src/parser/graph_parser.py:154-163 | each further point of interest is numbered by the count so far and appended |
| ServerGraphParser.Parser.constructor | server/src/parser/graph_parser.py:20-43 | the rooms are loaded, the lines parsed into nodes, edges and hashes from empty, every node placed in its room, and the points of interest parsed against those rooms and nodes |
| ServerGraphParser.Parser.ParseNodeFeature | server/src/parser/graph_parser.py:92-139 | the graph becomes the old graph with the feature's points added in order |
| ServerGraphParser.Parser.ParseNodes | server/src/parser/graph_parser.py:77-90 | the graph becomes the old graph with every line feature added in order |
| ServerGraphParser.Parser.ParsePoi | server/src/parser/graph_parser.py:156-188 | exactly one point of interest is appended, numbered by the count so far |
| ServerGraphParser.Parser.ParsePois | server/src/parser/graph_parser.py:141-154 | one point of interest per feature is appended, in order |
| Router.NamesDistinct | server/src/types/map_types.py:20-26 | the six `PathNode` field names other than `tags` differ from one another |
| Router.FieldNamesListed | server/src/types/map_types.py:20-26 | the field list holds each name of the field set exactly once |
| Router.DataclassToFlatDict | server/src/path_finding/router.py:57-72 | the loop's flat dict: fields stored encoded, a later key overwriting an earlier one, the tags merged last |
| Router.FlattenContents | server/src/path_finding/router.py:34-72 | a stored node has exactly one attribute per field and per tag; a tag is stored as is and wins over a field of the same name; any other field is stored encoded (list to marked JSON, `None` to "") |
| Router.EncodedUnrolled | server/src/path_finding/router.py:62-70 | the loop makes one update per field, in declaration order |
| Router.FlattenedFields | server/src/path_finding/router.py:62-70 | with no tag named like a field, each field is stored under its own name, numbers unchanged |
| Router.EncodeDistinct | server/src/path_finding/router.py:62-70 | with distinct names, the loop stores exactly the given names, each with its encoded value |
| Router.MarkerPayload | server/src/path_finding/router.py:55 | for a marked string, the text after the first ':' is the text after the marker |
| Router.SerialisedPayload | server/src/path_finding/router.py:44-55 | serialising then deserialising hands `json.loads` exactly the string `json.dumps` produced |
| Router.UnflattenedContents | server/src/path_finding/router.py:74-92 | the rebuilt record holds exactly the six fields, each decoded, and every other attribute as an undecoded tag |
| Router.KwargsUnrolled | server/src/path_finding/router.py:86-90 | the rebuilding loop makes one update per field, in order |
| Router.TagsRest | server/src/path_finding/router.py:82 | when every field is a key, the symmetric difference of fields and keys is the keys that are not fields |
| Router.KwargsPending | server/src/path_finding/router.py:80-90 | a field the loop has not reached still holds what was read from the dict |
| Router.KwargsStep | server/src/path_finding/router.py:86-90 | the field a turn reaches holds what was read, and a value that decodes to itself is left unchanged |
| Router.FlatDictToDataclass | server/src/path_finding/router.py:74-92 | the keyword arguments `PathNode(**kwargs)` receives: the decoded fields and the remaining attributes as tags |
| Router.DecodeEncode | server/src/path_finding/router.py:44-90 | a value that is neither "" nor marked, nor a list JSON changes, decodes back to itself |
| Router.RoundTripFields | server/src/path_finding/router.py:57-92 | storing a node and rebuilding it gives back its fields |
| Router.RoundTripTags | server/src/path_finding/router.py:57-92 | with no tag named like a field, storing and rebuilding gives back the tags |
| Router.RoundTrip | server/src/path_finding/router.py:57-92 | storing a node and rebuilding it gives back its fields and its tags |
| Router.EmptyGraphLost | server/src/path_finding/router.py:67-90 | the storage is lossy: an empty graph name comes back as `None` |
| Router.TagShadowsField | server/src/path_finding/router.py:63-82 | a tag named like a field replaces that field and is no longer a tag after rebuilding |
| Router.PolyKey | server/src/path_finding/router.py:115-116 | an integer `poly_id` finds itself as key; `None` and strings find none (the `KeyError`) |
| Router.HeuristicOnNodes | server/src/path_finding/router.py:94-124 | on stored path nodes, the distance between their positions plus 10000 exactly when both polygons are found, the first polygon has an "indoor" tag and one of the two is a room |
| Router.PenalisedEitherSymmetric | server/src/path_finding/router.py:114-122 | the intended penalty does not depend on the order of the nodes, includes the written one, and differs from it exactly when the first polygon has no "indoor" tag and the second is a room |
| Router.PenaltyDependsOnOrder | server/src/path_finding/router.py:114-122 | a node in an untagged polygon and a node in a room are penalised in one order and not in the other |
| Router.DirectionBands | server/src/path_finding/router.py:146-158 | [135, 225] is "Forward", [45, 135) "Left", (225, 315] "Right", anything else "Reverse" |
| Router.NeverRight | server/src/path_finding/router.py:140-158 | an angle from `acos` lies in [0, 180], so "Right" is never returned |
| Router.StraightOnIsReverse | server/src/path_finding/router.py:136-137 | as written, walking straight on through the middle node gives angle 0 and so "Reverse" |
| Router.StraightOnIsForward | server/src/path_finding/router.py:136-158 | with `v2 = o - m`, walking straight on gives "Forward" and turning back gives "Reverse" |
| Router.TurnAngle | server/src/path_finding/router.py:146-158 | the intended full-circle angle: the arc-cosine angle when `o - m` lies on the non-negative side of `n - m`, 360 less it on the other side |
| Router.QuarterTurns | server/src/path_finding/router.py:146-158 | with the full-circle angle a quarter turn one way is "Left", its mirror image "Right" and straight on "Forward" |
| Router.Processed | server/src/path_finding/router.py:176-184 | the loop pops at most a third of the list's length in triples |
| Router.ProcessedFront | server/src/path_finding/router.py:180-182 | the k-th triple popped is nodes 3k, 3k+1 and 3k+2 |
| Router.PopStep | server/src/path_finding/router.py:176-184 | one pass pops the next triple and leaves the rest of the path |
| Router.ProcessedCount | server/src/path_finding/router.py:176-184 | the loop pops as many triples as both the advancing iterator and the shrinking list allow |
| Router.AllTriplesCount | server/src/path_finding/router.py:168-184 | the intended reading covers `len(path) // 3` triples, each taken in place |
| Router.WrittenIsPrefix | server/src/path_finding/router.py:168-184 | the written loop covers a prefix of the intended triples, and all of them exactly when the iterator does not run out first |
| Router.FifteenNodesDropTriple | server/src/path_finding/router.py:176-184 | for a 15-node path the loop stops after four triples though five are complete |
| Router.ShortPathsComplete | server/src/path_finding/router.py:176-184 | every path of 3 to 14 nodes has all its triples covered |
| Router.AddEdgesKeeps | server/src/path_finding/router.py:41 | adding edges keeps every node's attributes and adds exactly the missing endpoints, with no attributes |
| Router.AddNodesDistinct | server/src/path_finding/router.py:40 | with distinct ids, each node's attributes are stored under its id and nothing else is |
| Router.GraphKeys | server/src/path_finding/router.py:31-41 | the graph's nodes are the path nodes' ids and the edges' endpoints |
| Router.GraphStoresNodes | server/src/path_finding/router.py:31-41 | with distinct ids, each path node is stored under its id as its flattened attributes |
| Router.GraphBareEndpoints | server/src/path_finding/router.py:41 | an edge endpoint that is not a path node has no attributes |
| Router.StoredNodeRebuilt | server/src/path_finding/router.py:31-92 | a stored path node is rebuilt with its own fields and tags |
| Router.DirectionTo | server/src/path_finding/router.py:146-158 | one of the four direction words |
| Router.Router.constructor | server/src/path_finding/router.py:14-41 | nodes and edges are kept, the polygon lookup gives the last polygon with each id, and the graph holds the flattened nodes and the edges |
| Router.Router.Heuristic | server/src/path_finding/router.py:94-124 | the distance between the two rebuilt positions, or that plus the 10000 room penalty |
| Router.Router.DirectionOf | server/src/path_finding/router.py:126-158 | the direction word for the angle at the middle node |
| Router.Router.GenerateInstructions | server/src/path_finding/router.py:160-186 | "Forwards" alone for fewer than three nodes; otherwise "Forward" then one direction per triple the loop pops, leaving the unpopped tail of the path |
| Router.Router.GetPathNodes | server/src/path_finding/router.py:202-222 | one rebuilt record per path node, in order |
| LegacyTypes.Vertices | src/path_finding/graph_parser.py:110-112 | one vertex per point of the ring |
| LegacyTypes.ReadVertices | src/path_finding/graph_parser.py:110-112 | the append loop builds the ring's vertices in ring order |
| LegacyGraphParser.FindAt | src/path_finding/graph_parser.py:56-59 | the first node standing at the point, or none exactly when no node stands there |
| LegacyGraphParser.FindAtExtended | src/path_finding/graph_parser.py:56-70 | a node found keeps being the one found after nodes are appended |
| LegacyGraphParser.AddPointSound | src/path_finding/graph_parser.py:53-76 | a point keeps ids at positions and points distinct, only appends, leaves a node at the point whose id is returned; a node is added exactly when none stood there, unnamed; an edge is added exactly when there is a previous node |
| LegacyGraphParser.AddLineUnnamed | src/path_finding/graph_parser.py:52-70 | the nodes a way appends are named `None`, with no number or type |
| LegacyGraphParser.AddWaysUnnamed | src/path_finding/graph_parser.py:48-70 | the nodes `parse_nodes` appends are named `None`, with no number or type |
| LegacyGraphParser.LineEdges | src/path_finding/graph_parser.py:71-76 | a way of n points gives n - 1 edges between its own points |
| LegacyGraphParser.AddLineNodes | src/path_finding/graph_parser.py:52-76 | a way keeps the graph valid, only appends, and leaves a node at every one of its points |
| LegacyGraphParser.AddLineEdges | src/path_finding/graph_parser.py:52-76 | a way adds the edge from the previous node when there is one, then one edge per pair of consecutive points |
| LegacyGraphParser.AddLineEdgesFresh | src/path_finding/graph_parser.py:50-76 | a way read with no previous node adds exactly the edges between its consecutive points |
| LegacyGraphParser.LineEdgesAt | src/path_finding/graph_parser.py:71-76 | edge j of a way joins the nodes of its points j and j + 1 |
| LegacyGraphParser.LineEdgesExtended | src/path_finding/graph_parser.py:56-70 | a way's edges do not change as later ways append nodes |
| LegacyGraphParser.WaysEdgesExtended | src/path_finding/graph_parser.py:48-76 | earlier ways' edges do not change as later ways append nodes |
| LegacyGraphParser.AddWaysNodes | src/path_finding/graph_parser.py:31-76 | `parse_nodes` keeps the graph valid, only appends, and leaves a node at every point of every way |
| LegacyGraphParser.WaysEdgesSnoc | src/path_finding/graph_parser.py:48-76 | the edges of all ways are those of all but the last followed by the last's |
| LegacyGraphParser.AddWaysEdges | src/path_finding/graph_parser.py:31-76 | `parse_nodes` adds exactly each way's edges in turn, since `prevId` is reset per way, so no edge joins two ways |
| LegacyGraphParser.SameIdSamePoint | src/path_finding/graph_parser.py:56-70 | two found points share a node id exactly when they are the same point |
| LegacyGraphParser.WaysShareIds | src/path_finding/graph_parser.py:31-76 | after `parse_nodes`, two points anywhere in the ways share a node id exactly when their coordinates are equal |
| LegacyGraphParser.TaggedOrder | src/path_finding/graph_parser.py:84-93 | the regions are the rooms tagged "room" in file order, then the access areas tagged "access" in file order |
| LegacyGraphParser.TagRegions | src/path_finding/graph_parser.py:84-93 | the two loops build that tagged list |
| LegacyGraphParser.Located | src/path_finding/graph_parser.py:97-126 | locating a node keeps its id and coordinates |
| LegacyGraphParser.LocatedByFirst | src/path_finding/graph_parser.py:99-126 | a node takes the name, number and type of the first region enclosing it, whatever follows |
| LegacyGraphParser.LocatedByNone | src/path_finding/graph_parser.py:99-126 | a node no region encloses is left unchanged |
| LegacyGraphParser.Parser.constructor | src/path_finding/graph_parser.py:17-19 | the shared lists start empty |
| LegacyGraphParser.Parser.Find | src/path_finding/graph_parser.py:56-59 | the search returns the first node standing at the point |
| LegacyGraphParser.Parser.ParsePoint | src/path_finding/graph_parser.py:53-76 | one point's step on the shared lists |
| LegacyGraphParser.Parser.ParseNodes | src/path_finding/graph_parser.py:31-76 | the lists become the old ones with every way added in order |
| LegacyGraphParser.Parser.ParseRooms | src/path_finding/graph_parser.py:78-127 | edges unchanged, and every node located by the tagged regions in place |
| LegacyGraphParser.Parser.Parse | src/path_finding/graph_parser.py:23-28 | constructing a parser runs `parse_nodes` then `parse_rooms` on the shared lists |
| LegacyParser.Flat | src/path_finding/parser.py:51-52 | the points of a way's lines, one line after another, are all readable |
| LegacyParser.NewNodesCons | src/path_finding/parser.py:55-60 | the new nodes are the first point's node followed by the rest, numbered on |
| LegacyParser.ChainEdgesCons | src/path_finding/parser.py:62-67 | a chain of k ids is its first edge followed by the chain from the next id |
| LegacyParser.AddPointsShape | src/path_finding/parser.py:51-67 | a way appends one node per point, numbered on from the count and named "", and the edge from the previous node when there is one, then `(i, i + 1)` for consecutive new nodes |
| LegacyParser.WayShape | src/path_finding/parser.py:47-67 | a way of k points adds k nodes, ids their positions, named "", and k - 1 edges `(i, i + 1)` between its own new nodes, none reaching an earlier way |
| LegacyParser.FeaturesShape | src/path_finding/parser.py:30-67 | `parse_nodes` keeps ids equal to positions and every edge of the form `(i, i + 1)` |
| LegacyParser.RingsNameSpec | src/path_finding/parser.py:83-98 | the rings of a room give the room's name exactly when one of them encloses the node, and leave the name otherwise |
| LegacyParser.LastRoomWins | src/path_finding/parser.py:79-98 | with no `break`, a node ends with the name of the last room in file order that encloses it |
| LegacyParser.NoRoomKeepsName | src/path_finding/parser.py:79-98 | a node no room encloses keeps its name |
| LegacyParser.NameNodes | src/path_finding/parser.py:79-98 | the room, ring and node loops rename every node after the rooms and change nothing else |
| LegacyParser.NameSoFarStep | src/path_finding/parser.py:90-98 | one more ring gives its room's name when it encloses the node, else the name so far |
| LegacyParser.NameSoFarDone | src/path_finding/parser.py:83-98 | once all rings of a room are tried, the name is the one after the rooms up to it |
| LegacyParser.Parser.constructor | src/path_finding/parser.py:16-19 | the shared lists start empty |
| LegacyParser.Parser.ParseNodes | src/path_finding/parser.py:30-67 | the lists become the old ones with every way's points added in order |
| LegacyParser.Parser.ParseRooms | src/path_finding/parser.py:69-98 | the nodes are renamed after the rooms in place, and the edges are untouched |
| LegacyParser.Parser.Parse | src/path_finding/parser.py:22-27 | constructing a parser runs `parse_nodes` then `parse_rooms` on the shared lists |
| PathFindingParser.WaysShape | Path_Finding/Parser.py:39-58 | from empty lists, node ids are positions and every edge is `(i, i + 1)` |
| PathFindingParser.Parser.constructor | Path_Finding/Parser.py:18-88 | fresh empty lists, filled with one node per point and the edges within each way, then renamed after the rooms |
| PathGraph.ReachMono | src/path_finding/graph.py:13-46 | allowing more hops reaches at least as many vertices |
| PathGraph.ReachCases | src/path_finding/graph.py:35-42 | a vertex reached in k hops is `start` or a neighbour of one reached in k - 1 |
| PathGraph.ClosedHoldsReach | src/path_finding/graph.py:31-46 | a set holding `start` and closed under the adjacency lists holds every reachable vertex |
| PathGraph.RouteReaches | src/path_finding/graph.py:57-68 | a printed route of m vertices reaches its last vertex in m - 1 hops |
| PathGraph.ShortestRoute | src/path_finding/graph.py:10-68 | a route whose hop count is the fewest that reach `end` is no longer than any other route |
| PathGraph.ExactAt | src/path_finding/graph.py:40 | every enqueued vertex's distance is the fewest hops that reach it |
| PathGraph.ProcessedGrows | src/path_finding/graph.py:42 | enqueueing one more vertex keeps the expanded vertices expanded |
| PathGraph.CompleteGrows | src/path_finding/graph.py:42 | enqueueing one more vertex keeps every nearer vertex among those expanded |
| PathGraph.VisitOne | src/path_finding/graph.py:38-39 | visiting an unvisited vertex leaves one fewer unvisited, so the search ends |
| PathGraph.TreeGrows | src/path_finding/graph.py:38-42 | enqueueing a neighbour of `u` with distance `distance[u] + 1` and previous `u` keeps the search tree: `start` first at 0 with no previous, every other vertex one hop after an earlier one |
| PathGraph.UntouchedGrows | src/path_finding/graph.py:22-42 | vertices not enqueued keep distance 10000 and previous -1 |
| PathGraph.OrderedGrows | src/path_finding/graph.py:31-42 | distances never decrease along the queue order |
| PathGraph.ExactGrows | src/path_finding/graph.py:40-42 | enqueueing a vertex at its fewest hops keeps all distances exact |
| PathGraph.ExactUpdate | src/path_finding/graph.py:40 | writing the distance of a vertex not enqueued leaves the others exact |
| PathGraph.NotReached | src/path_finding/graph.py:35-42 | a vertex none of whose predecessors is reached in k - 1 hops is not reached in k |
| PathGraph.FewestHops | src/path_finding/graph.py:38-41 | a neighbour first found from the vertex being expanded is reached in one hop more than it and in no fewer |
| PathGraph.Discover | src/path_finding/graph.py:38-42 | discovering a neighbour keeps the search invariant (tree, untouched vertices, order, exact distances, visited = enqueued) and uses up one unvisited vertex |
| PathGraph.LinkGrows | src/path_finding/graph.py:39-42 | marking a vertex visited as it is enqueued keeps visited and enqueued the same |
| PathGraph.NextLevelAt | src/path_finding/graph.py:31-42 | a vertex reachable in fewer hops than the next vertex of the queue is already expanded |
| PathGraph.NextLevel | src/path_finding/graph.py:31-42 | every such vertex is already expanded |
| PathGraph.CoveredNext | src/path_finding/graph.py:35-38 | a neighbour already visited extends the examined prefix of the list |
| PathGraph.CoveredSnoc | src/path_finding/graph.py:38-42 | enqueueing the next neighbour extends the examined prefix |
| PathGraph.DoneWith | src/path_finding/graph.py:32-42 | once all neighbours of the vertex taken from the queue are enqueued, it counts as expanded and the next vertex of the queue is the nearest left |
| PathGraph.Begin | src/path_finding/graph.py:15-29 | after the initialisation, with `start` alone enqueued at distance 0, the search invariant holds |
| PathGraph.EmptyQueue | src/path_finding/graph.py:31-46 | when the queue empties, every vertex reachable from `start` has been enqueued, so `end` is `start` or unreachable |
| GraphEdges.AddEdge | src/path_finding/graph.py:6-8 | `end` then `start` itself are appended to `adj[start]`, and no other list changes; the new lists are `EdgeAdded` of the old |
| GraphEdges.EdgeAdded | src/path_finding/graph.py:6-8 | as written, `add_edge` puts `end` and `start` in `adj[start]` and leaves every other list alone |
| GraphEdges.EdgeOneWay | src/path_finding/graph.py:5-8 | as written, an edge added between two bare vertices 0 and 1 leads from 0 to 1 but never back from 1 to 0 |
| GraphEdges.EdgeAddedBoth | src/path_finding/graph.py:5-8 | as intended, the edge between `start` and `end` is listed at both ends, and no other list changes |
| GraphEdges.EdgeAddedBothUndirected | src/path_finding/graph.py:5-8 | as intended, adding an edge keeps every edge listed at both of its ends |
| PathGraph.Visit | src/path_finding/graph.py:39-41 | the three writes: visited, `distance[u] + 1`, previous `u` |
| PathGraph.ScanNeighbours | src/path_finding/graph.py:32-45 | expanding a vertex keeps the search tree; it stops exactly when it enqueues `end`, whose distance is then the fewest hops; otherwise the invariant holds one vertex further on |
| PathGraph.BreadthFirstSearch | src/path_finding/graph.py:13-46 | True exactly when `end` differs from `start` and is reachable, and then `distance[end]` is the fewest hops; `previous` and `distance` hold the search tree, untouched vertices at -1 and 10000 |
| PathGraph.TracePath | src/path_finding/graph.py:57-68 | when `end` was enqueued, the walk back along `previous`, printed in reverse, is a route from `start` to `end` of `distance[end]` hops; otherwise it is `end` alone |
| PathGraph.PrintReversed | src/path_finding/graph.py:67-68 | the vertices printed are the path in reverse order |
| PathGraph.Position | src/path_finding/graph.py:61-63 | the index of an enqueued vertex, which the walk back decreases |
| PathGraph.PrintPath | src/path_finding/graph.py:50-68 | a route is printed exactly when `end` differs from `start` and is reachable; it runs from `start` to `end` in the fewest hops, the number printed; otherwise nothing but the message |
| PathGraph.PrintPathAlways | Path_Finding/Graph.py:43-61 | as above when found; otherwise the route is `end` alone and the number printed is 0 when `end` is `start` and 10000 otherwise |

## Left out

- Floating point: Python and JavaScript numbers are modelled as unbounded `int` and exact `real` throughout. This covers the trilateration arithmetic, the heuristic's distances, centroids and standard deviations, RSSI values and distances, and the client's levels. Rounding, overflow, NaN and infinities are not modelled.
- Text.PyFloat: only the decimal subset of Python `float(s)` is modelled: an optional sign, digits, and an optional fraction. Python also accepts exponents, `inf`, `nan` and `_` separators. Where a `requires` asks for a readable number (`ScanLocalisation.LineParses`, `ServerGraphParser.PoiReadable`, `PolygonParser.LevelParses`), those other spellings are excluded instead of read.
- Text.Strip: removes the characters of Python's `string.whitespace` only. Python's argument-less `strip` also removes the ASCII separators \x1c to \x1f and other Unicode whitespace.
- Text.JsParseInt: skips leading ASCII whitespace only, through `Text.StripLeft`. JavaScript's `parseInt` also skips other Unicode whitespace, such as the no-break space and U+2028.
- Uncaught exceptions are not modelled as failures. Each excluded input becomes a `requires`, and the model says nothing about what the program does with it (it stops):
  - `PolygonParser.Shaped` and `PolygonParser.LevelParses` exclude an empty first ring, a vertex with fewer than two coordinates, a missing "level" property, and a level string with a token `float` rejects. Such a level raises `ValueError` from `load_polygons`, and so from the `ServerGraphParser.Parser` constructor that calls it. `PolygonParser.Shaped` also leaves in a first ring of one or two vertices, for which shapely's `Polygon` (server/src/parser/polygon_parser.py:53) raises `ValueError`; the model loads such a ring like any other.
  - `ServerGraphParser.PointsReadable` and `ServerGraphParser.PoiReadable` exclude points with fewer than two coordinates, a missing level, and a point-of-interest level `float` rejects.
  - `ScanLocalisation.LineParses` excludes a "Cell" line without ": ", an "SSID" line without `:"`, and a non-numeric quality.
  - `ApParser.WellFormed`, `LegacyTypes.PointsReadable`, `LegacyParser.RoomsReadable` and `LegacyGraphParser.WaysReadable` exclude points with fewer than two coordinates.
  - `LegacyParser.RoomsReadable` also excludes a room without "room-name", which raises `KeyError` (src/path_finding/parser.py:81, Path_Finding/Parser.py:68).
  - `LegacyGraphParser.Scannable`, which `LegacyGraphParser.Parser.ParseRooms` and `LegacyGraphParser.Parser.Parse` require, excludes a region scanned for a node whose coordinate list is empty (`IndexError` at src/path_finding/graph_parser.py:107), and an enclosing region without "room-name" or "room-no" (`KeyError` at src/path_finding/graph_parser.py:117-118).
  - `HeuristicMatching` networks always carry a BSSID. A scanned network without one raises `KeyError` outside the `try` in `compare_networks` (app/data/heuristic_training.py:92).
  - `HeuristicTraining.ErrController` requires level 2 in the table of levels.
  - `HeuristicTraining.IterateAll` requires at least one solvable triple, since `get_stats` of an empty cloud raises.
  - `PathGraph.GraphOk` requires every neighbour to lie in `0 <= v < vertex`. Python would wrap a negative index round to the end of the list, and an index past the end would raise `IndexError`. For the same reason `PathGraph.BreadthFirstSearch`, `PathGraph.PrintPath` and `PathGraph.PrintPathAlways` require `0 <= start < vertex`, and `PathGraph.PrintPathAlways` also `0 <= end < vertex`, since it indexes `distance[end]` whether or not the search succeeds.
  - `LegacyGraphParser`, `LegacyParser` and `PathFindingParser` features always carry a geometry: their datatypes have no `None` for it. A feature whose "geometry" is `None` raises `TypeError` at `feature["geometry"]["coordinates"]` (src/path_finding/graph_parser.py:52, src/path_finding/parser.py:51).
  - `NearestNode.FindNearestNode` requires every way feature to carry a level (`feature.properties.level[0]`) and every candidate way on the user's level to have a first ring (`geometry.coordinates[0]`); the user's location is always a point with a level. JavaScript throws `TypeError` on each of the excluded inputs (app/lib/findNearestNode.js:5,11).
  - `Router.Rebuildable` and `Router.Turnable` exclude a stored node missing a field, and a zero-length vector in `__angle_to` (`ZeroDivisionError`).
- PathGraph.BreadthFirstSearch: requires `previous` and `distance` of length exactly `vertex`, as `print_path` creates them. The source also accepts longer lists and leaves their tails alone; that case is not modelled. The same holds for `PathGraph.ScanNeighbours`.
- PathGraph.PrintPath: a route of no vertices and a hop count of 0 stand for "No path could be found" being printed.
- The `Graph` class of Path_Finding/Graph.py has the same `add_edge` and `breath_first_search` as src/path_finding/graph.py, and the same `GraphEdges.AddEdge` and `PathGraph.BreadthFirstSearch` model both. Only its `print_path` differs, and that is `PathGraph.PrintPathAlways`.
- In-place mutation and aliasing become value copies:
  - ClientTrilateration.Common: the constructor writes `coordinates` into the caller's own network objects (app/components/Trilateration.js:29). The model stores updated copies, so the caller's `visibleNetworks` are not seen to change.
  - HeuristicMatching.Common: `compare_networks` assigns `coordinates` into the input network dicts and deletes their "SSID" (app/data/heuristic_training.py:103-104). The model returns updated copies. It also leaves out that a network without "SSID" keeps the coordinates written just before `del` raises, although it is not added.
  - PolygonParser.PolygonParser.ParseRoom: `parse_room` sets `poly_id` on the node object it is given and returns that object. The model returns an updated copy.
  - LegacyGraphParser.Parser.constructor and LegacyParser.Parser.constructor: `nodes`, `edges` and `pois` are class attributes, shared by every `Parser` in the process. A model object stands for that shared state and starts empty, which holds only for the first `Parser` created.
- ServerGraphParser.Parser.constructor: ends after `parse_pois`. The source's last statement, `self.edges += self.poly_parser.connect_stairways(self.nodes)` (server/src/parser/graph_parser.py:44), calls a method the polygon parser does not define, so the source raises `AttributeError` there. `connect_stairways` is not part of this model.
- HeuristicTraining.DoTrilaterate: reading `net['coordinates']` and computing `rssi_to_distance` (which can raise `OverflowError` in `math.pow`) happen outside the `try` (app/data/heuristic_training.py:215-216). The model folds every failure into the solver's `None`, which yields `[-1, -1]`, so it does not distinguish these uncaught errors from the solver's caught ones.
- Foreign libraries are parameters with no behaviour of their own: shapely's `contains` and `distance`, pygeodesy's `isenclosedBy`, the n-vector `trilaterate` of the notebook, `rssi_to_distance`, `math.acos`, `math.hypot` and `math.degrees` (the parameter `between`), `json.dumps`/`json.loads`, and Python's formatting of numbers in the `__repr__` methods.
- `find_path` in server/src/path_finding/router.py runs networkx's A* search; only the heuristic it is given (`Router.Router.Heuristic`) is modelled.
- pydantic validation and type coercion of `PathNode`, `PoI` and `Polygon` (server/src/types/map_types.py): only the record shapes are kept.
- ScanLocalisation.Repr: the RSSI column prints as whatever Python's formatting of the stored number gives. Whether that number is an int or a float (`quality / 2 - 100`, or a clamped int) is not distinguished.
- I/O and processes: `run_process` (the `iwlist` subprocess), `execute_scan`, `load_offline_data`, every JSON and sqlite file read, the notebook's top-level tables and `f_trilat` grid search, and the Redis database controllers. Scans, tables and features are passed in as values.
- Output only: `print` and logging calls, `print_lists`/`printLists`, the `checks` counter that src/path_finding/graph_parser.py:95-127 only prints, the prints of `print_path` (modelled as the values printed), matplotlib plots and `visualise_trilateration`.
- The `parse_pois` methods of src/path_finding/graph_parser.py and src/path_finding/parser.py: they are marked as broken in the source and can read an unbound `nearest`.
- Stub generators `create_room_paths`, `create_area_paths` and `create_hallway_paths` of the polygon parser: they have no effect.
- LegacyLocalisation.Localisation.PerformTrilateration: returns the selection handed to the solver. The solver lives in modules not part of this model.
- The legacy driver's getters (`get_ap_reference`, `get_scanned_ap`, `get_ap_dict`) and the AP table's `get_ap_nodes` just return a field.
- NearestNode.FindNearestNode: the search starts from JavaScript's `Number.MAX_SAFE_INTEGER`, as in the source, so a node further away than that is never chosen.
- Square roots: where the source compares `sqrt(x) < y`, the model compares squares (`HeuristicTraining.PassSquared`, `NearestNode.FindNearestNode`). Where a square root is computed, it is the parameter `sqrt`.

## Findings

| source | as written | input that shows it | evidently intended | confidence | as-written member | corrected member |
|---|---|---|---|---|---|---|
| app/data/heuristic_training.py:314-315 | `err_total = err_total / len(level_data.items())` sits inside the loop over locations, so the total is divided again after every location | two locations whose scan errors each add up to 2: the total is (2/2 + 2)/2 = 1.5 | the mean error over locations, 2 | not executed | HeuristicTraining.TwoLocationsDisagree | HeuristicTraining.CorrectedIsMean |
| server/src/path_finding/router.py:176-184 | `for _ in path` iterates over the list the body pops three nodes from, so the loop ends once the iterator's index reaches the shrinking length | a path of 15 nodes: four triples get a direction although five are complete | one direction per complete triple, `len(path) // 3` in all | not executed | Router.FifteenNodesDropTriple | Router.AllTriplesCount |
| server/src/path_finding/router.py:136-137 | `v1 = n - m` and `v2 = m - o`, so walking straight on makes an angle of 0 degrees | three equally spaced nodes on a line read as "Reverse" | `v2 = o - m`, so straight on is 180 degrees, inside the "Forward" band | not executed | Router.StraightOnIsReverse | Router.StraightOnIsForward |
| server/src/path_finding/router.py:114-122 | the `or` reads the first polygon's "indoor" tag first, so a missing tag raises `KeyError` before the second polygon is looked at | a node in a polygon with no "indoor" tag and a node in a room: penalised in one order, not in the other | the penalty applies when either node is in a room, whatever the order | not executed | Router.PenaltyDependsOnOrder | Router.PenalisedEitherSymmetric |
| server/src/path_finding/router.py:140-158 | the bands test an arc-cosine angle, which never exceeds 180 degrees, against 225 to 315 for "Right" | any turn: "Right" is never returned | a full-circle angle, measured on the side the path turns to | not executed | Router.NeverRight | Router.QuarterTurns |
| src/path_finding/graph.py:7-8 | `add_edge` appends `end` and then `start` itself to `adj[start]`, so the edge is listed at `start` only, together with a self-loop | two bare vertices and `add_edge(adj, 0, 1)`: vertex 0 cannot be reached from vertex 1 | an edge "between the start node and the end node" listed at both ends, `adj[end].append(start)` | not executed | GraphEdges.EdgeOneWay | GraphEdges.EdgeAddedBothUndirected |
