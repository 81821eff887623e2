# Gap-filling station-data synchroniser

A Dafny model of the bike-station data synchroniser in `data.py`. It has two parts.

**`update_and_save_station_data`** keeps an hourly cache file of docking-station readings up to date for a window `[START_DATE, END_DATE)`:
- it drops cached rows older than the window start;
- for each listed station it computes the hours of the window the cache lacks;
- for a station with a gap, it fetches from the earliest missing hour up to the window end;
- it parses each answer with **`create_dataframe_from_api_data`**;
- if at least one answer was parsed, it casts the entity ids to integers, concatenates old and new rows, sorts them by `(entityId, time_utc)` and rewrites the file.

Modelling choices:
- Times are whole hours (`int`).
- A cache row is an integer station id, an hour and a map from column name to cell. A cell is a number or NaN.
- The cache file is a `CacheFile` object whose `rows` field is `None` while the file does not exist.
- The remote fetch is an oracle `answer(i, request)` giving the outcome of call number `i`: it raised, it returned a falsy value, or it returned a body. Because it is indexed by call number, a station listed twice may get two different answers.
- The window bounds are parameters.
- The loop that collects tables is an imperative method proved against the specification functions `Plan`, `Outcomes` and `Tables`.

The properties of the routine are proved as lemmas in `SyncProperties`. Where the loop alone matters, they hold for any parser; elsewhere they use `Parse`.

The code never deduplicates. Old and new rows are concatenated and sorted, so an hour that is re-fetched while still in the cache appears twice in the written file (`SyncProperties.RefetchKeepsBothCopies`). The integer cast runs after the per-station `try`, so one parsed response with at least one row whose entity id has no `KielRegion:<digits>` makes the whole routine fail without writing (`SyncProperties.UnmatchedEntityFailsAll`). A response with a non-empty index whose attribute columns are all empty, or that has no attributes, fails the same way even when its entity id names a station: pandas grows the empty frame to the index with NaN entity ids, and NaN does not cast (`SyncProperties.EmptyColumnsFailAll`). A response that parses to an empty table still counts as new data, and the file is rewritten.

Files: `wrappers.dfy` (Option, Result), `frames.dfy` (rows, key order, sort), `parser.dfy` (`create_dataframe_from_api_data`), `sync.dfy` (`update_and_save_station_data`), `sync_lemmas.dfy` (properties).

## Model

| member | source | states |
|---|---|---|
| Frames.Insert | data.py:254 | inserting into a sorted sequence keeps it sorted, adds exactly that row to the multiset, and puts the new row or the old head first |
| Frames.SortRows | data.py:254 | the result is sorted by (entityId, time_utc) with repeated keys allowed, and is a permutation of the input |
| Parser.SearchFrom | data.py:148-149 | the `re.search` scan from position p returns only digits, no longer than what is left of the id; `SearchFromEmpty` and `SearchFromFound` give it its meaning |
| Parser.SearchFromEmpty | data.py:148-149 | searching from position p gives "" exactly when no place at or after p holds `KielRegion:` followed by a digit |
| Parser.SearchFromFound | data.py:148-149 | a non-empty search result is the maximal digit run after the leftmost match at or after p |
| Parser.EntityNumber | data.py:148-149 | the extracted number is "" iff the entity id has no `KielRegion:<digit>`; otherwise it is the whole digit run after the leftmost such occurrence |
| Parser.AttrNames | data.py:157 | the dict keys: each attribute name exactly once, and only names some attribute carries |
| Parser.AttrValues | data.py:157 | the dict has a key exactly for each name some attribute carries |
| Parser.AttrValuesLastWins | data.py:157 | a repeated name keeps the values (`values`, or [] when the key is absent) of its last attribute |
| Parser.FrameLength | data.py:160 | `pd.DataFrame` of the dict succeeds iff all columns have the same length, which is then its row count (0 without columns) |
| Parser.DataColumns | data.py:162-166 | the attribute columns are the names other than `entityId`/`time_utc`, distinct when the names are |
| Parser.NumberedRows | data.py:160-163 | columns as long as the index give one row per index entry: row i is (entity number, i-th hour, i-th value of each column) |
| Parser.NaNRows | data.py:160-163 | an empty frame grown to the index gives one row per index entry: row i is (NaN, i-th hour, NaN in every column) |
| Parser.Parse | data.py:135-169 | fails with the key error exactly when `index`, `entityId` or `attributes` is missing; a table it returns has one row per index entry |
| Parser.ParseShape | data.py:135-167 | fails with the key error iff `index`, `entityId` or `attributes` is missing; a table starts with columns `entityId`, `time_utc`, has one row per index entry with that entry's hour, and all rows share one entity id, either the extracted number or NaN |
| Parser.ParseSucceedsIff | data.py:135-167 | parsing succeeds iff the three keys are present, every attribute has `attrName`, and the columns are either all as long as the index or all empty |
| Parser.ParseNumbered | data.py:157-167 | with columns as long as the index, the table is row i = (entity number, i-th hour, i-th value of each column) |
| Parser.ParseRows | data.py:157-167 | with columns as long as the index, every row carries the extracted entity number and has cells exactly for the attribute columns |
| Parser.ParseRowValues | data.py:157-163 | with columns as long as the index, row i holds under each non-reserved name the i-th value of the last attribute of that name |
| Parser.ParseFillsNaN | data.py:160-163 | with all columns empty and a non-empty index, pandas grows the frame to the index: every row has NaN as entity id and in every cell |
| Parser.ParseColumns | data.py:166-167 | the columns are `entityId`, `time_utc`, then each attribute name other than those two, once each |
| Sync.Prune | data.py:209 | keeps exactly the cached rows with time >= start, each with its multiplicity; rows at or after the window end are kept |
| Sync.LoadCache | data.py:203-212 | a missing file gives an empty cache; an existing one gives exactly its rows at or after start, each with its multiplicity |
| Sync.HourRange | data.py:216 | the range is start, start+1, ..., end-1, so end - start hours, and empty when end <= start |
| Sync.StationTimes | data.py:223-225 | the hours of the cached rows of one station; `MissingHours` and `StationRequestSpec` state what the loop does with them |
| Sync.MissingHours | data.py:227 | a station's missing hours are the range hours its cached rows do not have |
| Sync.MissingHoursIncreasing | data.py:227-234 | the missing hours stay ascending, so `missing_dates[0]` is the earliest |
| Sync.StationRequest | data.py:233-237 | a station's fetch, if any, is for that station and runs up to the window end |
| Sync.StationRequestSpec | data.py:223-237 | no fetch iff the cache has every hour of the window for the station; otherwise the fetch is (station, earliest missing hour, end), and every earlier hour of the window is cached |
| Sync.Plan | data.py:220-237 | no more fetches than listed stations; every fetch runs up to the window end and starts at an hour inside the window |
| Sync.StationTable | data.py:236-241 | an answer gives a table iff it is a truthy body the parser accepts, and the table is the parsed one |
| Sync.Outcomes | data.py:237 | call i of the run is answered by the oracle's answer to call i |
| Sync.Tables | data.py:218-241 | the `dataframes` list; its meaning is stated by `TablesAppend` (concatenation), `FailedFetchIsolated` (failed answers add nothing), `TableCollected` (every parsed answer's table is collected) and `TablesFrom` (at most one table per answer, each from some answer) |
| Sync.NewRows | data.py:248 | `pd.concat` has as many rows as all the tables together |
| Sync.TotalRowsLast | data.py:248 | counting the tables' rows from the back gives the same total as from the front |
| Sync.CastEntityId | data.py:250 | `astype('int64')` of one entity id succeeds iff it is a non-empty digit string whose value fits in int64, and then gives that decimal value |
| Sync.CastRows | data.py:250 | the column cast succeeds iff every row's id casts; then each row keeps its hour and cells in order |
| Sync.CollectStationTables | data.py:218-244 | the loop makes exactly the fetches of `Plan` (they depend on the cache only) and collects exactly `Tables` of their answers |
| Frames.EntityIds | data.py:262 | the distinct station ids: each row's id is in the set, each member is some row's id, there are at most as many as rows, and at least one when there are rows |
| Sync.UpdateAndSaveStationData | data.py:172-267 | no table leaves the file unchanged; a failing cast leaves it unchanged; otherwise the file holds a sorted permutation of the pruned old rows plus the new rows, and the counts reported are the new rows and their distinct stations |
| SyncProperties.PlanAppend | data.py:220-237 | the fetches for a concatenated station list are the fetches for each part, in order |
| SyncProperties.RepeatedStationFetchedTwice | data.py:220-237 | a station listed twice in a row is fetched twice with the same request |
| SyncProperties.PlanMembers | data.py:220-237 | a request is made iff some listed station has that request |
| SyncProperties.NoFetchIffCovered | data.py:220-246 | no fetch happens iff every listed station has every hour of the window cached; then no table is collected |
| SyncProperties.TablesAppend | data.py:218-241 | the tables of a concatenation of answers are the tables of each part, in order |
| SyncProperties.FailedFetchIsolated | data.py:236-244 | an answer that raises, is falsy or does not parse adds no table and leaves the contributions before and after it unchanged |
| SyncProperties.TableCollected | data.py:238-241 | a table parsed from any answer is among the collected tables |
| SyncProperties.TablesFrom | data.py:218-241 | at most one table per answer, and every collected table is the table of some answer |
| SyncProperties.NewRowsContain | data.py:248 | every row of every collected table is among the concatenated new rows |
| SyncProperties.NewRowsFrom | data.py:248 | every concatenated new row is a row of one of the tables |
| SyncProperties.UnmatchedEntityFailsAll | data.py:148-149 | one parsed, non-empty answer whose entity id has no `KielRegion:<digits>` makes the cast of all new rows fail |
| SyncProperties.EmptyColumnsFailAll | data.py:160-163 | one answer with a non-empty index and only empty or absent attribute columns gives NaN entity ids, so the cast of all new rows (line 250) fails, whatever its entity id |
| SyncProperties.CanonicalEntityNumber | data.py:148-149 | an entity id `urn:ngsi-ld:BikeHireDockingStation:KielRegion:<digits>` gives back those digits |
| SyncProperties.RefetchPlan | data.py:227-237 | with hours 8 and 9 of station 7 cached and the window [6, 10), the one fetch asks for 6 to 10 |
| SyncProperties.RefetchParsed | data.py:157-167 | the scenario's answer parses into four rows of station "7", the third being hour 8 |
| SyncProperties.OneFetchRows | data.py:237-248 | a run of one fetch whose answer parses adds exactly that table's rows |
| SyncProperties.CastUniform | data.py:250 | rows sharing one valid digit string cast to that number row by row |
| SyncProperties.MergeKeepsBoth | data.py:252-256 | a written permutation of old plus new rows keeps an old row and a different new row at two distinct positions |
| SyncProperties.RefetchKeepsBothCopies | data.py:248-256 | in the re-fetch scenario, whatever is written holds hour 8 of station 7 twice: the merge never deduplicates |

## Left out

- `request_access_token` (data.py:14-62) is not modelled. It is an OAuth HTTP request plus a write to a dotenv file.
- `fetch_station_data` (data.py:65-112) is not modelled beyond the oracle `answer`. It builds a URL and makes an HTTP GET; its status check and JSON decoding show up only as the three outcomes.
- The module-level configuration (data.py:276-299) is not modelled: dotenv reading, the token request at import time, the station list and `datetime.now`. The window bounds and the station list are parameters.
- predictions.py is not part of this model. It holds a neural network, floating-point rescaling through an external scaler, and file and clock checks.
- CSV reading and writing are not modelled, so neither is the CSV round trip of cells. `pd.to_datetime` parsing and time zones are left out too: the cache is a sequence of rows, a write is an assignment, and times are whole hours.
- The `print` output, `reset_index`, and the column order of the written file are not modelled.
- Frames.SortRows does not state the order among rows with equal keys. `sort_values` does not promise it, and the code does not rely on it.
- Parser.AttrNames does not state that the names come in first-occurrence order, only that each appears once. Parser.ParseColumns is weaker in the same way.
- Parser.EntityNumber treats only ASCII `0`-`9` as digits. Python's `\d` also matches other Unicode decimal digits.
- Parser.Parse does not model a response whose keys hold values of the wrong JSON type (for example a non-list `attributes`): those raise inside the `try`. A present key is modelled with the right type.
- Sync.UpdateAndSaveStationData models one exception after the loop, the `astype('int64')` at data.py:250. Failures of `pd.concat`, `sort_values` or `to_csv` (disk, permissions) are not modelled.
- Sync.CollectStationTables compares station ids as integers. Any string-versus-integer mismatch between the configured ids and the CSV column is not modelled.
