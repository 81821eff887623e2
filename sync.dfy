/**
 * The gap-filling synchroniser `update_and_save_station_data` (data.py):
 * prune the cached rows, find each station's missing hours in the window,
 * fetch from the earliest missing hour to the end of the window, and write
 * the cache back sorted when at least one response was parsed.
 */
module Sync {
  import opened Wrappers
  import opened Frames
  import opened Parser

  /** One call of the remote fetch: station, `from_date` and `to_date`. */
  datatype Request = Request(station: StationId, fromHour: Hour, toHour: Hour)

  /**
   * What one fetch gives back: it raised, it returned a falsy value
   * (`None` on a non-200 status, or an empty body), or it returned a body.
   */
  datatype FetchOutcome = Raised | NoData | Data(body: Response)

  /**
   * What the routine reports: nothing fetched (the file is left alone), the
   * counts of new records and of their distinct stations after a write, or
   * the uncaught exception of the integer cast.
   */
  datatype SyncOutcome = NoNewData | Saved(newRecords: nat, uniqueStations: nat) | CastFailed

  /** The cache file on disk; `None` while the file does not exist. */
  class CacheFile {
    var rows: Option<seq<Row>>

    constructor (rows: Option<seq<Row>>)
      ensures this.rows == rows
    {
      this.rows := rows;
    }
  }

  /** The cached rows at or after `start`, each with its multiplicity, in file order. */
  function Prune(rows: seq<Row>, start: Hour): (r: seq<Row>)
    ensures forall x :: multiset(r)[x] == if x.time >= start then multiset(rows)[x] else 0
    ensures forall i :: 0 <= i < |r| ==> r[i].time >= start
  {
    if rows == [] then []
    else
      assert rows == [rows[0]] + rows[1..];
      (if rows[0].time >= start then [rows[0]] else []) + Prune(rows[1..], start)
  }

  /** Loading the cache: a missing file is an empty table, an existing one is pruned. */
  function LoadCache(file: Option<seq<Row>>, start: Hour): (r: seq<Row>)
    ensures file.None? ==> r == []
    ensures file.Some? ==> forall x :: x in r <==> x in file.value && x.time >= start
    ensures file.Some? ==> forall x :: multiset(r)[x] == if x.time >= start then multiset(file.value)[x] else 0
  {
    match file
    case None => []
    case Some(rows) =>
      var r := Prune(rows, start);
      assert forall x :: x in r <==> multiset(r)[x] > 0;
      r
  }

  /** `pd.date_range(START_DATE, END_DATE - 1h, freq='h')`: the hours of `[start, end)` ascending. */
  function HourRange(start: Hour, end: Hour): (r: seq<Hour>)
    ensures |r| == if start < end then end - start else 0
    ensures forall i :: 0 <= i < |r| ==> r[i] == start + i
    ensures forall h :: h in r <==> start <= h < end
    decreases end - start
  {
    if start >= end then [] else [start] + HourRange(start + 1, end)
  }

  /** The hours the cache holds for `station`. */
  function StationTimes(cached: seq<Row>, station: StationId): set<Hour> {
    set x | x in cached && x.entityId == station :: x.time
  }

  predicate Increasing(s: seq<Hour>) {
    forall i, j :: 0 <= i < j < |s| ==> s[i] < s[j]
  }

  /** `full_date_range[~full_date_range.isin(available_dates)]`, order kept. */
  function MissingHours(range: seq<Hour>, present: set<Hour>): (r: seq<Hour>)
    ensures forall h :: h in r <==> h in range && h !in present
  {
    if range == [] then []
    else
      var rest := MissingHours(range[1..], present);
      assert forall h :: h in range <==> h == range[0] || h in range[1..];
      if range[0] in present then rest else [range[0]] + rest
  }

  /** The missing hours come in the order of the range, so the first is the earliest. */
  lemma {:induction false} MissingHoursIncreasing(range: seq<Hour>, present: set<Hour>)
    requires Increasing(range)
    ensures Increasing(MissingHours(range, present))
  {
    if range != [] {
      var tail := range[1..];
      assert Increasing(tail);
      MissingHoursIncreasing(tail, present);
      var rest := MissingHours(tail, present);
      assert forall j :: 0 <= j < |rest| ==> rest[j] in tail;
      assert forall h :: h in tail ==> range[0] < h;
    }
  }

  /**
   * The fetch made for one station, if any: `missing_dates[0]` up to `end`.
   * Its properties are stated by `StationRequestSpec`.
   */
  function StationRequest(cached: seq<Row>, station: StationId, start: Hour, end: Hour): (r: Option<Request>)
    ensures r.Some? ==> r.value.station == station && r.value.toHour == end
  {
    var missing := MissingHours(HourRange(start, end), StationTimes(cached, station));
    if missing == [] then None else Some(Request(station, missing[0], end))
  }

  /**
   * A station gets no fetch exactly when the cache holds every hour of the
   * window for it; otherwise the fetch runs from its earliest missing hour
   * up to `end`, however few of the later hours are missing.
   */
  lemma StationRequestSpec(cached: seq<Row>, station: StationId, start: Hour, end: Hour)
    ensures var r := StationRequest(cached, station, start, end);
            && (r.None? <==> forall h :: start <= h < end ==> h in StationTimes(cached, station))
            && (r.Some? ==>
                  && r.value.station == station && r.value.toHour == end
                  && start <= r.value.fromHour < end
                  && r.value.fromHour !in StationTimes(cached, station)
                  && forall h :: start <= h < r.value.fromHour ==> h in StationTimes(cached, station))
  {
    var range := HourRange(start, end);
    var missing := MissingHours(range, StationTimes(cached, station));
    if missing != [] {
      MissingHoursIncreasing(range, StationTimes(cached, station));
      assert missing[0] in missing;
      assert forall h :: h in missing ==> missing[0] <= h;
    }
  }

  function OptionToSeq<T>(o: Option<T>): seq<T> {
    match o
    case None => []
    case Some(x) => [x]
  }

  /** The fetches the loop makes, in station order, a repeated station once per occurrence. */
  function Plan(cached: seq<Row>, stationIds: seq<StationId>, start: Hour, end: Hour): (r: seq<Request>)
    ensures |r| <= |stationIds|
    ensures forall i :: 0 <= i < |r| ==> r[i].toHour == end && start <= r[i].fromHour < end
  {
    if stationIds == [] then []
    else
      var n := |stationIds| - 1;
      StationRequestSpec(cached, stationIds[n], start, end);
      Plan(cached, stationIds[..n], start, end) + OptionToSeq(StationRequest(cached, stationIds[n], start, end))
  }

  /**
   * The table one fetch contributes inside the `try`: only a truthy body
   * that `parse` accepts. The synchroniser passes `Parse`; the properties of
   * the loop that do not depend on what the parser does are stated for any.
   */
  function StationTable(parse: Response -> Result<Table, ParseError>, outcome: FetchOutcome): (r: Option<Table>)
    ensures r.Some? <==> outcome.Data? && parse(outcome.body).Ok?
    ensures r.Some? ==> r.value == parse(outcome.body).value
  {
    match outcome
    case Raised => None
    case NoData => None
    case Data(body) =>
      match parse(body)
      case Ok(table) => Some(table)
      case Err(_) => None
  }

  /**
   * What the fetches answer, in call order: call `i` (counting from 0) of
   * the run is answered by `answer(i, requests[i])`.
   */
  function Outcomes(requests: seq<Request>, answer: (nat, Request) -> FetchOutcome): (r: seq<FetchOutcome>)
    ensures |r| == |requests|
    ensures forall i :: 0 <= i < |requests| ==> r[i] == answer(i, requests[i])
  {
    if requests == [] then []
    else
      var n := |requests| - 1;
      Outcomes(requests[..n], answer) + [answer(n, requests[n])]
  }

  /**
   * The list `dataframes` after the loop: the tables the answers give, in
   * call order, each answer contributing at most one.
   */
  function Tables(outcomes: seq<FetchOutcome>, parse: Response -> Result<Table, ParseError>): (r: seq<Table>)
  {
    if outcomes == [] then []
    else
      var n := |outcomes| - 1;
      Tables(outcomes[..n], parse) + OptionToSeq(StationTable(parse, outcomes[n]))
  }

  /** `pd.concat(dataframes)`: the rows of every table, table after table. */
  function NewRows(tables: seq<Table>): (r: seq<ParsedRow>)
    ensures |r| == TotalRows(tables)
  {
    if tables == [] then []
    else
      var n := |tables| - 1;
      TotalRowsLast(tables);
      NewRows(tables[..n]) + tables[n].rows
  }

  /** The number of rows of all the tables together, counted from the front. */
  function TotalRows(tables: seq<Table>): nat {
    if tables == [] then 0 else |tables[0].rows| + TotalRows(tables[1..])
  }

  /** Counting the rows from the back gives the same total. */
  lemma {:induction false} TotalRowsLast(tables: seq<Table>)
    requires tables != []
    ensures TotalRows(tables) == TotalRows(tables[..|tables| - 1]) + |tables[|tables| - 1].rows|
  {
    var n := |tables| - 1;
    if n > 0 {
      var tail := tables[1..];
      assert tail[..|tail| - 1] == tables[..n][1..];
      assert tail[|tail| - 1] == tables[n];
      TotalRowsLast(tail);
    }
  }

  const Int64Max: int := 0x7FFF_FFFF_FFFF_FFFF

  function DigitValue(c: char): nat
    requires IsDigit(c)
  {
    (c as int) - ('0' as int)
  }

  /** The integer a string of decimal digits denotes. */
  function DigitsValue(s: string): nat
    requires forall k :: 0 <= k < |s| ==> IsDigit(s[k])
  {
    if s == [] then 0 else 10 * DigitsValue(s[..|s| - 1]) + DigitValue(s[|s| - 1])
  }

  /** One cell of `astype('int64')`: NaN, "" or a value past the int64 range raises. */
  function CastEntityId(e: Option<string>): (r: Option<StationId>)
    ensures r.Some? <==> e.Some? && e.value != "" && (forall k :: 0 <= k < |e.value| ==> IsDigit(e.value[k]))
                         && DigitsValue(e.value) <= Int64Max
    ensures r.Some? ==> r.value == DigitsValue(e.value) && 0 <= r.value <= Int64Max
  {
    match e
    case None => None
    case Some(s) =>
      if s == [] || !(forall k :: 0 <= k < |s| ==> IsDigit(s[k])) then None
      else if DigitsValue(s) <= Int64Max then Some(DigitsValue(s))
      else None
  }

  /**
   * `new_data_temp['entityId'].astype('int64')`: fails as a whole when one
   * row cannot be cast; otherwise every row keeps its hour and values.
   */
  function CastRows(rows: seq<ParsedRow>): (r: Option<seq<Row>>)
    ensures r.Some? <==> forall i :: 0 <= i < |rows| ==> CastEntityId(rows[i].entityId).Some?
    ensures r.Some? ==> |r.value| == |rows|
                        && forall i :: 0 <= i < |rows| ==>
                             r.value[i] == Row(CastEntityId(rows[i].entityId).value, rows[i].time, rows[i].values)
  {
    if rows == [] then Some([])
    else
      var first := CastEntityId(rows[0].entityId);
      var rest := CastRows(rows[1..]);
      assert forall i :: 1 <= i < |rows| ==> rows[i] == rows[1..][i - 1];
      if first.None? || rest.None? then None
      else Some([Row(first.value, rows[0].time, rows[0].values)] + rest.value)
  }

  /**
   * The loop over `STATION_IDS`: the fetches it makes and the parsed tables
   * it collects. The cache is not changed inside the loop, so the fetches
   * depend on the cache alone, never on what earlier fetches returned.
   */
  method CollectStationTables(cached: seq<Row>, stationIds: seq<StationId>, start: Hour, end: Hour,
                              answer: (nat, Request) -> FetchOutcome)
    returns (tables: seq<Table>, requests: seq<Request>)
    ensures requests == Plan(cached, stationIds, start, end)
    ensures tables == Tables(Outcomes(requests, answer), Parse)
  {
    var range := HourRange(start, end);
    tables, requests := [], [];
    var i := 0;
    while i < |stationIds|
      invariant 0 <= i <= |stationIds|
      invariant requests == Plan(cached, stationIds[..i], start, end)
      invariant tables == Tables(Outcomes(requests, answer), Parse)
    {
      var station := stationIds[i];
      var missing := MissingHours(range, StationTimes(cached, station));
      ghost var planned := OptionToSeq(StationRequest(cached, station, start, end));
      assert Plan(cached, stationIds[..i + 1], start, end) == requests + planned by {
        PlanStep(cached, stationIds, i, start, end);
      }
      if missing != [] {
        var request := Request(station, missing[0], end);
        assert planned == [request];
        var outcome := answer(|requests|, request);
        assert Tables(Outcomes(requests + [request], answer), Parse)
               == tables + OptionToSeq(StationTable(Parse, outcome)) by {
          OutcomesStep(requests, request, answer);
          TablesStep(Outcomes(requests, answer), outcome, Parse);
        }
        match StationTable(Parse, outcome) {
          case Some(table) => tables := tables + [table];
          case None =>
        }
        requests := requests + [request];
      } else {
        assert planned == [];
      }
      i := i + 1;
    }
    assert stationIds[..i] == stationIds;
  }

  lemma PlanStep(cached: seq<Row>, stationIds: seq<StationId>, i: nat, start: Hour, end: Hour)
    requires i < |stationIds|
    ensures Plan(cached, stationIds[..i + 1], start, end)
            == Plan(cached, stationIds[..i], start, end)
               + OptionToSeq(StationRequest(cached, stationIds[i], start, end))
  {
    assert stationIds[..i + 1][..i] == stationIds[..i];
  }

  /** One more call appends its answer to the outcomes. */
  lemma OutcomesStep(requests: seq<Request>, request: Request, answer: (nat, Request) -> FetchOutcome)
    ensures Outcomes(requests + [request], answer) == Outcomes(requests, answer) + [answer(|requests|, request)]
  {
  }

  /** One more answer appends its table, if it gave one. */
  lemma TablesStep(outcomes: seq<FetchOutcome>, outcome: FetchOutcome, parse: Response -> Result<Table, ParseError>)
    ensures Tables(outcomes + [outcome], parse) == Tables(outcomes, parse) + OptionToSeq(StationTable(parse, outcome))
  {
    assert (outcomes + [outcome])[..|outcomes|] == outcomes;
  }

  /**
   * `update_and_save_station_data`. The file is rewritten only when at
   * least one station gave a parsed table, even an empty one, and only if
   * every new entity id casts to an integer; then it holds the pruned old
   * rows and the new rows, sorted, duplicates kept.
   */
  method UpdateAndSaveStationData(file: CacheFile, stationIds: seq<StationId>, start: Hour, end: Hour,
                                  answer: (nat, Request) -> FetchOutcome)
    returns (outcome: SyncOutcome, requests: seq<Request>)
    modifies file
    ensures requests == Plan(LoadCache(old(file.rows), start), stationIds, start, end)
    ensures var tables := Tables(Outcomes(requests, answer), Parse);
            var cast := CastRows(NewRows(tables));
            if tables == [] then outcome == NoNewData && file.rows == old(file.rows)
            else if cast.None? then outcome == CastFailed && file.rows == old(file.rows)
            else
              && outcome == Saved(|cast.value|, |EntityIds(cast.value)|)
              && file.rows.Some? && Sorted(file.rows.value)
              && multiset(file.rows.value) == multiset(LoadCache(old(file.rows), start) + cast.value)
  {
    var cached := LoadCache(file.rows, start);
    var tables;
    tables, requests := CollectStationTables(cached, stationIds, start, end, answer);
    if tables == [] {
      outcome := NoNewData;
      return;
    }
    var cast := CastRows(NewRows(tables));
    if cast.None? {
      outcome := CastFailed;
      return;
    }
    var newRows := cast.value;
    file.rows := Some(SortRows(cached + newRows));
    outcome := Saved(|newRows|, |EntityIds(newRows)|);
  }
}
