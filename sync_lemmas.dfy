/**
 * Properties of the synchroniser: which fetches it makes, how one station's
 * failure stays local, how one bad entity id fails the whole write, and that
 * a re-fetched hour is kept twice.
 */
module SyncProperties {
  import opened Wrappers
  import opened Frames
  import opened Parser
  import opened Sync

  /** Stations processed one after another: the fetches of a concatenation are concatenated. */
  lemma {:induction false} PlanAppend(cached: seq<Row>, a: seq<StationId>, b: seq<StationId>, start: Hour, end: Hour)
    ensures Plan(cached, a + b, start, end) == Plan(cached, a, start, end) + Plan(cached, b, start, end)
    decreases |b|
  {
    if b == [] {
      assert a + b == a;
    } else {
      var n := |b| - 1;
      assert (a + b)[..|a + b| - 1] == a + b[..n];
      PlanAppend(cached, a, b[..n], start, end);
    }
  }

  /** A station listed twice is fetched twice, with the same request, as the cache is not updated in between. */
  lemma RepeatedStationFetchedTwice(cached: seq<Row>, ids: seq<StationId>, x: StationId, start: Hour, end: Hour)
    requires StationRequest(cached, x, start, end).Some?
    ensures var r := StationRequest(cached, x, start, end).value;
            Plan(cached, ids + [x, x], start, end) == Plan(cached, ids, start, end) + [r, r]
  {
    var r := StationRequest(cached, x, start, end).value;
    PlanAppend(cached, ids, [x, x], start, end);
    assert [x, x][..1] == [x];
    assert [x][..0] == [];
    assert Plan(cached, [x], start, end) == [r];
    assert Plan(cached, [x, x], start, end) == [r, r];
  }

  /** Every fetch made is the request of some listed station, and every station that needs one gets it. */
  lemma {:induction false} PlanMembers(cached: seq<Row>, ids: seq<StationId>, start: Hour, end: Hour)
    ensures forall r :: r in Plan(cached, ids, start, end) <==>
              exists i :: 0 <= i < |ids| && StationRequest(cached, ids[i], start, end) == Some(r)
  {
    if ids != [] {
      var n := |ids| - 1;
      var init := ids[..n];
      PlanMembers(cached, init, start, end);
      var last := OptionToSeq(StationRequest(cached, ids[n], start, end));
      assert Plan(cached, ids, start, end) == Plan(cached, init, start, end) + last;
      forall r
        ensures r in Plan(cached, ids, start, end) <==>
                exists i :: 0 <= i < |ids| && StationRequest(cached, ids[i], start, end) == Some(r)
      {
        if r in Plan(cached, init, start, end) {
          var i :| 0 <= i < n && StationRequest(cached, init[i], start, end) == Some(r);
          assert init[i] == ids[i];
        }
        if exists i :: 0 <= i < |ids| && StationRequest(cached, ids[i], start, end) == Some(r) {
          var i :| 0 <= i < |ids| && StationRequest(cached, ids[i], start, end) == Some(r);
          if i < n {
            assert init[i] == ids[i];
          }
        }
      }
    }
  }

  /**
   * No fetch happens exactly when the cache already holds every hour of the
   * window for every listed station; then nothing is parsed and the file is
   * not rewritten.
   */
  lemma {:induction false} NoFetchIffCovered(cached: seq<Row>, ids: seq<StationId>, start: Hour, end: Hour,
                                             answer: (nat, Request) -> FetchOutcome, parse: Response -> Result<Table, ParseError>)
    ensures Plan(cached, ids, start, end) == [] <==>
              forall i, h :: 0 <= i < |ids| && start <= h < end ==> h in StationTimes(cached, ids[i])
    ensures Plan(cached, ids, start, end) == [] ==> Tables(Outcomes(Plan(cached, ids, start, end), answer), parse) == []
  {
    if ids != [] {
      var n := |ids| - 1;
      NoFetchIffCovered(cached, ids[..n], start, end, answer, parse);
      StationRequestSpec(cached, ids[n], start, end);
      assert forall i :: 0 <= i < n ==> ids[..n][i] == ids[i];
    }
  }

  /** The tables of a run of answers are those of its first part followed by those of its second. */
  lemma {:induction false} TablesAppend(a: seq<FetchOutcome>, b: seq<FetchOutcome>,
                                        parse: Response -> Result<Table, ParseError>)
    ensures Tables(a + b, parse) == Tables(a, parse) + Tables(b, parse)
    decreases |b|
  {
    if b == [] {
      assert a + b == a;
    } else {
      var n := |b| - 1;
      assert (a + b)[..|a + b| - 1] == a + b[..n];
      assert (a + b)[|a + b| - 1] == b[n];
      TablesAppend(a, b[..n], parse);
    }
  }

  /**
   * A fetch that raises, returns nothing or returns a body the parser
   * rejects contributes no table, and the calls before and after it
   * contribute exactly what they would without it.
   */
  lemma FailedFetchIsolated(before: seq<FetchOutcome>, outcome: FetchOutcome, after: seq<FetchOutcome>,
                            parse: Response -> Result<Table, ParseError>)
    requires StationTable(parse, outcome).None?
    ensures Tables(before + [outcome] + after, parse) == Tables(before, parse) + Tables(after, parse)
  {
    var pre := before + [outcome];
    TablesAppend(pre, after, parse);
    TablesStep(before, outcome, parse);
    var x := Tables(before, parse);
    assert OptionToSeq(StationTable(parse, outcome)) == [];
    assert x + [] == x;
    assert Tables(pre, parse) == x;
  }

  /** A table parsed from answer `i` is among the collected tables. */
  lemma {:induction false} TableCollected(outcomes: seq<FetchOutcome>, parse: Response -> Result<Table, ParseError>, i: nat)
    requires i < |outcomes|
    requires StationTable(parse, outcomes[i]).Some?
    ensures StationTable(parse, outcomes[i]).value in Tables(outcomes, parse)
  {
    var n := |outcomes| - 1;
    if i < n {
      assert outcomes[..n][i] == outcomes[i];
      TableCollected(outcomes[..n], parse, i);
    }
  }

  /**
   * Conversely, the collected tables are at most one per answer, and each
   * is the table some answer gave.
   */
  lemma {:induction false} TablesFrom(outcomes: seq<FetchOutcome>, parse: Response -> Result<Table, ParseError>)
    ensures |Tables(outcomes, parse)| <= |outcomes|
    ensures forall t :: t in Tables(outcomes, parse) ==>
              exists i :: 0 <= i < |outcomes| && StationTable(parse, outcomes[i]) == Some(t)
  {
    if outcomes != [] {
      var n := |outcomes| - 1;
      TablesFrom(outcomes[..n], parse);
      forall t | t in Tables(outcomes, parse)
        ensures exists i :: 0 <= i < |outcomes| && StationTable(parse, outcomes[i]) == Some(t)
      {
        if t in Tables(outcomes[..n], parse) {
          var i :| 0 <= i < n && StationTable(parse, outcomes[..n][i]) == Some(t);
          assert outcomes[..n][i] == outcomes[i];
        } else {
          assert StationTable(parse, outcomes[n]) == Some(t);
        }
      }
    }
  }

  /** Every row of every collected table is among the concatenated new rows. */
  lemma {:induction false} NewRowsContain(tables: seq<Table>, t: Table, k: nat)
    requires t in tables && k < |t.rows|
    ensures t.rows[k] in NewRows(tables)
  {
    var n := |tables| - 1;
    if tables[n] != t {
      NewRowsContain(tables[..n], t, k);
    }
  }

  /**
   * One parsed, non-empty response whose entity id has no `KielRegion:<digits>`
   * makes the integer cast after the loop fail for all stations together:
   * nothing is written.
   */
  lemma UnmatchedEntityFailsAll(outcomes: seq<FetchOutcome>, i: nat)
    requires i < |outcomes| && outcomes[i].Data?
    requires var body := outcomes[i].body;
             Parse(body).Ok? && |Parse(body).value.rows| > 0
             && forall q :: 0 <= q <= |body.entityId.value| ==> !MatchAt(body.entityId.value, q)
    ensures CastRows(NewRows(Tables(outcomes, Parse))).None?
  {
    var body := outcomes[i].body;
    ParseShape(body);
    var t := Parse(body).value;
    assert EntityNumber(body.entityId.value) == "";
    assert CastEntityId(t.rows[0].entityId).None?;
    TableCollected(outcomes, Parse, i);
    NewRowsContain(Tables(outcomes, Parse), t, 0);
  }

  /** Conversely, every concatenated new row is a row of one of the tables. */
  lemma {:induction false} NewRowsFrom(tables: seq<Table>)
    ensures forall x :: x in NewRows(tables) ==>
              exists j, k :: 0 <= j < |tables| && 0 <= k < |tables[j].rows| && tables[j].rows[k] == x
  {
    if tables != [] {
      var n := |tables| - 1;
      NewRowsFrom(tables[..n]);
      forall x | x in NewRows(tables)
        ensures exists j, k :: 0 <= j < |tables| && 0 <= k < |tables[j].rows| && tables[j].rows[k] == x
      {
        if x in NewRows(tables[..n]) {
          var j, k :| 0 <= j < n && 0 <= k < |tables[..n][j].rows| && tables[..n][j].rows[k] == x;
          assert tables[..n][j] == tables[j];
        } else {
          assert x in tables[n].rows;
          var k :| 0 <= k < |tables[n].rows| && tables[n].rows[k] == x;
        }
      }
    }
  }

  /**
   * The other road to the same failure: a parsed response with a non-empty
   * index whose attribute columns are all empty (or absent) is grown to the
   * index by pandas with NaN entity ids, so the cast fails for all stations
   * together even when the entity id names a station.
   */
  lemma EmptyColumnsFailAll(outcomes: seq<FetchOutcome>, i: nat)
    requires i < |outcomes| && outcomes[i].Data?
    requires var body := outcomes[i].body;
             Named(body) && ColumnsOfLength(body.attributes.value, 0) && |body.index.value| > 0
    ensures CastRows(NewRows(Tables(outcomes, Parse))).None?
  {
    var body := outcomes[i].body;
    ParseFillsNaN(body);
    var t := Parse(body).value;
    assert CastEntityId(t.rows[0].entityId).None?;
    TableCollected(outcomes, Parse, i);
    NewRowsContain(Tables(outcomes, Parse), t, 0);
  }

  const UrnPrefix: string := "urn:ngsi-ld:BikeHireDockingStation:"

  /** The entity id of the station the fetch URL names gives back that station's digits. */
  lemma CanonicalEntityNumber(digits: string)
    requires |digits| > 0 && forall k :: 0 <= k < |digits| ==> IsDigit(digits[k])
    ensures EntityNumber(UrnPrefix + Prefix + digits) == digits
  {
    var s := UrnPrefix + Prefix + digits;
    var p := |UrnPrefix|;
    assert s[p..p + |Prefix|] == Prefix;
    assert s[p + |Prefix|] == digits[0];
    assert MatchAt(s, p);
    assert 'K' !in UrnPrefix;
    forall q | 0 <= q < p
      ensures !MatchAt(s, q)
    {
      assert s[q] == UrnPrefix[q];
      assert q + |Prefix| < |s| ==> s[q..q + |Prefix|][0] == s[q];
    }
    var r := EntityNumber(s);
    var q :| 0 <= q < |s| && MatchAt(s, q) && (forall q' :: 0 <= q' < q ==> !MatchAt(s, q'))
             && MaximalDigitRun(s, q + |Prefix|, r);
    assert q == p;
    assert s[p + |Prefix|..] == digits;
  }

  /** The scenario of `RefetchKeepsBothCopies`: station 7 has hours 8 and 9 cached. */
  const RefetchCache: seq<Row> := [Row(7, 8, map[]), Row(7, 9, map[])]

  /** The answer to its one fetch: hours 6 to 9 of the entity, one attribute. */
  function RefetchBody(entityId: string): Response {
    Response(Some([6, 7, 8, 9]), Some(entityId),
             Some([Attribute(Some("availableBikeNumber"), Some([Num(1.0), Num(2.0), Num(3.0), Num(4.0)]))]))
  }

  /** With hour 6 missing from the window [6, 10), the one fetch asks from hour 6. */
  lemma RefetchPlan()
    ensures Plan(RefetchCache, [7], 6, 10) == [Request(7, 6, 10)]
  {
    assert 6 !in StationTimes(RefetchCache, 7);
    assert StationRequest(RefetchCache, 7, 6, 10) == Some(Request(7, 6, 10));
    assert [7][..0] == [];
  }

  /** The answer parses into four rows of station "7", the third of which is hour 8. */
  lemma RefetchParsed(entityId: string)
    requires EntityNumber(entityId) == "7"
    ensures Parse(RefetchBody(entityId)).Ok?
    ensures var rows := Parse(RefetchBody(entityId)).value.rows;
            |rows| == 4 && (forall k :: 0 <= k < |rows| ==> rows[k].entityId == Some("7"))
            && rows[2].time == 8 && "availableBikeNumber" in rows[2].values
  {
    var body := RefetchBody(entityId);
    var attrs := body.attributes.value;
    assert IsLastOfName(attrs, 0);
    assert ColumnsOfLength(attrs, 4);
    ParseShape(body);
    ParseRows(body);
    ParseColumns(body);
    assert "availableBikeNumber" in Parse(body).value.columns[2..];
  }

  /** A run of one fetch whose answer parses adds exactly the rows of that table. */
  lemma OneFetchRows(request: Request, answer: (nat, Request) -> FetchOutcome,
                     parse: Response -> Result<Table, ParseError>, body: Response)
    requires answer(0, request) == Data(body) && parse(body).Ok?
    ensures NewRows(Tables(Outcomes([request], answer), parse)) == parse(body).value.rows
  {
    var t := parse(body).value;
    assert Outcomes([request], answer) == [] + [Data(body)];
    TablesStep([], Data(body), parse);
    assert Tables([] + [Data(body)], parse) == [t];
    assert NewRows([t]) == [] + t.rows;
  }

  /** Rows that all carry the same valid digit string cast to that number, row by row. */
  lemma CastUniform(rows: seq<ParsedRow>, digits: string)
    requires digits != [] && (forall k :: 0 <= k < |digits| ==> IsDigit(digits[k])) && DigitsValue(digits) <= Int64Max
    requires forall i :: 0 <= i < |rows| ==> rows[i].entityId == Some(digits)
    ensures CastRows(rows).Some?
    ensures forall i :: 0 <= i < |rows| ==> CastRows(rows).value[i] == Row(DigitsValue(digits), rows[i].time, rows[i].values)
  {
  }

  /**
   * The merge keeps an old row and a different new row both: any sequence
   * holding exactly the rows of `cached + newRows` holds the two at distinct
   * positions.
   */
  lemma MergeKeepsBoth(cached: seq<Row>, newRows: seq<Row>, written: seq<Row>, x: Row, y: Row)
    requires x in cached && y in newRows && x != y
    requires multiset(written) == multiset(cached + newRows)
    ensures exists i, j :: 0 <= i < j < |written|
                           && ((written[i] == x && written[j] == y) || (written[i] == y && written[j] == x))
  {
    assert x in multiset(cached + newRows) && y in multiset(cached + newRows);
    var i :| 0 <= i < |written| && written[i] == x;
    var j :| 0 <= j < |written| && written[j] == y;
    if i < j {
      assert written[i] == x && written[j] == y;
    } else {
      assert written[j] == y && written[i] == x;
    }
  }

  /**
   * The cache holds hours 8 and 9 of station 7 and the window is [6, 10): the
   * one fetch asks from hour 6, the answer (for any entity id naming
   * station 7, such as the one the fetch URL names) covers 6 to 9, and whatever
   * sorted permutation of the merge `UpdateAndSaveStationData` writes holds
   * hour 8 of station 7 twice. Old and new rows are concatenated, never
   * deduplicated.
   */
  lemma RefetchKeepsBothCopies(answer: (nat, Request) -> FetchOutcome, entityId: string, written: seq<Row>)
    requires EntityNumber(entityId) == "7" && answer(0, Request(7, 6, 10)) == Data(RefetchBody(entityId))
    requires var tables := Tables(Outcomes(Plan(RefetchCache, [7], 6, 10), answer), Parse);
             CastRows(NewRows(tables)).Some?
             && multiset(written) == multiset(LoadCache(Some(RefetchCache), 6) + CastRows(NewRows(tables)).value)
    ensures exists i, j :: 0 <= i < j < |written| && written[i].entityId == written[j].entityId == 7
                           && written[i].time == written[j].time == 8
  {
    RefetchPlan();
    RefetchParsed(entityId);
    var rows := Parse(RefetchBody(entityId)).value.rows;
    OneFetchRows(Request(7, 6, 10), answer, Parse, RefetchBody(entityId));
    assert DigitsValue("7") == 7;
    CastUniform(rows, "7");
    var newRows := CastRows(rows).value;
    var k := 2;
    assert newRows[k].entityId == 7 && newRows[k].time == 8 && "availableBikeNumber" in newRows[k].values;
    var old8 := Row(7, 8, map[]);
    assert old8 in LoadCache(Some(RefetchCache), 6);
    assert newRows[k] in newRows;
    MergeKeepsBoth(LoadCache(Some(RefetchCache), 6), newRows, written, old8, newRows[k]);
  }
}
