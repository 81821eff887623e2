/**
 * The response parser `create_dataframe_from_api_data` (data.py): it checks
 * the three required keys, extracts the station number from the entity id
 * and turns the attribute lists into table columns the way pandas does.
 */
module Parser {
  import opened Wrappers
  import opened Frames

  /** One element of the response's `attributes` list; either key may be absent. */
  datatype Attribute = Attribute(attrName: Option<string>, values: Option<seq<Cell>>)

  /**
   * The decoded JSON body of a time-series response. `None` is a key the
   * body does not have.
   */
  datatype Response = Response(
    index: Option<seq<Hour>>,
    entityId: Option<string>,
    attributes: Option<seq<Attribute>>)

  /**
   * The exceptions the parser raises: a required key is missing (ValueError),
   * an attribute has no `attrName` (KeyError), or the columns and the index
   * do not have compatible lengths (pandas' ValueError).
   */
  datatype ParseError = MissingKey | MissingAttrName | LengthMismatch

  const Prefix: string := "KielRegion:"

  predicate IsDigit(c: char) {
    '0' <= c <= '9'
  }

  /** The pattern `KielRegion:(\d+)` can start at position `p` of `s`. */
  predicate MatchAt(s: string, p: int) {
    0 <= p && p + |Prefix| < |s| && s[p..p + |Prefix|] == Prefix && IsDigit(s[p + |Prefix|])
  }

  /** `r` is the longest run of digits of `s` that starts at `p`, and is not empty. */
  predicate MaximalDigitRun(s: string, p: int, r: string) {
    0 <= p && p + |r| <= |s| && s[p..p + |r|] == r && |r| > 0
    && (forall k :: 0 <= k < |r| ==> IsDigit(r[k]))
    && (p + |r| == |s| || !IsDigit(s[p + |r|]))
  }

  /** The digits of `s` from `p` up to the first non-digit. */
  function DigitRun(s: string, p: nat): (r: string)
    requires p <= |s|
    ensures p + |r| <= |s| && s[p..p + |r|] == r
    ensures forall k :: 0 <= k < |r| ==> IsDigit(r[k])
    ensures p + |r| == |s| || !IsDigit(s[p + |r|])
    decreases |s| - p
  {
    if p < |s| && IsDigit(s[p]) then [s[p]] + DigitRun(s, p + 1) else []
  }

  /** `re.search` for the pattern from position `p` on, returning group 1 or "". */
  function SearchFrom(s: string, p: nat): (r: string)
    requires p <= |s|
    ensures p + |r| <= |s|
    ensures forall k :: 0 <= k < |r| ==> IsDigit(r[k])
    decreases |s| - p
  {
    if p + |Prefix| >= |s| then ""
    else if MatchAt(s, p) then DigitRun(s, p + |Prefix|)
    else SearchFrom(s, p + 1)
  }

  lemma {:induction false} SearchFromEmpty(s: string, p: nat)
    requires p <= |s|
    ensures SearchFrom(s, p) == "" <==> forall q :: p <= q <= |s| ==> !MatchAt(s, q)
    decreases |s| - p
  {
    if p + |Prefix| >= |s| {
    } else if MatchAt(s, p) {
      assert DigitRun(s, p + |Prefix|)[0] == s[p + |Prefix|];
    } else {
      SearchFromEmpty(s, p + 1);
    }
  }

  lemma {:induction false} SearchFromFound(s: string, p: nat)
    requires p <= |s|
    ensures SearchFrom(s, p) != "" ==>
              exists q :: p <= q < |s| && MatchAt(s, q)
                     && (forall q' :: p <= q' < q ==> !MatchAt(s, q'))
                     && MaximalDigitRun(s, q + |Prefix|, SearchFrom(s, p))
    decreases |s| - p
  {
    if p + |Prefix| >= |s| {
    } else if MatchAt(s, p) {
      var r := DigitRun(s, p + |Prefix|);
      assert r[0] == s[p + |Prefix|];
      assert MaximalDigitRun(s, p + |Prefix|, r);
      assert SearchFrom(s, p) == r;
    } else {
      SearchFromFound(s, p + 1);
      if SearchFrom(s, p) != "" {
        var q :| p + 1 <= q < |s| && MatchAt(s, q)
                 && (forall q' :: p + 1 <= q' < q ==> !MatchAt(s, q'))
                 && MaximalDigitRun(s, q + |Prefix|, SearchFrom(s, p + 1));
        assert forall q' :: p <= q' < q ==> !MatchAt(s, q');
      }
    }
  }

  /**
   * The station number written after the leftmost `KielRegion:` that is
   * followed by a digit: all the digits that follow it, or "" when the
   * entity id has no such occurrence.
   */
  function EntityNumber(entityId: string): (r: string)
    ensures r == "" <==> forall q :: 0 <= q <= |entityId| ==> !MatchAt(entityId, q)
    ensures r != "" ==>
              exists q :: 0 <= q < |entityId| && MatchAt(entityId, q)
                       && (forall q' :: 0 <= q' < q ==> !MatchAt(entityId, q'))
                       && MaximalDigitRun(entityId, q + |Prefix|, r)
  {
    SearchFromEmpty(entityId, 0);
    SearchFromFound(entityId, 0);
    SearchFrom(entityId, 0)
  }

  predicate AllNamed(attrs: seq<Attribute>) {
    forall i :: 0 <= i < |attrs| ==> attrs[i].attrName.Some?
  }

  /** `attr.get('values', [])`. */
  function ValuesOf(a: Attribute): seq<Cell> {
    match a.values
    case None => []
    case Some(v) => v
  }

  /** Attribute `i` is the last one in `attrs` that carries its name. */
  predicate IsLastOfName(attrs: seq<Attribute>, i: int) {
    0 <= i < |attrs| && forall j :: i < j < |attrs| ==> attrs[j].attrName != attrs[i].attrName
  }

  /**
   * The keys of the dict comprehension `{attr['attrName']: ...}`: every name
   * once, in the order of its first occurrence.
   */
  function AttrNames(attrs: seq<Attribute>): (names: seq<string>)
    requires AllNamed(attrs)
    ensures forall i, j :: 0 <= i < j < |names| ==> names[i] != names[j]
    ensures forall nm :: nm in names <==> exists i :: 0 <= i < |attrs| && attrs[i].attrName == Some(nm)
  {
    if attrs == [] then []
    else
      var init := AttrNames(attrs[..|attrs| - 1]);
      var nm := attrs[|attrs| - 1].attrName.value;
      if nm in init then init else init + [nm]
  }

  /** The values of the dict comprehension `{attr['attrName']: attr.get('values', [])}`. */
  function AttrValues(attrs: seq<Attribute>): (m: map<string, seq<Cell>>)
    requires AllNamed(attrs)
    ensures forall nm :: nm in m <==> exists i :: 0 <= i < |attrs| && attrs[i].attrName == Some(nm)
  {
    if attrs == [] then map[]
    else
      var init := attrs[..|attrs| - 1];
      var last := attrs[|attrs| - 1];
      assert forall i :: 0 <= i < |attrs| - 1 ==> attrs[i] == init[i];
      AttrValues(init)[last.attrName.value := ValuesOf(last)]
  }

  /** A repeated attribute name keeps the values of its last attribute. */
  lemma {:induction false} AttrValuesLastWins(attrs: seq<Attribute>, i: int)
    requires AllNamed(attrs) && IsLastOfName(attrs, i)
    ensures AttrValues(attrs)[attrs[i].attrName.value] == ValuesOf(attrs[i])
  {
    var n := |attrs| - 1;
    var init := attrs[..n];
    if i < n {
      assert attrs[n].attrName != attrs[i].attrName;
      assert forall j :: i < j < n ==> init[j] == attrs[j];
      AttrValuesLastWins(init, i);
    }
  }

  /**
   * The number of rows `pd.DataFrame(attribute_data)` has: the common length
   * of the columns (0 without columns), or an error when two differ.
   */
  function FrameLength(names: seq<string>, m: map<string, seq<Cell>>): (r: Result<nat, ParseError>)
    requires forall nm :: nm in names ==> nm in m
    ensures r.Ok? <==> forall a, b :: a in names && b in names ==> |m[a]| == |m[b]|
    ensures r.Ok? ==> forall nm :: nm in names ==> |m[nm]| == r.value
    ensures r.Ok? && names == [] ==> r.value == 0
  {
    if names == [] then Ok(0)
    else
      var k := |m[names[0]]|;
      if forall nm :: nm in names ==> |m[nm]| == k then Ok(k) else Err(LengthMismatch)
  }

  /** The attribute columns of the result: the added `entityId` and `time_utc` replace any attribute of that name. */
  function DataColumns(names: seq<string>): (cols: seq<string>)
    ensures forall nm :: nm in cols <==> nm in names && nm != "entityId" && nm != "time_utc"
    ensures (forall i, j :: 0 <= i < j < |names| ==> names[i] != names[j]) ==>
              forall i, j :: 0 <= i < j < |cols| ==> cols[i] != cols[j]
  {
    if names == [] then []
    else
      var rest := DataColumns(names[1..]);
      assert forall nm :: nm in names <==> nm == names[0] || nm in names[1..];
      assert (forall i, j :: 0 <= i < j < |names| ==> names[i] != names[j]) ==> names[0] !in names[1..];
      if names[0] == "entityId" || names[0] == "time_utc" then rest else [names[0]] + rest
  }

  /** The cells of row `i`: each column holds the `i`-th value of its list. */
  function RowCells(cols: seq<string>, m: map<string, seq<Cell>>, i: nat): (cells: map<string, Cell>)
    requires forall nm :: nm in cols ==> nm in m && i < |m[nm]|
    ensures forall nm :: nm in cells <==> nm in cols
    ensures forall nm :: nm in cols ==> cells[nm] == m[nm][i]
  {
    if cols == [] then map[]
    else RowCells(cols[1..], m, i)[cols[0] := m[cols[0]][i]]
  }

  /** A row's cells after pandas grows an empty frame: NaN in every column. */
  function NaNCells(cols: seq<string>): (cells: map<string, Cell>)
    ensures forall nm :: nm in cells <==> nm in cols
    ensures forall nm :: nm in cells ==> cells[nm] == Missing
  {
    if cols == [] then map[]
    else NaNCells(cols[1..])[cols[0] := Missing]
  }

  /** The first `k` rows of a frame whose columns are as long as the index. */
  function NumberedRows(number: string, index: seq<Hour>, cols: seq<string>, m: map<string, seq<Cell>>, k: nat)
    : (rows: seq<ParsedRow>)
    requires k <= |index|
    requires forall nm :: nm in cols ==> nm in m && k <= |m[nm]|
    ensures |rows| == k
    ensures forall i :: 0 <= i < k ==> rows[i] == ParsedRow(Some(number), index[i], RowCells(cols, m, i))
  {
    if k == 0 then []
    else NumberedRows(number, index, cols, m, k - 1) + [ParsedRow(Some(number), index[k - 1], RowCells(cols, m, k - 1))]
  }

  /** The first `k` rows of an empty frame grown to the index. */
  function NaNRows(index: seq<Hour>, cols: seq<string>, k: nat): (rows: seq<ParsedRow>)
    requires k <= |index|
    ensures |rows| == k
    ensures forall i :: 0 <= i < k ==> rows[i] == ParsedRow(None, index[i], NaNCells(cols))
  {
    if k == 0 then []
    else NaNRows(index, cols, k - 1) + [ParsedRow(None, index[k - 1], NaNCells(cols))]
  }

  /**
   * `create_dataframe_from_api_data`. With `k` rows in the attribute frame
   * and `n` index entries: `k == n` gives `n` rows carrying the entity number;
   * `k == 0 < n` is pandas growing an empty frame to the index, which fills
   * every other column, the entity id included, with NaN; any other `k`
   * raises.
   */
  function Parse(data: Response): (r: Result<Table, ParseError>)
    ensures r == Err(MissingKey) <==> data.index.None? || data.entityId.None? || data.attributes.None?
    ensures r.Ok? ==> |r.value.rows| == |data.index.value|
  {
    if data.index.None? || data.entityId.None? || data.attributes.None? then Err(MissingKey)
    else
      var index := data.index.value;
      var attrs := data.attributes.value;
      var number := EntityNumber(data.entityId.value);
      if !AllNamed(attrs) then Err(MissingAttrName)
      else
        var names := AttrNames(attrs);
        var m := AttrValues(attrs);
        var cols := DataColumns(names);
        var header := ["entityId", "time_utc"] + cols;
        match FrameLength(names, m)
        case Err(e) => Err(e)
        case Ok(k) =>
          if k == |index| then Ok(Table(header, NumberedRows(number, index, cols, m, k)))
          else if k == 0 then Ok(Table(header, NaNRows(index, cols, |index|)))
          else Err(LengthMismatch)
  }

  /**
   * The parser fails with the key error exactly when a required key is
   * missing. A table it returns has `entityId` and `time_utc` as its first
   * columns, one row per index entry carrying that entry's hour, and the
   * same entity id in every row: the extracted number, or NaN.
   */
  lemma ParseShape(data: Response)
    ensures Parse(data) == Err(MissingKey) <==> data.index.None? || data.entityId.None? || data.attributes.None?
    ensures Parse(data).Ok? ==> |Parse(data).value.columns| >= 2 && Parse(data).value.columns[..2] == ["entityId", "time_utc"]
    ensures Parse(data).Ok? ==>
              |Parse(data).value.rows| == |data.index.value|
              && forall i :: 0 <= i < |Parse(data).value.rows| ==> Parse(data).value.rows[i].time == data.index.value[i]
    ensures Parse(data).Ok? ==> forall i :: 0 <= i < |Parse(data).value.rows| ==>
                          (Parse(data).value.rows[i].entityId == Some(EntityNumber(data.entityId.value))
                           || Parse(data).value.rows[i].entityId == None)
    ensures Parse(data).Ok? ==> forall i, j :: 0 <= i < |Parse(data).value.rows| && 0 <= j < |Parse(data).value.rows| ==>
                          Parse(data).value.rows[i].entityId == Parse(data).value.rows[j].entityId
  {
    if Parse(data).Ok? {
      var attrs, index := data.attributes.value, data.index.value;
      var names, m := AttrNames(attrs), AttrValues(attrs);
      var cols := DataColumns(names);
      var t := Parse(data).value;
      assert t.columns == ["entityId", "time_utc"] + cols;
      if FrameLength(names, m).value == |index| {
        assert t.rows == NumberedRows(EntityNumber(data.entityId.value), index, cols, m, |index|);
      } else {
        assert t.rows == NaNRows(index, cols, |index|);
      }
    }
  }

  /** Some attribute carrying the name `nm` is the last one that does. */
  lemma {:induction false} LastOfNameExists(attrs: seq<Attribute>, nm: string)
    requires exists i :: 0 <= i < |attrs| && attrs[i].attrName == Some(nm)
    ensures exists i :: IsLastOfName(attrs, i) && attrs[i].attrName == Some(nm)
  {
    var n := |attrs| - 1;
    if attrs[n].attrName == Some(nm) {
      assert IsLastOfName(attrs, n);
    } else {
      var init := attrs[..n];
      var w :| 0 <= w < |attrs| && attrs[w].attrName == Some(nm);
      assert init[w] == attrs[w];
      LastOfNameExists(init, nm);
      var i :| IsLastOfName(init, i) && init[i].attrName == Some(nm);
      assert IsLastOfName(attrs, i);
    }
  }

  /** The three required keys are present and every attribute has a name. */
  predicate Named(data: Response) {
    data.index.Some? && data.entityId.Some? && data.attributes.Some? && AllNamed(data.attributes.value)
  }

  /** Every attribute column (the last attribute of each name) has `k` values. */
  predicate ColumnsOfLength(attrs: seq<Attribute>, k: nat) {
    forall i :: 0 <= i < |attrs| && IsLastOfName(attrs, i) ==> |ValuesOf(attrs[i])| == k
  }

  /**
   * The parser returns a table exactly when the keys are there, every
   * attribute is named, and the columns either all have as many values as
   * the index has entries or are all empty.
   */
  lemma ParseSucceedsIff(data: Response)
    ensures Parse(data).Ok? <==>
              Named(data)
              && (ColumnsOfLength(data.attributes.value, |data.index.value|)
                  || ColumnsOfLength(data.attributes.value, 0))
  {
    if Named(data) {
      var attrs, n := data.attributes.value, |data.index.value|;
      var names, m := AttrNames(attrs), AttrValues(attrs);
      forall i | IsLastOfName(attrs, i)
        ensures attrs[i].attrName.value in names && m[attrs[i].attrName.value] == ValuesOf(attrs[i])
      {
        AttrValuesLastWins(attrs, i);
      }
      forall nm | nm in names
        ensures exists i :: IsLastOfName(attrs, i) && attrs[i].attrName == Some(nm)
      {
        LastOfNameExists(attrs, nm);
      }
      if ColumnsOfLength(attrs, n) || ColumnsOfLength(attrs, 0) {
        var k := if ColumnsOfLength(attrs, n) then n else 0;
        assert forall nm :: nm in names ==> |m[nm]| == k;
        assert FrameLength(names, m).Ok?;
      }
    }
  }

  /**
   * With every column as long as the index, the parser returns the numbered
   * rows: row `i` is the `i`-th index hour with the extracted entity number.
   */
  lemma ParseNumbered(data: Response)
    requires Named(data) && ColumnsOfLength(data.attributes.value, |data.index.value|)
    requires data.attributes.value != [] || data.index.value == []
    ensures var attrs := data.attributes.value;
            var cols := DataColumns(AttrNames(attrs));
            && FrameLength(AttrNames(attrs), AttrValues(attrs)) == Ok(|data.index.value|)
            && (forall nm :: nm in cols ==> nm in AttrValues(attrs) && |data.index.value| <= |AttrValues(attrs)[nm]|)
            && Parse(data) == Ok(Table(["entityId", "time_utc"] + cols,
                                       NumberedRows(EntityNumber(data.entityId.value), data.index.value, cols,
                                                    AttrValues(attrs), |data.index.value|)))
  {
    FrameLengthOfIndex(data);
  }

  /**
   * With every column as long as the index, every row carries the extracted
   * entity number and has a cell under each attribute column, no other.
   */
  lemma ParseRows(data: Response)
    requires Named(data) && ColumnsOfLength(data.attributes.value, |data.index.value|)
    requires data.attributes.value != [] || data.index.value == []
    ensures Parse(data).Ok?
    ensures var t := Parse(data).value;
            forall i :: 0 <= i < |t.rows| ==>
              t.rows[i].entityId == Some(EntityNumber(data.entityId.value))
              && forall nm :: nm in t.rows[i].values <==> nm in t.columns[2..]
  {
    ParseNumbered(data);
    var t := Parse(data).value;
    assert t.columns[2..] == DataColumns(AttrNames(data.attributes.value));
  }

  /**
   * With every column as long as the index, row `i` holds, under each
   * attribute name other than `entityId`/`time_utc`, the `i`-th value of the
   * last attribute so named.
   */
  lemma ParseRowValues(data: Response)
    requires Named(data) && ColumnsOfLength(data.attributes.value, |data.index.value|)
    requires data.attributes.value != [] || data.index.value == []
    ensures Parse(data).Ok?
    ensures var rows := Parse(data).value.rows;
            forall i, j :: 0 <= i < |rows| && IsLastOfName(data.attributes.value, j)
                           && data.attributes.value[j].attrName.value != "entityId"
                           && data.attributes.value[j].attrName.value != "time_utc" ==>
              i < |ValuesOf(data.attributes.value[j])|
              && rows[i].values[data.attributes.value[j].attrName.value] == ValuesOf(data.attributes.value[j])[i]
  {
    var attrs := data.attributes.value;
    var cols := DataColumns(AttrNames(attrs));
    FrameLengthOfIndex(data);
    ParseNumbered(data);
    var rows := Parse(data).value.rows;
    forall i, j | 0 <= i < |rows| && IsLastOfName(attrs, j)
                  && attrs[j].attrName.value != "entityId" && attrs[j].attrName.value != "time_utc"
      ensures i < |ValuesOf(attrs[j])| && rows[i].values[attrs[j].attrName.value] == ValuesOf(attrs[j])[i]
    {
      assert attrs[j].attrName.value in cols;
      assert rows[i].values == RowCells(cols, AttrValues(attrs), i);
    }
  }

  /** Under the conditions of `ParseRows`, the attribute frame has as many rows as the index. */
  lemma FrameLengthOfIndex(data: Response)
    requires Named(data) && ColumnsOfLength(data.attributes.value, |data.index.value|)
    requires data.attributes.value != [] || data.index.value == []
    ensures var attrs := data.attributes.value;
            FrameLength(AttrNames(attrs), AttrValues(attrs)) == Ok(|data.index.value|)
            && forall j :: IsLastOfName(attrs, j) ==>
                 attrs[j].attrName.value in AttrNames(attrs)
                 && AttrValues(attrs)[attrs[j].attrName.value] == ValuesOf(attrs[j])
  {
    var attrs, n := data.attributes.value, |data.index.value|;
    var names, m := AttrNames(attrs), AttrValues(attrs);
    forall j | IsLastOfName(attrs, j)
      ensures attrs[j].attrName.value in names && m[attrs[j].attrName.value] == ValuesOf(attrs[j])
    {
      AttrValuesLastWins(attrs, j);
    }
    forall nm | nm in names
      ensures |m[nm]| == n
    {
      LastOfNameExists(attrs, nm);
    }
    if attrs != [] {
      assert attrs[0].attrName.value in names;
    }
  }

  /**
   * With no attribute values at all and a non-empty index, pandas grows the
   * empty frame to the index: every row has NaN as entity id and in every
   * attribute column.
   */
  lemma ParseFillsNaN(data: Response)
    requires Named(data) && ColumnsOfLength(data.attributes.value, 0) && |data.index.value| > 0
    ensures Parse(data).Ok?
    ensures var rows := Parse(data).value.rows;
            |rows| == |data.index.value|
            && forall i :: 0 <= i < |rows| ==>
                 rows[i].entityId.None? && forall nm :: nm in rows[i].values ==> rows[i].values[nm] == Missing
  {
    ParseSucceedsIff(data);
    var attrs, n := data.attributes.value, |data.index.value|;
    var names, m := AttrNames(attrs), AttrValues(attrs);
    forall j | IsLastOfName(attrs, j)
      ensures m[attrs[j].attrName.value] == ValuesOf(attrs[j])
    {
      AttrValuesLastWins(attrs, j);
    }
    forall nm | nm in names
      ensures |m[nm]| == 0
    {
      LastOfNameExists(attrs, nm);
    }
  }

  /**
   * The columns are `entityId`, `time_utc`, then every attribute name other
   * than those two, each exactly once.
   */
  lemma ParseColumns(data: Response)
    requires Parse(data).Ok?
    ensures var cols := Parse(data).value.columns;
            cols[..2] == ["entityId", "time_utc"]
            && (forall i, j :: 2 <= i < j < |cols| ==> cols[i] != cols[j])
            && forall nm :: nm in cols[2..] <==>
                 (exists i :: 0 <= i < |data.attributes.value| && data.attributes.value[i].attrName == Some(nm))
                 && nm != "entityId" && nm != "time_utc"
  {
    var cols := Parse(data).value.columns;
    var dc := DataColumns(AttrNames(data.attributes.value));
    assert cols == ["entityId", "time_utc"] + dc;
    assert cols[2..] == dc;
  }
}
