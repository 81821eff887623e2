/**
 * Rows of the hourly station table and the (entityId, time_utc) order the
 * cache file is sorted by.
 */
module Frames {
  import opened Wrappers

  /** An instant, counted in whole hours (UTC). */
  type Hour = int

  /** A numeric station id as kept in the cache's `entityId` column. */
  type StationId = int

  /** One cell of a measurement column; `Missing` is pandas' NaN (also a JSON null). */
  datatype Cell = Missing | Num(x: real)

  /**
   * A row of the cache: the integer entity id, the hour, and one cell per
   * measurement column. A column a row has no key for is an empty cell.
   */
  datatype Row = Row(entityId: StationId, time: Hour, values: map<string, Cell>)

  /**
   * A row as the response parser builds it: the entity id is still the
   * extracted digit string, or `None` where pandas filled it with NaN.
   */
  datatype ParsedRow = ParsedRow(entityId: Option<string>, time: Hour, values: map<string, Cell>)

  /** A parsed table: its column names in order, and its rows. */
  datatype Table = Table(columns: seq<string>, rows: seq<ParsedRow>)

  /** The lexicographic (entityId, time_utc) order of `sort_values`. */
  predicate KeyLe(a: Row, b: Row) {
    a.entityId < b.entityId || (a.entityId == b.entityId && a.time <= b.time)
  }

  /** Non-decreasing in (entityId, time_utc); equal keys may repeat. */
  predicate Sorted(s: seq<Row>) {
    forall i, j :: 0 <= i < j < |s| ==> KeyLe(s[i], s[j])
  }

  /** A row that precedes the head of a sorted sequence can be put in front of it. */
  lemma SortedCons(a: Row, t: seq<Row>)
    requires Sorted(t) && (t != [] ==> KeyLe(a, t[0]))
    ensures Sorted([a] + t)
  {
    var r := [a] + t;
    forall i, j | 0 <= i < j < |r|
      ensures KeyLe(r[i], r[j])
    {
      if i == 0 && j > 1 {
        assert KeyLe(t[0], t[j - 1]);
      }
    }
  }

  /** Inserts `x` into a sorted sequence before the first row it does not follow. */
  function Insert(x: Row, s: seq<Row>): (r: seq<Row>)
    requires Sorted(s)
    ensures Sorted(r)
    ensures multiset(r) == multiset(s) + multiset{x}
    ensures |r| == |s| + 1 && (r[0] == x || (s != [] && r[0] == s[0]))
  {
    if s == [] then [x]
    else if KeyLe(x, s[0]) then
      SortedCons(x, s);
      [x] + s
    else
      var tail := Insert(x, s[1..]);
      assert s == [s[0]] + s[1..];
      assert multiset(s) == multiset{s[0]} + multiset(s[1..]);
      assert multiset([s[0]] + tail) == multiset{s[0]} + multiset(tail);
      SortedCons(s[0], tail);
      [s[0]] + tail
  }

  /**
   * A sort by (entityId, time_utc): the result is ordered and is a
   * permutation of the input. Which of several rows with the same key comes
   * first is not something callers may rely on.
   */
  function SortRows(s: seq<Row>): (r: seq<Row>)
    ensures Sorted(r)
    ensures multiset(r) == multiset(s)
  {
    if s == [] then []
    else
      assert s == [s[0]] + s[1..];
      Insert(s[0], SortRows(s[1..]))
  }

  /** The distinct entity ids among `rows` (what `nunique` counts). */
  function EntityIds(rows: seq<Row>): (ids: set<StationId>)
    ensures |ids| <= |rows|
    ensures rows != [] ==> |ids| >= 1
    ensures forall i :: 0 <= i < |rows| ==> rows[i].entityId in ids
    ensures forall id :: id in ids ==> exists i :: 0 <= i < |rows| && rows[i].entityId == id
  {
    if rows == [] then {}
    else
      var n := |rows| - 1;
      var before := EntityIds(rows[..n]);
      assert forall i :: 0 <= i < n ==> rows[i] == rows[..n][i];
      before + {rows[n].entityId}
  }
}
