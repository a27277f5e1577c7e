/** Trend queries: which properties are asked for, and how result rows are dealt out to their series. */
module Trend {
  import opened Wrappers
  import opened Text

  const MAX_TREND_PROPERTIES := 8

  // ----- the requested properties -----

  /** The non-blank names, trimmed, in order. */
  function Named(properties: seq<string>): seq<string> {
    if properties == [] then []
    else
      var init, last := Named(properties[..|properties| - 1]), TrimSpace(properties[|properties| - 1]);
      if last == "" then init else init + [last]
  }

  predicate Distinct(names: seq<string>) {
    forall i, j :: 0 <= i < j < |names| ==> names[i] != names[j]
  }

  /** The first place of a name. */
  function FirstIndex(names: seq<string>, name: string): nat
    requires name in names
  {
    if names[0] == name then 0 else 1 + FirstIndex(names[1..], name)
  }

  /** `out` holds each name once, in the order of first occurrence. */
  ghost predicate FirstOccurrences(names: seq<string>, out: seq<string>) {
    && Distinct(out)
    && (forall name :: name in out <==> name in names)
    && (forall i, j :: 0 <= i < j < |out| ==> FirstIndex(names, out[i]) < FirstIndex(names, out[j]))
  }

  lemma {:induction false} FirstIndexStays(names: seq<string>, more: string, name: string)
    requires name in names
    ensures name in names + [more] && FirstIndex(names + [more], name) == FirstIndex(names, name) < |names|
  {
    if names[0] != name {
      assert (names + [more])[1..] == names[1..] + [more];
      FirstIndexStays(names[1..], more, name);
    }
  }

  lemma {:induction false} FirstIndexOfNew(names: seq<string>, name: string)
    requires name !in names
    ensures FirstIndex(names + [name], name) == |names|
  {
    if names != [] {
      assert (names + [name])[1..] == names[1..] + [name];
      FirstIndexOfNew(names[1..], name);
    }
  }

  function Occurrences(names: seq<string>): seq<string> {
    if names == [] then []
    else
      var init, last := names[..|names| - 1], names[|names| - 1];
      if last in init then Occurrences(init) else Occurrences(init) + [last]
  }

  lemma OccurrencesOneMore(names: seq<string>, name: string)
    ensures Occurrences(names + [name]) == if name in names then Occurrences(names) else Occurrences(names) + [name]
  {
    assert (names + [name])[..|names|] == names;
  }

  lemma FirstOccurrencesOneMore(names: seq<string>, out: seq<string>, name: string)
    requires FirstOccurrences(names, out)
    ensures FirstOccurrences(names + [name], if name in names then out else out + [name])
  {
    var after := if name in names then out else out + [name];
    if name !in names {
      FirstIndexOfNew(names, name);
    }
    forall i, j | 0 <= i < j < |after|
      ensures FirstIndex(names + [name], after[i]) < FirstIndex(names + [name], after[j])
    {
      FirstIndexStays(names, name, after[i]);
      if j < |out| {
        FirstIndexStays(names, name, after[j]);
      }
    }
  }

  /** The occurrences are distinct, complete and in order of first occurrence. */
  lemma {:induction false} OccurrencesAreFirst(names: seq<string>)
    ensures FirstOccurrences(names, Occurrences(names))
  {
    if names != [] {
      var init, last := names[..|names| - 1], names[|names| - 1];
      assert init + [last] == names;
      OccurrencesAreFirst(init);
      FirstOccurrencesOneMore(init, Occurrences(init), last);
    }
  }

  /** Accepted exactly when every non-blank name is an identifier and there are 1 to 8 distinct ones. */
  method NormalizeTrendProperties(properties: seq<string>) returns (r: Option<seq<string>>)
    ensures r.Some? <==>
            && (forall name :: name in Named(properties) ==> Identifier(name))
            && 1 <= |Occurrences(Named(properties))| <= 8
    ensures r.Some? ==> r.value == Occurrences(Named(properties)) && FirstOccurrences(Named(properties), r.value)
  {
    var seen: set<string> := {};
    var out: seq<string> := [];
    for i := 0 to |properties|
      invariant forall name :: name in seen <==> name in Named(properties[..i])
      invariant out == Occurrences(Named(properties[..i]))
      invariant forall name :: name in Named(properties[..i]) ==> Identifier(name)
    {
      var property := TrimSpace(properties[i]);
      assert properties[..i + 1][..i] == properties[..i];
      if property != "" {
        if !Identifier(property) {
          NamedGrows(properties, i + 1);
          return None;
        }
        OccurrencesOneMore(Named(properties[..i]), property);
        if property !in seen {
          seen := seen + {property};
          out := out + [property];
        }
      }
    }
    assert properties[..|properties|] == properties;
    OccurrencesAreFirst(Named(properties));
    if |out| == 0 || |out| > MAX_TREND_PROPERTIES {
      return None;
    }
    return Some(out);
  }

  lemma {:induction false} NamedGrows(properties: seq<string>, n: nat)
    requires n <= |properties|
    ensures forall name :: name in Named(properties[..n]) ==> name in Named(properties)
    decreases |properties|
  {
    if n == |properties| {
      assert properties[..n] == properties;
    } else {
      var init := properties[..|properties| - 1];
      NamedGrows(init, n);
      assert init[..n] == properties[..n];
    }
  }

  // ----- grouping the rows -----

  datatype Row = Row(property: string, bucket: Option<int>, avg: real, min: real, max: real, last: real, count: int)

  datatype Point = Point(bucket: int, value: real, min: real, max: real, count: int)

  datatype Series = Series(property: string, points: seq<Point>)

  function AggregateValue(aggregate: string, row: Row): real {
    match aggregate
    case "min" => row.min
    case "max" => row.max
    case "last" => row.last
    case _ => row.avg
  }

  function PointOf(aggregate: string, row: Row): Point
    requires row.bucket.Some?
  {
    Point(row.bucket.value, AggregateValue(aggregate, row), row.min, row.max, row.count)
  }

  /** A point carries the bucket, the extremes and the count of its row, and the value that was asked for. */
  lemma PointExactly(aggregate: string, row: Row)
    requires row.bucket.Some?
    ensures
      var point := PointOf(aggregate, row);
      && Some(point.bucket) == row.bucket && point.min == row.min && point.max == row.max && point.count == row.count
      && (aggregate == "min" ==> point.value == row.min)
      && (aggregate == "max" ==> point.value == row.max)
      && (aggregate == "last" ==> point.value == row.last)
      && (aggregate != "min" && aggregate != "max" && aggregate != "last" ==> point.value == row.avg)
  {
  }

  /** The points of one property, in row order. */
  function PointsOf(aggregate: string, rows: seq<Row>, property: string): seq<Point> {
    if rows == [] then []
    else
      var init, row := PointsOf(aggregate, rows[..|rows| - 1], property), rows[|rows| - 1];
      if row.bucket.Some? && row.property == property then init + [PointOf(aggregate, row)] else init
  }

  /** Of equal names only the last keeps an entry in the index. */
  predicate Indexed(properties: seq<string>, i: nat)
    requires i < |properties|
  {
    properties[i] !in properties[i + 1..]
  }

  ghost predicate Grouped(aggregate: string, properties: seq<string>, rows: seq<Row>, series: seq<Series>) {
    && |series| == |properties|
    && forall i :: 0 <= i < |series| ==>
         && series[i].property == properties[i]
         && series[i].points == if Indexed(properties, i) then PointsOf(aggregate, rows, properties[i]) else []
  }

  /** The index leads every requested name to its last place. */
  ghost predicate IndexFits(properties: seq<string>, index: map<string, nat>) {
    && (forall name :: name in index <==> name in properties)
    && (forall name :: name in index ==>
         index[name] < |properties| && properties[index[name]] == name && Indexed(properties, index[name]))
  }

  lemma IndexOneMore(properties: seq<string>, index: map<string, nat>, name: string)
    requires IndexFits(properties, index)
    ensures IndexFits(properties + [name], index[name := |properties|])
  {
    var after := properties + [name];
    forall other | other in index && other != name
      ensures Indexed(after, index[other])
    {
      assert after[index[other] + 1..] == properties[index[other] + 1..] + [name];
    }
  }

  method BuildIndex(properties: seq<string>) returns (series: seq<Series>, index: map<string, nat>)
    ensures IndexFits(properties, index)
    ensures |series| == |properties| && forall i :: 0 <= i < |series| ==> series[i] == Series(properties[i], [])
  {
    index := map[];
    series := [];
    for i := 0 to |properties|
      invariant |series| == i && forall k :: 0 <= k < i ==> series[k] == Series(properties[k], [])
      invariant IndexFits(properties[..i], index)
    {
      IndexOneMore(properties[..i], index, properties[i]);
      assert properties[..i + 1] == properties[..i] + [properties[i]];
      index := index[properties[i] := |series|];
      series := series + [Series(properties[i], [])];
    }
    assert properties[..|properties|] == properties;
  }

  lemma PointsOneMore(aggregate: string, rows: seq<Row>, row: Row, property: string)
    ensures PointsOf(aggregate, rows + [row], property) ==
            PointsOf(aggregate, rows, property) +
            if row.bucket.Some? && row.property == property then [PointOf(aggregate, row)] else []
  {
    assert (rows + [row])[..|rows|] == rows;
  }

  lemma LaterPlaceUnindexes(properties: seq<string>, i: nat, j: nat)
    requires i < j < |properties| && properties[i] == properties[j]
    ensures !Indexed(properties, i)
  {
    assert properties[i + 1..][j - i - 1] == properties[j];
  }

  /** Two indexed places of one name are the same place. */
  lemma IndexedOnce(properties: seq<string>, i: nat, j: nat)
    requires i < |properties| && j < |properties| && properties[i] == properties[j]
    requires Indexed(properties, i) && Indexed(properties, j)
    ensures i == j
  {
    if i < j {
      LaterPlaceUnindexes(properties, i, j);
    } else if j < i {
      LaterPlaceUnindexes(properties, j, i);
    }
  }

  lemma UnwantedRowKeepsGroups(aggregate: string, properties: seq<string>, rows: seq<Row>, row: Row,
      series: seq<Series>)
    requires Grouped(aggregate, properties, rows, series)
    requires row.bucket.None? || row.property !in properties
    ensures Grouped(aggregate, properties, rows + [row], series)
  {
    forall i | 0 <= i < |series|
      ensures PointsOf(aggregate, rows + [row], properties[i]) == PointsOf(aggregate, rows, properties[i])
    {
      PointsOneMore(aggregate, rows, row, properties[i]);
    }
  }

  lemma WantedRowExtendsGroup(aggregate: string, properties: seq<string>, rows: seq<Row>, row: Row,
      series: seq<Series>, k: nat)
    requires Grouped(aggregate, properties, rows, series)
    requires row.bucket.Some? && k < |properties| && properties[k] == row.property && Indexed(properties, k)
    ensures
      Grouped(aggregate, properties, rows + [row],
              series[k := Series(series[k].property, series[k].points + [PointOf(aggregate, row)])])
  {
    forall i | 0 <= i < |series|
      ensures PointsOf(aggregate, rows + [row], properties[i]) ==
              PointsOf(aggregate, rows, properties[i]) +
              if row.property == properties[i] then [PointOf(aggregate, row)] else []
      ensures Indexed(properties, i) && row.property == properties[i] ==> i == k
    {
      PointsOneMore(aggregate, rows, row, properties[i]);
      if Indexed(properties, i) && row.property == properties[i] {
        IndexedOnce(properties, i, k);
      }
    }
  }

  method GroupRows(aggregate: string, properties: seq<string>, rows: seq<Row>) returns (series: seq<Series>)
    ensures Grouped(aggregate, properties, rows, series)
  {
    var index: map<string, nat>;
    series, index := BuildIndex(properties);
    for r := 0 to |rows|
      invariant Grouped(aggregate, properties, rows[..r], series)
    {
      assert rows[..r + 1] == rows[..r] + [rows[r]];
      var row := rows[r];
      if row.bucket.Some? && row.property in index {
        var i := index[row.property];
        WantedRowExtendsGroup(aggregate, properties, rows[..r], row, series, i);
        series := series[i := Series(series[i].property, series[i].points + [PointOf(aggregate, row)])];
      } else {
        UnwantedRowKeepsGroups(aggregate, properties, rows[..r], row, series);
      }
    }
    assert rows[..|rows|] == rows;
  }

  // ----- nothing is lost or duplicated -----

  predicate Wanted(properties: seq<string>, row: Row) {
    row.bucket.Some? && row.property in properties
  }

  function WantedRows(properties: seq<string>, rows: seq<Row>): nat {
    if rows == [] then 0
    else WantedRows(properties, rows[..|rows| - 1]) + if Wanted(properties, rows[|rows| - 1]) then 1 else 0
  }

  function TotalPoints(series: seq<Series>): nat {
    if series == [] then 0 else TotalPoints(series[..|series| - 1]) + |series[|series| - 1].points|
  }

  function PointCount(aggregate: string, properties: seq<string>, rows: seq<Row>): nat {
    if properties == [] then 0
    else
      var n := |properties| - 1;
      PointCount(aggregate, properties[..n], rows) + |PointsOf(aggregate, rows, properties[n])|
  }

  lemma {:induction false} NoRowsNoPoints(aggregate: string, properties: seq<string>)
    ensures PointCount(aggregate, properties, []) == 0
  {
    if properties != [] {
      NoRowsNoPoints(aggregate, properties[..|properties| - 1]);
    }
  }

  /** One more row adds one point to the series of its property, and to no other. */
  lemma {:induction false} OneMoreRow(aggregate: string, properties: seq<string>, rows: seq<Row>, row: Row)
    requires Distinct(properties)
    ensures PointCount(aggregate, properties, rows + [row]) ==
            PointCount(aggregate, properties, rows) + if Wanted(properties, row) then 1 else 0
  {
    if properties != [] {
      var n := |properties| - 1;
      OneMoreRow(aggregate, properties[..n], rows, row);
      assert (rows + [row])[..|rows|] == rows;
      assert row.property in properties <==> row.property in properties[..n] || row.property == properties[n];
      assert properties[n] !in properties[..n];
    }
  }

  lemma {:induction false} PointsCountRows(aggregate: string, properties: seq<string>, rows: seq<Row>)
    requires Distinct(properties)
    ensures PointCount(aggregate, properties, rows) == WantedRows(properties, rows)
  {
    if rows == [] {
      NoRowsNoPoints(aggregate, properties);
    } else {
      var init, row := rows[..|rows| - 1], rows[|rows| - 1];
      PointsCountRows(aggregate, properties, init);
      OneMoreRow(aggregate, properties, init, row);
      assert rows == init + [row];
    }
  }

  lemma {:induction false} TotalIsPointCount(aggregate: string, properties: seq<string>, rows: seq<Row>,
      series: seq<Series>)
    requires |series| == |properties|
    requires forall i :: 0 <= i < |series| ==> series[i].points == PointsOf(aggregate, rows, properties[i])
    ensures TotalPoints(series) == PointCount(aggregate, properties, rows)
  {
    if series != [] {
      var n := |series| - 1;
      TotalIsPointCount(aggregate, properties[..n], rows, series[..n]);
    }
  }

  /**
   * On distinct names, which is what normalisation yields, every series holds exactly the rows of its
   * property in row order, and the points together are as many as the wanted rows.
   */
  lemma GroupingLosesNothing(aggregate: string, properties: seq<string>, rows: seq<Row>, series: seq<Series>)
    requires Distinct(properties) && Grouped(aggregate, properties, rows, series)
    ensures forall i :: 0 <= i < |series| ==> series[i].points == PointsOf(aggregate, rows, properties[i])
    ensures TotalPoints(series) == WantedRows(properties, rows)
  {
    assert forall i :: 0 <= i < |properties| ==> Indexed(properties, i);
    TotalIsPointCount(aggregate, properties, rows, series);
    PointsCountRows(aggregate, properties, rows);
  }

  /** Without distinctness an earlier series of a repeated name stays empty. */
  lemma RepeatedNameStaysEmpty(aggregate: string, properties: seq<string>, rows: seq<Row>, series: seq<Series>, i: nat,
      j: nat)
    requires Grouped(aggregate, properties, rows, series)
    requires i < j < |properties| && properties[i] == properties[j]
    ensures series[i].points == []
  {
    LaterPlaceUnindexes(properties, i, j);
  }
}
