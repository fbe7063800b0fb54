/**
 * The tabular capability the engine relies on (a pandas DataFrame in the
 * repository), kept small: a table is a list of column names and a list of
 * rows, each row a map from column name to value. Aggregate functions
 * (`'sum'`, `'max'`, ...) are uninterpreted: an `Aggregator` supplied by the
 * caller evaluates a function name on a column of values.
 */
module Tables {
  import opened Wrappers
  import opened Dicts

  /** Attribute (column) names. */
  type Attr = string

  /** Cell values; `Missing` stands for a cell a row does not have (NaN). */
  datatype Value = Missing | Text(text: string) | Number(number: int)

  type Row = map<Attr, Value>

  datatype Table = Table(columns: seq<Attr>, rows: seq<Row>)

  /** The set of column names (`set(df.columns)`). */
  function ColumnSet(t: Table): set<Attr> {
    set c | c in t.columns
  }

  function Cell(row: Row, c: Attr): Value {
    if c in row then row[c] else Missing
  }

  /** The values of `row` at `keys`, in the order of `keys`. */
  function KeyOf(row: Row, keys: seq<Attr>): (vs: seq<Value>)
    ensures |vs| == |keys|
  {
    seq(|keys|, i requires 0 <= i < |keys| => Cell(row, keys[i]))
  }

  /** A row built from attribute/value pairs (later pairs win, as in `dict(pairs)`). */
  function RowOf(pairs: seq<(Attr, Value)>): (r: Row)
    ensures r.Keys == set p | p in pairs :: p.0
  {
    if pairs == [] then map[]
    else
      var r := RowOf(pairs[..|pairs| - 1])[pairs[|pairs| - 1].0 := pairs[|pairs| - 1].1];
      assert forall p :: p in pairs <==> p in pairs[..|pairs| - 1] || p == pairs[|pairs| - 1] by {
        assert pairs == pairs[..|pairs| - 1] + [pairs[|pairs| - 1]];
      }
      r
  }

  /** `df[cols]`: the same rows restricted to `cols`. */
  function Project(t: Table, cols: seq<Attr>): (r: Table)
    ensures r.columns == cols && |r.rows| == |t.rows|
  {
    Table(cols, seq(|t.rows|, i requires 0 <= i < |t.rows| =>
      map c | c in t.rows[i] && c in cols :: t.rows[i][c]))
  }

  // ---------------------------------------------------------------------------
  // Grouping
  // ---------------------------------------------------------------------------

  /** One group of a group-by: the key values and the sub-table of matching rows. */
  datatype Group = Group(key: seq<Value>, table: Table)

  /** The distinct key vectors of `rows`, in order of first appearance; a row with a
      missing key value belongs to no group (pandas drops NaN keys). */
  function GroupKeys(rows: seq<Row>, keys: seq<Attr>): (ks: seq<seq<Value>>)
    ensures forall k :: k in ks ==> |k| == |keys| && Missing !in k
    ensures forall i, j :: 0 <= i < j < |ks| ==> ks[i] != ks[j]
  {
    if rows == [] then []
    else
      var ks := GroupKeys(rows[..|rows| - 1], keys);
      var k := KeyOf(rows[|rows| - 1], keys);
      if k in ks || Missing in k then ks else ks + [k]
  }

  /** The rows whose key vector is `k`, in their original order. */
  function RowsWithKey(rows: seq<Row>, keys: seq<Attr>, k: seq<Value>): seq<Row> {
    if rows == [] then []
    else RowsWithKey(rows[..|rows| - 1], keys, k)
         + (if KeyOf(rows[|rows| - 1], keys) == k then [rows[|rows| - 1]] else [])
  }

  /** The groups of `t` by `keys`; each group keeps all of `t`'s columns. */
  function Groups(t: Table, keys: seq<Attr>): (gs: seq<Group>)
    ensures forall g :: g in gs ==> |g.key| == |keys| && g.table.columns == t.columns
    ensures forall i, j :: 0 <= i < j < |gs| ==> gs[i].key != gs[j].key
  {
    var ks := GroupKeys(t.rows, keys);
    seq(|ks|, i requires 0 <= i < |ks| => Group(ks[i], Table(t.columns, RowsWithKey(t.rows, keys, ks[i]))))
  }

  /** The rows with key vector `k` are exactly the rows of `rows` whose key is `k`. */
  lemma {:induction false} RowsWithKeyMembers(rows: seq<Row>, keys: seq<Attr>, k: seq<Value>, r: Row)
    ensures r in RowsWithKey(rows, keys, k) <==> r in rows && KeyOf(r, keys) == k
    decreases |rows|
  {
    if rows != [] {
      var init := rows[..|rows| - 1];
      assert rows == init + [rows[|rows| - 1]];
      RowsWithKeyMembers(init, keys, k, r);
    }
  }

  /** A key vector is a group key exactly when it has no missing value and some row
      has it. */
  lemma {:induction false} GroupKeysMembers(rows: seq<Row>, keys: seq<Attr>, k: seq<Value>)
    ensures k in GroupKeys(rows, keys) <==> Missing !in k && exists r :: r in rows && KeyOf(r, keys) == k
    decreases |rows|
  {
    if rows != [] {
      var init, last := rows[..|rows| - 1], rows[|rows| - 1];
      assert rows == init + [last];
      GroupKeysMembers(init, keys, k);
      if exists r :: r in rows && KeyOf(r, keys) == k {
        var r :| r in rows && KeyOf(r, keys) == k;
        assert r in init || r == last;
      }
    }
  }

  /** The group of `gs` whose key is `k`, if any (the last one, should there be several). */
  function GroupWith(gs: seq<Group>, k: seq<Value>): (r: Option<Group>)
    ensures r.Some? ==> r.value in gs && r.value.key == k
    ensures r.None? <==> forall g :: g in gs ==> g.key != k
  {
    if gs == [] then None
    else if gs[|gs| - 1].key == k then Some(gs[|gs| - 1])
    else
      var init := gs[..|gs| - 1];
      assert gs == init + [gs[|gs| - 1]];
      GroupWith(init, k)
  }

  /** `df.groupby(keys)` partitions the rows of `t` with no missing key value: there is
      a group with key `k` exactly when some such row has key `k`, and it has all of
      `t`'s columns and exactly the rows whose key is `k`, in their order. */
  lemma GroupsPartition(t: Table, keys: seq<Attr>, k: seq<Value>)
    ensures GroupWith(Groups(t, keys), k).Some? <==>
      Missing !in k && exists r :: r in t.rows && KeyOf(r, keys) == k
    ensures GroupWith(Groups(t, keys), k).Some? ==>
      GroupWith(Groups(t, keys), k).value == Group(k, Table(t.columns, RowsWithKey(t.rows, keys, k)))
    ensures forall r :: r in RowsWithKey(t.rows, keys, k) <==> r in t.rows && KeyOf(r, keys) == k
  {
    var gs := Groups(t, keys);
    var ks := GroupKeys(t.rows, keys);
    GroupKeysMembers(t.rows, keys, k);
    forall r ensures r in RowsWithKey(t.rows, keys, k) <==> r in t.rows && KeyOf(r, keys) == k {
      RowsWithKeyMembers(t.rows, keys, k, r);
    }
    if k in ks {
      var i :| 0 <= i < |ks| && ks[i] == k;
      assert gs[i] in gs && gs[i].key == k;
    }
    if GroupWith(gs, k).Some? {
      var g := GroupWith(gs, k).value;
      var i :| 0 <= i < |gs| && gs[i] == g;
      assert ks[i] == k;
    }
  }

  /** The first of `cols` that `t` does not have, if any. */
  function MissingColumn(t: Table, cols: seq<Attr>): (r: Option<Attr>)
    ensures r.None? <==> forall i :: 0 <= i < |cols| ==> cols[i] in t.columns
    ensures r.Some? ==> r.value in cols && r.value !in t.columns
  {
    if cols == [] then None
    else if cols[0] !in t.columns then Some(cols[0])
    else MissingColumn(t, cols[1..])
  }

  /** `df.groupby(keys)`: a key that is not a column raises `KeyError`; grouping by no
      keys at all is refused on a non-empty table (pandas raises "No group keys passed!"). */
  function GroupBy(t: Table, keys: seq<Attr>): (r: Result<seq<Group>>)
    ensures r.Failure? <==>
      (exists i :: 0 <= i < |keys| && keys[i] !in t.columns) || (keys == [] && |t.rows| > 0)
    ensures r.Success? ==> r.value == Groups(t, keys)
  {
    match MissingColumn(t, keys)
    case Some(k) => Failure(KeyError(k))
    case None =>
      if keys == [] && |t.rows| > 0 then Failure(ValueError("No group keys passed!"))
      else Success(Groups(t, keys))
  }

  // ---------------------------------------------------------------------------
  // Aggregation
  // ---------------------------------------------------------------------------

  /** One aggregation: output column `output` is `func` applied to column `source`. */
  datatype AggSpec = AggSpec(output: Attr, source: Attr, func: string)

  /** Evaluates an aggregate function, named as in pandas, on a column of values. */
  type Aggregator = (string, seq<Value>) -> Value

  function ColumnValues(rows: seq<Row>, c: Attr): (vs: seq<Value>)
    ensures |vs| == |rows|
  {
    seq(|rows|, i requires 0 <= i < |rows| => Cell(rows[i], c))
  }

  /** The source column names of a list of aggregations. */
  function Sources(aggs: seq<AggSpec>): (ss: seq<Attr>)
    ensures |ss| == |aggs|
    ensures forall i :: 0 <= i < |aggs| ==> ss[i] == aggs[i].source
  {
    seq(|aggs|, i requires 0 <= i < |aggs| => aggs[i].source)
  }

  /** The output column names of a list of aggregations. */
  function Outputs(aggs: seq<AggSpec>): (os: seq<Attr>)
    ensures |os| == |aggs|
    ensures forall i :: 0 <= i < |aggs| ==> os[i] == aggs[i].output
  {
    seq(|aggs|, i requires 0 <= i < |aggs| => aggs[i].output)
  }

  /** The one row of aggregates over `rows`. */
  function AggregateRow(rows: seq<Row>, aggs: seq<AggSpec>, ev: Aggregator): (r: Row)
    ensures r.Keys == set a | a in aggs :: a.output
  {
    var pairs := seq(|aggs|, i requires 0 <= i < |aggs| =>
      (aggs[i].output, ev(aggs[i].func, ColumnValues(rows, aggs[i].source))));
    var outs := set a | a in aggs :: a.output;
    var names := set p | p in pairs :: p.0;
    assert names == outs by {
      forall o | o in outs ensures o in names {
        var i :| 0 <= i < |aggs| && aggs[i].output == o;
        assert pairs[i] in pairs;
      }
    }
    RowOf(pairs)
  }

  /** `df.agg(...)` turned into a one-row table: the grand total. */
  function TotalTable(t: Table, aggs: seq<AggSpec>, ev: Aggregator): (r: Table)
    ensures r.columns == Outputs(aggs) && |r.rows| == 1
  {
    Table(Outputs(aggs), [AggregateRow(t.rows, aggs, ev)])
  }

  /** The `ValueError` of `pd.concat` on no frames, which `df.agg` with an empty
      dictionary of aggregations ends in. */
  const NoObjectsMessage := "No objects to concatenate"

  /** `df.agg({source: func, ...})`: refused with a `ValueError` when the dictionary is
      empty, and with `KeyError` when a source column is missing. */
  function Total(t: Table, aggs: seq<AggSpec>, ev: Aggregator): (r: Result<Table>)
    ensures r.Failure? <==> aggs == [] || exists i :: 0 <= i < |aggs| && aggs[i].source !in t.columns
    ensures aggs == [] ==> r == Failure(ValueError(NoObjectsMessage))
    ensures r.Success? ==> r.value == TotalTable(t, aggs, ev) && |r.value.rows| == 1
  {
    if aggs == [] then Failure(ValueError(NoObjectsMessage))
    else
      match MissingColumn(t, Sources(aggs))
      case Some(c) => Failure(KeyError(c))
      case None => Success(TotalTable(t, aggs, ev))
  }

  /** The row of key columns of one group. */
  function KeyRow(keys: seq<Attr>, values: seq<Value>): Row
    requires |values| == |keys|
  {
    RowOf(seq(|keys|, i requires 0 <= i < |keys| => (keys[i], values[i])))
  }

  /** `df.groupby(keys).agg(...).reset_index()`: one row per group, the key columns
      first and then the aggregates. */
  function GroupedTable(t: Table, keys: seq<Attr>, aggs: seq<AggSpec>, ev: Aggregator): (r: Table)
    ensures r.columns == keys + Outputs(aggs)
    ensures |r.rows| == |Groups(t, keys)|
  {
    var gs := Groups(t, keys);
    Table(keys + Outputs(aggs), seq(|gs|, i requires 0 <= i < |gs| =>
      KeyRow(keys, gs[i].key) + AggregateRow(gs[i].table.rows, aggs, ev)))
  }

  /** The key column `reset_index` cannot insert, if any. It inserts the keys from the
      last to the first, each in front of the aggregate columns and of the keys
      inserted before it, so the first key met in that order that is also an output
      name or occurs again later among the keys is refused. */
  function KeyClash(keys: seq<Attr>, aggs: seq<AggSpec>): (r: Option<Attr>)
    ensures r.None? <==> NoRepeats(keys) && forall i :: 0 <= i < |aggs| ==> aggs[i].output !in keys
    ensures r.Some? ==> (r.value in keys &&
      ((exists i :: 0 <= i < |aggs| && aggs[i].output == r.value) ||
       (exists i, j :: 0 <= i < j < |keys| && keys[i] == r.value && keys[j] == r.value)))
    decreases |keys|
  {
    if keys == [] then None
    else
      var rest := keys[1..];
      assert forall i :: 1 <= i < |keys| ==> keys[i] == rest[i - 1];
      match KeyClash(rest, aggs)
      case Some(c) => Some(c)
      case None =>
        if keys[0] in Outputs(aggs) || keys[0] in rest then Some(keys[0]) else None
  }

  /** No element, such as a grouping key or an attribute, occurs twice. */
  ghost predicate NoRepeats<T>(s: seq<T>) {
    forall i, j :: 0 <= i < j < |s| ==> s[i] != s[j]
  }

  /** `df.groupby(keys).agg(...).reset_index()`, with the errors of the grouping, a
      `KeyError` for a missing source column, and the `ValueError` of `reset_index`
      when a key column cannot be inserted because an aggregate or another key
      already has its name. */
  function Grouped(t: Table, keys: seq<Attr>, aggs: seq<AggSpec>, ev: Aggregator): (r: Result<Table>)
    ensures r.Failure? <==> (GroupBy(t, keys).Failure? ||
      (exists i :: 0 <= i < |aggs| && aggs[i].source !in t.columns) ||
      !NoRepeats(keys) || (exists i :: 0 <= i < |aggs| && aggs[i].output in keys))
    ensures r.Success? ==> r.value == GroupedTable(t, keys, aggs, ev)
    ensures r.Failure? && GroupBy(t, keys).Success? && MissingColumn(t, Sources(aggs)).None? ==>
      r.error.ValueError? && KeyClash(keys, aggs).Some? &&
      r.error.message == "cannot insert " + KeyClash(keys, aggs).value + ", already exists"
  {
    match GroupBy(t, keys)
    case Failure(e) => Failure(e)
    case Success(_) =>
      match MissingColumn(t, Sources(aggs))
      case Some(c) => Failure(KeyError(c))
      case None =>
        match KeyClash(keys, aggs)
        case Some(c) => Failure(ValueError("cannot insert " + c + ", already exists"))
        case None => Success(GroupedTable(t, keys, aggs, ev))
  }

  /** Grouping by a column listed twice: `reset_index` inserts it once and then
      refuses to insert it again. */
  lemma RepeatedKeyRefused(t: Table, k: Attr, aggs: seq<AggSpec>, ev: Aggregator)
    requires k in t.columns && forall i :: 0 <= i < |aggs| ==> aggs[i].source in t.columns
    ensures Grouped(t, [k, k], aggs, ev) == Failure(ValueError("cannot insert " + k + ", already exists"))
  {
    assert KeyClash([k], aggs).None? ==> KeyClash([k, k], aggs) == Some(k) by {
      assert [k, k][1..] == [k];
    }
    if KeyClash([k], aggs).Some? {
      assert KeyClash([k, k], aggs) == KeyClash([k], aggs) by {
        assert [k, k][1..] == [k];
      }
    }
  }

  // ---------------------------------------------------------------------------
  // Joining and concatenating
  // ---------------------------------------------------------------------------

  /** `pd.DataFrame([d])`: a one-row table from a dictionary's items. */
  function SingleRowTable(items: seq<(Attr, Value)>): (r: Table)
    ensures |r.rows| == 1 && r.columns == Keys(items)
  {
    Table(Keys(items), [RowOf(items)])
  }

  function CrossRows(a: seq<Row>, b: seq<Row>): seq<Row> {
    if a == [] then []
    else seq(|b|, j requires 0 <= j < |b| => a[0] + b[j]) + CrossRows(a[1..], b)
  }

  /** The Cartesian product of two tables (the merge on a constant helper column). */
  function CrossJoin(a: Table, b: Table): (r: Table)
    ensures r.columns == a.columns + b.columns
    ensures |a.rows| == 1 ==> |r.rows| == |b.rows|
  {
    assert |a.rows| == 1 ==> |CrossRows(a.rows, b.rows)| == |b.rows| + |CrossRows(a.rows[1..], b.rows)|;
    assert |a.rows| == 1 ==> a.rows[1..] == [];
    Table(a.columns + b.columns, CrossRows(a.rows, b.rows))
  }

  /** The column names of several tables, one table after another (repeats kept). */
  function UnionColumns(ts: seq<Table>): seq<Attr> {
    if ts == [] then []
    else
      var cs := UnionColumns(ts[..|ts| - 1]);
      cs + seq(|ts[|ts| - 1].columns|, i requires 0 <= i < |ts[|ts| - 1].columns| =>
        ts[|ts| - 1].columns[i])
  }

  function TotalRows(ts: seq<Table>): nat {
    if ts == [] then 0 else TotalRows(ts[..|ts| - 1]) + |ts[|ts| - 1].rows|
  }

  function ConcatRows(ts: seq<Table>): (rows: seq<Row>)
    ensures |rows| == TotalRows(ts)
  {
    if ts == [] then [] else ConcatRows(ts[..|ts| - 1]) + ts[|ts| - 1].rows
  }

  /** `pd.concat(ts, ignore_index=True)`: all rows, one after another. */
  function Concat(ts: seq<Table>): (r: Table)
    ensures |r.rows| == TotalRows(ts)
  {
    Table(UnionColumns(ts), ConcatRows(ts))
  }
}
