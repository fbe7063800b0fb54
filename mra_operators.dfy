/**
 * The class-based operators: pipelines built with `|`, the cube that fills a
 * relation space from a table (`CreateRelationSpaceByCube`), `Represent` by a
 * single region key and `SliceSelect` by a predicate on a region and its
 * features. `Eval` is the meaning of an operator on values; `Execute` runs it
 * on the objects of `Data` and is proved to agree with `Eval`.
 */
module MraOperators {
  import opened Wrappers
  import opened Dicts
  import opened Tables
  import opened Canonical
  import opened Combinatorics
  import opened MraData

  /** The regions of a slice relation with their feature tables. */
  type SliceData = seq<(RelationTuple, Features)>

  type SlicePredicate = (RelationTuple, Features) -> bool

  datatype Operator =
    | CreateRelationSpaceByCube(groupingKeys: seq<Attr>, aggregations: seq<(Attr, string)>)
    | Represent(regionKey: Attr)
    | SliceSelect(predicateFunc: SlicePredicate)
    | Pipeline(operators: seq<Operator>)

  /** The data an operator consumes and produces, as values. */
  datatype MraValue =
    | FrameValue(frame: Table)
    | SpaceValue(space: SpaceState)
    | SliceValue(slices: SliceState)

  const CubeTypeMessage := "CreateRelationSpaceByCube expects a pandas DataFrame."
  const RepresentTypeMessage := "Represent expects a RelationSpace object."
  const SelectTypeMessage := "SliceSelect expects a SliceRelation object."

  // ---------------------------------------------------------------------------
  // Composition with `|`
  // ---------------------------------------------------------------------------

  /** The operators one side of `|` contributes: a pipeline's own list, or the operator. */
  function OpsOf(op: Operator): seq<Operator> {
    if op.Pipeline? then op.operators else [op]
  }

  /** `a | b`, by `MraOperatorBase.__or__` or `Pipeline.__or__`: a pipeline on either
      side is flattened into the new one. */
  function Compose(a: Operator, b: Operator): (r: Operator)
    ensures r.Pipeline? && r.operators == OpsOf(a) + OpsOf(b)
  {
    if a.Pipeline? then
      if b.Pipeline? then Pipeline(a.operators + b.operators) else Pipeline(a.operators + [b])
    else
      if b.Pipeline? then Pipeline([a] + b.operators) else Pipeline([a, b])
  }

  /** `(a | b) | c` and `a | (b | c)` build the same pipeline. */
  lemma ComposeAssociative(a: Operator, b: Operator, c: Operator)
    ensures Compose(Compose(a, b), c) == Compose(a, Compose(b, c))
  {
    assert (OpsOf(a) + OpsOf(b)) + OpsOf(c) == OpsOf(a) + (OpsOf(b) + OpsOf(c));
  }

  // ---------------------------------------------------------------------------
  // Meaning on values
  // ---------------------------------------------------------------------------

  /** `op(data)`: a wrong kind of input is refused with `TypeError`. */
  function Eval(op: Operator, v: MraValue, ev: Aggregator): Result<MraValue>
    decreases op
  {
    match op
    case CreateRelationSpaceByCube(keys, aggregations) =>
      if !v.FrameValue? then Failure(TypeError(CubeTypeMessage))
      else
        (match CubeSpec(keys, aggregations, v.frame, ev)
         case Failure(e) => Failure(e)
         case Success(sp) => Success(SpaceValue(sp)))
    case Represent(key) =>
      if !v.SpaceValue? then Failure(TypeError(RepresentTypeMessage))
      else
        (match RepresentWith([v.space.dimensions], key, v.space)
         case Failure(e) => Failure(e)
         case Success(s) => Success(SliceValue(s)))
    case SliceSelect(pred) =>
      if !v.SliceValue? then Failure(TypeError(SelectTypeMessage))
      else
        (match SelectWith([v.slices.dimensions], pred, v.slices)
         case Failure(e) => Failure(e)
         case Success(s) => Success(SliceValue(s)))
    case Pipeline(ops) => EvalSeq(ops, v, ev)
  }

  /** `Pipeline._execute`: the operators in order, stopping at the first error. */
  function EvalSeq(ops: seq<Operator>, v: MraValue, ev: Aggregator): Result<MraValue>
    decreases ops
  {
    if ops == [] then Success(v)
    else
      match Eval(ops[0], v, ev)
      case Failure(e) => Failure(e)
      case Success(w) => EvalSeq(ops[1..], w, ev)
  }

  /** Continues a pipeline after a result: an error passes through. */
  function AndThen(r: Result<MraValue>, ops: seq<Operator>, ev: Aggregator): Result<MraValue> {
    match r
    case Failure(e) => Failure(e)
    case Success(w) => EvalSeq(ops, w, ev)
  }

  /** `data | op` (`__ror__`). */
  function Pipe(v: MraValue, op: Operator, ev: Aggregator): Result<MraValue> {
    Eval(op, v, ev)
  }

  /** A pipeline runs its operators strictly left to right: running a concatenation is
      running the first part, then the second. */
  lemma {:induction false} EvalSeqConcat(xs: seq<Operator>, ys: seq<Operator>, v: MraValue, ev: Aggregator)
    ensures EvalSeq(xs + ys, v, ev) == AndThen(EvalSeq(xs, v, ev), ys, ev)
    decreases |xs|
  {
    if xs == [] {
      assert xs + ys == ys;
    } else {
      assert (xs + ys)[0] == xs[0] && (xs + ys)[1..] == xs[1..] + ys;
      match Eval(xs[0], v, ev)
      case Failure(e) =>
      case Success(w) => EvalSeqConcat(xs[1..], ys, w, ev);
    }
  }

  /** An operator means the same as the pipeline of its operator list. */
  lemma EvalOpsOf(op: Operator, v: MraValue, ev: Aggregator)
    ensures Eval(op, v, ev) == EvalSeq(OpsOf(op), v, ev)
  {
    if !op.Pipeline? {
      assert [op][1..] == [];
    }
  }

  /** The empty pipeline returns its input. */
  lemma EmptyPipeline(v: MraValue, ev: Aggregator)
    ensures Eval(Pipeline([]), v, ev) == Success(v)
  {
  }

  /** `data | a | b`, which Python reads as `(data | a) | b`, equals `data | (a | b)`. */
  lemma PipeChain(v: MraValue, a: Operator, b: Operator, ev: Aggregator)
    ensures AndThen(Pipe(v, a, ev), OpsOf(b), ev) == Pipe(v, Compose(a, b), ev)
  {
    EvalOpsOf(a, v, ev);
    EvalSeqConcat(OpsOf(a), OpsOf(b), v, ev);
  }

  /** Each operator refuses the wrong kind of input with its own `TypeError`. */
  lemma WrongInputType(op: Operator, v: MraValue, ev: Aggregator)
    ensures op.CreateRelationSpaceByCube? && !v.FrameValue? ==>
      Eval(op, v, ev) == Failure(TypeError(CubeTypeMessage))
    ensures op.Represent? && !v.SpaceValue? ==>
      Eval(op, v, ev) == Failure(TypeError(RepresentTypeMessage))
    ensures op.SliceSelect? && !v.SliceValue? ==>
      Eval(op, v, ev) == Failure(TypeError(SelectTypeMessage))
  {
  }

  // ---------------------------------------------------------------------------
  // CreateRelationSpaceByCube
  // ---------------------------------------------------------------------------

  /** `{source: func}`: each aggregate keeps its source column's name. */
  function CubeAggs(aggregations: seq<(Attr, string)>): (specs: seq<AggSpec>)
    ensures |specs| == |aggregations|
    ensures forall i :: 0 <= i < |specs| ==>
      specs[i].output == aggregations[i].0 && specs[i].source == aggregations[i].0
  {
    seq(|aggregations|, i requires 0 <= i < |aggregations| =>
      AggSpec(aggregations[i].0, aggregations[i].0, aggregations[i].1))
  }

  /** The aggregated relation of one grouping set: the grand total for the empty set,
      a group-by otherwise. */
  function CubeRelation(t: Table, group: seq<Attr>, specs: seq<AggSpec>, ev: Aggregator): Result<Table> {
    if group == [] then Total(t, specs, ev) else Grouped(t, group, specs, ev)
  }

  /** Adds the relation of every grouping set in turn, each under `RelationSchema(group)`. */
  function CubeFold(sp: SpaceState, t: Table, sets: seq<seq<Attr>>, specs: seq<AggSpec>, ev: Aggregator)
    : Result<SpaceState>
    decreases |sets|
  {
    if sets == [] then Success(sp)
    else
      match CubeRelation(t, sets[0], specs, ev)
      case Failure(e) => Failure(e)
      case Success(df) =>
        match AddChecked(sp, df, MakeSchema(sets[0]))
        case Failure(e) => Failure(e)
        case Success(sp') => CubeFold(sp', t, sets[1..], specs, ev)
  }

  /** `CreateRelationSpaceByCube(keys, aggregations)` on table `t`: the power set of
      the keys, in `itertools` order, added to a space whose dimensions are the keys. */
  function CubeSpec(keys: seq<Attr>, aggregations: seq<(Attr, string)>, t: Table, ev: Aggregator)
    : Result<SpaceState>
  {
    CubeFold(SpaceState(MakeSchema(keys), []), t, PowerSet(keys), CubeAggs(aggregations), ev)
  }

  /** The table a grouping set yields when nothing fails. */
  function CubeTable(t: Table, group: seq<Attr>, specs: seq<AggSpec>, ev: Aggregator): Table {
    if group == [] then TotalTable(t, specs, ev) else GroupedTable(t, group, specs, ev)
  }

  /** The relations the grouping sets yield when nothing fails, in order. */
  function CubeRelations(t: Table, sets: seq<seq<Attr>>, specs: seq<AggSpec>, ev: Aggregator)
    : (rs: seq<(RelationSchema, Table)>)
    ensures |rs| == |sets|
  {
    seq(|sets|, i requires 0 <= i < |sets| => (MakeSchema(sets[i]), CubeTable(t, sets[i], specs, ev)))
  }

  /** The cube is well posed: the keys are distinct columns of the table, there is at
      least one aggregation, and every aggregated column is a column of the table that
      is not a key. */
  ghost predicate CubeReady(t: Table, keys: seq<Attr>, aggregations: seq<(Attr, string)>) {
    NoRepeats(keys) && aggregations != [] &&
    (forall k :: k in keys ==> k in t.columns) &&
    (forall i :: 0 <= i < |aggregations| ==>
       aggregations[i].0 in t.columns && aggregations[i].0 !in keys)
  }

  /** With no aggregations the cube fails at once: its first grouping set is the grand
      total, and `df.agg({})` raises. */
  lemma CubeNoAggregationsFails(keys: seq<Attr>, t: Table, ev: Aggregator)
    ensures CubeSpec(keys, [], t, ev) == Failure(ValueError(NoObjectsMessage))
  {
    UpToStartsEmpty(keys, |keys|);
  }

  /** One grouping set within the keys is aggregated without error and passes the
      admissibility check. */
  lemma CubeStep(sp: SpaceState, t: Table, group: seq<Attr>, keys: seq<Attr>,
                 aggregations: seq<(Attr, string)>, ev: Aggregator)
    requires CubeReady(t, keys, aggregations)
    requires sp.dimensions == MakeSchema(keys) && Members(group) <= Members(keys) && NoRepeats(group)
    ensures CubeRelation(t, group, CubeAggs(aggregations), ev)
      == Success(CubeTable(t, group, CubeAggs(aggregations), ev))
    ensures Admissible(sp.dimensions, CubeTable(t, group, CubeAggs(aggregations), ev), MakeSchema(group))
  {
    var specs := CubeAggs(aggregations);
    var df := CubeTable(t, group, specs, ev);
    MakeSchemaMembers(keys);
    MakeSchemaMembers(group);
    assert forall i :: 0 <= i < |specs| ==> specs[i].source in t.columns;
    if group != [] {
      assert forall i :: 0 <= i < |group| ==> group[i] in t.columns by {
        forall i | 0 <= i < |group| ensures group[i] in t.columns {
          assert group[i] in Members(group);
        }
      }
      forall i | 0 <= i < |specs| ensures specs[i].output !in group {
        assert specs[i].output !in Members(group);
      }
    }
    assert ColumnSet(df) * Members(keys) == Members(group) by {
      forall c ensures c in ColumnSet(df) * Members(keys) <==> c in Members(group) {
        if c in Outputs(specs) {
          var i :| 0 <= i < |specs| && Outputs(specs)[i] == c;
          assert c == aggregations[i].0 && c !in keys;
        }
        if group == [] {
          assert df.columns == Outputs(specs);
        } else {
          assert df.columns == group + Outputs(specs);
        }
      }
    }
  }

  /** A grouping set whose schema is new is appended to the space. */
  lemma CubeAppend(sp: SpaceState, t: Table, group: seq<Attr>, keys: seq<Attr>,
                   aggregations: seq<(Attr, string)>, ev: Aggregator)
    requires CubeReady(t, keys, aggregations)
    requires sp.dimensions == MakeSchema(keys) && Members(group) <= Members(keys) && NoRepeats(group)
    requires DistinctKeys(sp.relations) && MakeSchema(group) !in Keys(sp.relations)
    ensures var df := CubeTable(t, group, CubeAggs(aggregations), ev);
      CubeRelation(t, group, CubeAggs(aggregations), ev) == Success(df) &&
      AddChecked(sp, df, MakeSchema(group)) ==
        Success(SpaceState(sp.dimensions, sp.relations + [(MakeSchema(group), df)])) &&
      DistinctKeys(sp.relations + [(MakeSchema(group), df)]) &&
      Keys(sp.relations + [(MakeSchema(group), df)]) == Keys(sp.relations) + [MakeSchema(group)]
  {
    var df := CubeTable(t, group, CubeAggs(aggregations), ev);
    CubeStep(sp, t, group, keys, aggregations, ev);
    PutNewKeyAppends(sp.relations, MakeSchema(group), df);
    PutDistinct(sp.relations, MakeSchema(group), df);
  }

  lemma CubeRelationsCons(t: Table, sets: seq<seq<Attr>>, specs: seq<AggSpec>, ev: Aggregator)
    requires sets != []
    ensures CubeRelations(t, sets, specs, ev) ==
      [(MakeSchema(sets[0]), CubeTable(t, sets[0], specs, ev))] + CubeRelations(t, sets[1..], specs, ev)
  {
    var rs, tl := CubeRelations(t, sets, specs, ev), CubeRelations(t, sets[1..], specs, ev);
    var cons := [(MakeSchema(sets[0]), CubeTable(t, sets[0], specs, ev))] + tl;
    assert rs[0] == cons[0];
    forall i | 1 <= i < |rs| ensures rs[i] == cons[i] {
      assert sets[1..][i - 1] == sets[i];
      assert cons[i] == tl[i - 1];
    }
    assert rs == cons;
  }

  /** The grouping sets of a cube: repeat-free lists of keys, no two of them the same set. */
  ghost predicate GroupingSetsOf(sets: seq<seq<Attr>>, keys: seq<Attr>) {
    (forall i :: 0 <= i < |sets| ==> Members(sets[i]) <= Members(keys) && NoRepeats(sets[i])) &&
    DistinctSets(sets)
  }

  /** Dropping the first grouping set leaves grouping sets. */
  lemma GroupingSetsTail(sets: seq<seq<Attr>>, keys: seq<Attr>)
    requires GroupingSetsOf(sets, keys) && sets != []
    ensures Members(sets[0]) <= Members(keys) && NoRepeats(sets[0])
    ensures GroupingSetsOf(sets[1..], keys)
  {
    var rest := sets[1..];
    assert forall i :: 0 <= i < |rest| ==> rest[i] == sets[i + 1];
  }

  /** From a space without those schemas, the grouping sets add exactly their relations,
      in order. */
  lemma {:induction false} CubeFoldShape(sp: SpaceState, t: Table, sets: seq<seq<Attr>>, keys: seq<Attr>,
                                         aggregations: seq<(Attr, string)>, ev: Aggregator)
    requires CubeReady(t, keys, aggregations)
    requires sp.dimensions == MakeSchema(keys) && DistinctKeys(sp.relations)
    requires GroupingSetsOf(sets, keys)
    requires forall i :: 0 <= i < |sets| ==> MakeSchema(sets[i]) !in Keys(sp.relations)
    ensures CubeFold(sp, t, sets, CubeAggs(aggregations), ev) ==
      Success(SpaceState(sp.dimensions, sp.relations + CubeRelations(t, sets, CubeAggs(aggregations), ev)))
    decreases |sets|
  {
    var specs := CubeAggs(aggregations);
    if sets == [] {
      assert sp.relations + CubeRelations(t, sets, specs, ev) == sp.relations;
    } else {
      var g, rest := sets[0], sets[1..];
      var df := CubeTable(t, g, specs, ev);
      GroupingSetsTail(sets, keys);
      CubeAppend(sp, t, g, keys, aggregations, ev);
      var sp' := SpaceState(sp.dimensions, sp.relations + [(MakeSchema(g), df)]);
      assert CubeFold(sp, t, sets, specs, ev) == CubeFold(sp', t, rest, specs, ev);
      forall i | 0 <= i < |rest| ensures MakeSchema(rest[i]) !in Keys(sp'.relations) {
        assert rest[i] == sets[i + 1];
        MakeSchemaSeparates(sets[0], sets[i + 1]);
      }
      GroupingSetsTail(sets, keys);
      CubeFoldShape(sp', t, rest, keys, aggregations, ev);
      CubeRelationsCons(t, sets, specs, ev);
      AppendAssociates(sp.relations, (MakeSchema(g), df), CubeRelations(t, rest, specs, ev));
    }
  }

  /** Moving the parentheses of a concatenation. */
  lemma AppendAssociates<T>(a: seq<T>, x: T, b: seq<T>)
    ensures (a + [x]) + b == a + ([x] + b)
  {
  }

  /** The relations of the power set of distinct keys: one per subset of the keys,
      under pairwise different schemas, the grand total first. */
  lemma PowerSetRelations(keys: seq<Attr>, t: Table, specs: seq<AggSpec>, ev: Aggregator)
    requires NoRepeats(keys)
    ensures |CubeRelations(t, PowerSet(keys), specs, ev)| == Pow2(|keys|)
    ensures DistinctKeys(CubeRelations(t, PowerSet(keys), specs, ev))
    ensures forall subset :: subset <= Members(keys) ==>
      exists c :: Members(c) == subset && MakeSchema(c) in Keys(CubeRelations(t, PowerSet(keys), specs, ev))
    ensures CubeRelations(t, PowerSet(keys), specs, ev)[0] == (MakeSchema([]), TotalTable(t, specs, ev))
  {
    var sets := PowerSet(keys);
    var rels := CubeRelations(t, sets, specs, ev);
    PowerSetExactlyOnce(keys);
    PowerSetCount(keys);
    UpToStartsEmpty(keys, |keys|);
    assert DistinctKeys(rels) by {
      forall i, j | 0 <= i < j < |rels| ensures rels[i].0 != rels[j].0 {
        MakeSchemaSeparates(sets[i], sets[j]);
      }
    }
    forall subset | subset <= Members(keys)
      ensures exists c :: Members(c) == subset && MakeSchema(c) in Keys(rels)
    {
      var c :| c in sets && Members(c) == subset;
      var i :| 0 <= i < |sets| && sets[i] == c;
      assert Keys(rels)[i] == MakeSchema(c);
    }
  }

  /** With k distinct grouping keys the cube succeeds and stores exactly 2^k relations,
      one per subset of the keys and each under a different schema, in the order of the
      power set; the first is the single-row grand total under the empty schema. Its
      dimensions are `RelationSchema(keys)`. */
  lemma CubeShape(keys: seq<Attr>, aggregations: seq<(Attr, string)>, t: Table, ev: Aggregator)
    requires CubeReady(t, keys, aggregations)
    ensures CubeSpec(keys, aggregations, t, ev).Success?
    ensures CubeSpec(keys, aggregations, t, ev).value.dimensions == MakeSchema(keys)
    ensures |CubeSpec(keys, aggregations, t, ev).value.relations| == Pow2(|keys|)
    ensures DistinctKeys(CubeSpec(keys, aggregations, t, ev).value.relations)
    ensures forall i :: 0 <= i < |CubeSpec(keys, aggregations, t, ev).value.relations| ==>
      i < |PowerSet(keys)| &&
      CubeSpec(keys, aggregations, t, ev).value.relations[i].0 == MakeSchema(PowerSet(keys)[i])
    ensures forall subset :: subset <= Members(keys) ==>
      exists c :: Members(c) == subset && MakeSchema(c) in Keys(CubeSpec(keys, aggregations, t, ev).value.relations)
    ensures |CubeSpec(keys, aggregations, t, ev).value.relations| > 0 &&
      CubeSpec(keys, aggregations, t, ev).value.relations[0] == (MakeSchema([]), TotalTable(t, CubeAggs(aggregations), ev))
    ensures |CubeSpec(keys, aggregations, t, ev).value.relations[0].1.rows| == 1
  {
    var specs := CubeAggs(aggregations);
    CubeIsPowerSetRelations(keys, aggregations, t, ev);
    PowerSetRelations(keys, t, specs, ev);
    var rels := CubeRelations(t, PowerSet(keys), specs, ev);
    assert CubeSpec(keys, aggregations, t, ev).value.relations == rels;
    assert |rels| > 0 && |rels[0].1.rows| == 1;
  }

  /** The cube over distinct keys succeeds with one relation per element of the power set,
      in the power set's order, under `RelationSchema(keys)`. */
  lemma CubeIsPowerSetRelations(keys: seq<Attr>, aggregations: seq<(Attr, string)>, t: Table, ev: Aggregator)
    requires CubeReady(t, keys, aggregations)
    ensures CubeSpec(keys, aggregations, t, ev) ==
      Success(SpaceState(MakeSchema(keys), CubeRelations(t, PowerSet(keys), CubeAggs(aggregations), ev)))
  {
    var sets := PowerSet(keys);
    var specs := CubeAggs(aggregations);
    var sp0 := SpaceState(MakeSchema(keys), []);
    UpToShape(keys, |keys|);
    PowerSetExactlyOnce(keys);
    CubeFoldShape(sp0, t, sets, keys, aggregations, ev);
    assert [] + CubeRelations(t, sets, specs, ev) == CubeRelations(t, sets, specs, ev);
  }

  /** Two grouping keys, such as `[Device, Browser]`, give four relations: the grand
      total, one per key and one for both keys. */
  lemma TwoKeyCubeRelations(x: Attr, y: Attr, t: Table, aggregations: seq<(Attr, string)>, ev: Aggregator)
    requires CubeReady(t, [x, y], aggregations)
    ensures CubeSpec([x, y], aggregations, t, ev).Success?
    ensures Keys(CubeSpec([x, y], aggregations, t, ev).value.relations) ==
      [MakeSchema([]), MakeSchema([x]), MakeSchema([y]), MakeSchema([x, y])]
  {
    var keys: seq<Attr> := [x, y];
    CubeIsPowerSetRelations(keys, aggregations, t, ev);
    TwoKeyCube(x, y);
    FourSchemas(t, [], [x], [y], [x, y], CubeAggs(aggregations), ev);
  }

  /** Four grouping sets give relations under their four schemas. */
  lemma FourSchemas(t: Table, a: seq<Attr>, b: seq<Attr>, c: seq<Attr>, d: seq<Attr>,
                    specs: seq<AggSpec>, ev: Aggregator)
    ensures Keys(CubeRelations(t, [a, b, c, d], specs, ev)) ==
      [MakeSchema(a), MakeSchema(b), MakeSchema(c), MakeSchema(d)]
  {
    var sets := [a, b, c, d];
    var rels := CubeRelations(t, sets, specs, ev);
    var expected := [MakeSchema(a), MakeSchema(b), MakeSchema(c), MakeSchema(d)];
    forall i | 0 <= i < 4 ensures Keys(rels)[i] == expected[i] {
      assert rels[i].0 == MakeSchema(sets[i]);
    }
  }

  method Cube(keys: seq<Attr>, aggregations: seq<(Attr, string)>, t: Table, ev: Aggregator)
    returns (r: Result<RelationSpace>)
    ensures r.Success? <==> CubeSpec(keys, aggregations, t, ev).Success?
    ensures r.Success? ==> fresh(r.value) && r.value.State() == CubeSpec(keys, aggregations, t, ev).value
    ensures r.Failure? ==> r.error == CubeSpec(keys, aggregations, t, ev).error
  {
    var space := new RelationSpace(MakeSchema(keys));
    var specs := CubeAggs(aggregations);
    var sets := PowerSet(keys);
    var i := 0;
    while i < |sets|
      invariant 0 <= i <= |sets|
      invariant CubeFold(space.State(), t, sets[i..], specs, ev) == CubeSpec(keys, aggregations, t, ev)
    {
      assert sets[i..][0] == sets[i] && sets[i..][1..] == sets[i + 1..];
      ghost var before := space.State();
      var group := sets[i];
      var agg := CubeRelation(t, group, specs, ev);
      if agg.Failure? {
        assert CubeFold(before, t, sets[i..], specs, ev) == Failure(agg.error);
        return Failure(agg.error);
      }
      var outcome := space.AddRelationChecked(agg.value, MakeSchema(group));
      if outcome.Fail? {
        assert CubeFold(before, t, sets[i..], specs, ev) == Failure(outcome.error);
        return Failure(outcome.error);
      }
      assert CubeFold(before, t, sets[i..], specs, ev) == CubeFold(space.State(), t, sets[i + 1..], specs, ev);
      i := i + 1;
    }
    return Success(space);
  }

  // ---------------------------------------------------------------------------
  // SliceRelation(...) as the operators call it
  // ---------------------------------------------------------------------------

  /** `SliceRelation(*args)`: the constructor takes exactly one argument, the dimensions. */
  function NewSliceRelation(args: seq<RelationSchema>): (r: Result<SliceState>)
    ensures r.Success? <==> |args| == 1
    ensures r.Success? ==> r.value.dimensions == args[0] && r.value.data == []
    ensures r.Failure? ==> r.error.TypeError?
  {
    if |args| == 1 then Success(SliceState(args[0], []))
    else Failure(TypeError("SliceRelation() takes exactly one argument: dimensions"))
  }

  // ---------------------------------------------------------------------------
  // Represent
  // ---------------------------------------------------------------------------

  /** `[col for col in columns if col != key]`. */
  function FeatureCols(columns: seq<Attr>, key: Attr): (r: seq<Attr>)
    ensures forall c :: c in r <==> c in columns && c != key
  {
    if columns == [] then []
    else
      var init, last := columns[..|columns| - 1], columns[|columns| - 1];
      assert columns == init + [last];
      FeatureCols(init, key) + (if last != key then [last] else [])
  }

  /** `create_relation_tuple({key: value})` for the value of a group. */
  function GroupRegion(key: Attr, g: Group): RelationTuple
    requires |g.key| == 1
  {
    CreateRelationTuple([(key, g.key[0])])
  }

  /** Adds every group of one relation as a region with one feature table. */
  function AddGroups(acc: SliceData, key: Attr, cols: seq<Attr>, gs: seq<Group>): SliceData
    requires forall i :: 0 <= i < |gs| ==> |gs[i].key| == 1
  {
    if gs == [] then acc
    else
      var last := gs[|gs| - 1];
      PutIn(AddGroups(acc, key, cols, gs[..|gs| - 1]), GroupRegion(key, last), MakeSchema(cols),
            Project(last.table, cols))
  }

  /** One relation: its groups if it has the region key, nothing otherwise. */
  function RepresentStep(acc: SliceData, key: Attr, df: Table): SliceData {
    if key in df.columns then AddGroups(acc, key, FeatureCols(df.columns, key), Groups(df, [key]))
    else acc
  }

  /** The relations in order; only those with the region key contribute. */
  function RepresentData(acc: SliceData, key: Attr, rels: seq<(RelationSchema, Table)>): SliceData {
    if rels == [] then acc
    else RepresentStep(RepresentData(acc, key, rels[..|rels| - 1]), key, rels[|rels| - 1].1)
  }

  /** `Represent(key)` on a space, the slice relation built by `SliceRelation(*args)`. */
  function RepresentWith(args: seq<RelationSchema>, key: Attr, sp: SpaceState): Result<SliceState> {
    match NewSliceRelation(args)
    case Failure(e) => Failure(e)
    case Success(s0) => Success(SliceState(s0.dimensions, RepresentData(s0.data, key, sp.relations)))
  }

  /** A feature table comes from a relation with the region key: its schema is
      `RelationSchema` of that relation's other columns, which are its columns. */
  ghost predicate FeatureFrom(q: (RelationSchema, Table), key: Attr, rels: seq<(RelationSchema, Table)>) {
    exists i :: 0 <= i < |rels| && key in rels[i].1.columns &&
      q.0 == MakeSchema(FeatureCols(rels[i].1.columns, key)) &&
      q.1.columns == FeatureCols(rels[i].1.columns, key)
  }

  /** A region is the single pair `(key, value)` and its features come from relations
      with the key. */
  ghost predicate RegionFrom(p: (RelationTuple, Features), key: Attr, rels: seq<(RelationSchema, Table)>) {
    |p.0| == 1 && p.0[0].0 == key && forall q :: q in p.1 ==> FeatureFrom(q, key, rels)
  }

  lemma PutInFrom(acc: SliceData, region: RelationTuple, schema: RelationSchema, table: Table,
                  key: Attr, rels: seq<(RelationSchema, Table)>)
    requires forall p :: p in acc ==> RegionFrom(p, key, rels)
    requires |region| == 1 && region[0].0 == key && FeatureFrom((schema, table), key, rels)
    ensures forall p :: p in PutIn(acc, region, schema, table) ==> RegionFrom(p, key, rels)
  {
    var inner := GetOr(acc, region, []);
    assert forall q :: q in inner ==> FeatureFrom(q, key, rels) by {
      if Get(acc, region).Some? {
        assert (region, inner) in acc;
      }
    }
    PutElements(inner, schema, table);
    PutElements(acc, region, Put(inner, schema, table));
  }

  lemma {:induction false} AddGroupsShape(acc: SliceData, key: Attr, k: nat, gs: seq<Group>,
                                          rels: seq<(RelationSchema, Table)>)
    requires k < |rels| && key in rels[k].1.columns
    requires forall i :: 0 <= i < |gs| ==> |gs[i].key| == 1
    requires SliceShape(acc) && forall p :: p in acc ==> RegionFrom(p, key, rels)
    ensures SliceShape(AddGroups(acc, key, FeatureCols(rels[k].1.columns, key), gs))
    ensures forall p :: p in AddGroups(acc, key, FeatureCols(rels[k].1.columns, key), gs) ==>
      RegionFrom(p, key, rels)
  {
    if gs != [] {
      var cols := FeatureCols(rels[k].1.columns, key);
      var last := gs[|gs| - 1];
      AddGroupsShape(acc, key, k, gs[..|gs| - 1], rels);
      var sofar := AddGroups(acc, key, cols, gs[..|gs| - 1]);
      SingleRelationTuple(key, last.key[0]);
      PutInKeepsShape(sofar, GroupRegion(key, last), MakeSchema(cols), Project(last.table, cols));
      PutInFrom(sofar, GroupRegion(key, last), MakeSchema(cols), Project(last.table, cols), key, rels);
    }
  }

  lemma {:induction false} RepresentDataShape(key: Attr, rels: seq<(RelationSchema, Table)>)
    ensures SliceShape(RepresentData([], key, rels))
    ensures forall p :: p in RepresentData([], key, rels) ==> RegionFrom(p, key, rels)
  {
    if rels != [] {
      var init := rels[..|rels| - 1];
      RepresentDataShape(key, init);
      var sofar := RepresentData([], key, init);
      forall p | p in sofar ensures RegionFrom(p, key, rels) {
        forall q | q in p.1 ensures FeatureFrom(q, key, rels) {
          assert FeatureFrom(q, key, init);
          var i :| 0 <= i < |init| && key in init[i].1.columns &&
            q.0 == MakeSchema(FeatureCols(init[i].1.columns, key)) &&
            q.1.columns == FeatureCols(init[i].1.columns, key);
          assert rels[i] == init[i];
        }
      }
      var df := rels[|rels| - 1].1;
      if key in df.columns {
        AddGroupsShape(sofar, key, |rels| - 1, Groups(df, [key]), rels);
      }
    }
  }

  /** `Represent(key)` with the space's dimensions: each region occurs once and is the
      single pair `(key, value)`; every feature table comes from a relation that has the
      key column, under `RelationSchema` of that relation's other columns. */
  lemma RepresentShape(key: Attr, sp: SpaceState)
    ensures RepresentWith([sp.dimensions], key, sp).Success?
    ensures RepresentWith([sp.dimensions], key, sp).value.dimensions == sp.dimensions
    ensures SliceShape(RepresentWith([sp.dimensions], key, sp).value.data)
    ensures forall p :: p in RepresentWith([sp.dimensions], key, sp).value.data ==>
      RegionFrom(p, key, sp.relations)
  {
    RepresentDataShape(key, sp.relations);
  }

  /** `df` has the region key column and some row whose key cell is the value `v`
      (pandas drops a missing key). */
  ghost predicate KeyValueIn(df: Table, key: Attr, v: Value) {
    key in df.columns && v != Missing && exists r :: r in df.rows && Cell(r, key) == v
  }

  /** The feature table `Represent(key)` is meant to leave under region `(key, v)` and
      `schema`: the rows of the last relation with the key column, a row with key value
      `v` and feature schema `schema`, those rows with key value `v` kept, projected on
      the relation's other columns. */
  ghost function RepresentedTable(rels: seq<(RelationSchema, Table)>, key: Attr, v: Value, schema: RelationSchema)
    : Option<Table>
    decreases |rels|
  {
    if rels == [] then None
    else
      var df := rels[|rels| - 1].1;
      var cols := FeatureCols(df.columns, key);
      if KeyValueIn(df, key, v) && MakeSchema(cols) == schema
      then Some(Project(Table(df.columns, RowsWithKey(df.rows, [key], [v])), cols))
      else RepresentedTable(rels[..|rels| - 1], key, v, schema)
  }

  /** The groups of one relation, added in order: region `(key, v)` gets, under the
      schema of `cols`, the projection of the group with key `[v]`; every other entry is
      what it was. */
  lemma {:induction false} AddGroupsGetIn(acc: SliceData, key: Attr, cols: seq<Attr>, gs: seq<Group>,
                                          region: RelationTuple, schema: RelationSchema)
    requires forall i :: 0 <= i < |gs| ==> |gs[i].key| == 1
    ensures GetIn(AddGroups(acc, key, cols, gs), region, schema) ==
      if schema == MakeSchema(cols) && IsKeyRegion(region, key) && GroupWith(gs, [region[0].1]).Some?
      then Some(Project(GroupWith(gs, [region[0].1]).value.table, cols))
      else GetIn(acc, region, schema)
    decreases |gs|
  {
    if gs != [] {
      var init, last := gs[..|gs| - 1], gs[|gs| - 1];
      AddGroupsGetIn(acc, key, cols, init, region, schema);
      LastGroupRegion(key, last, region);
      PutInGetIn(AddGroups(acc, key, cols, init), GroupRegion(key, last), MakeSchema(cols),
                 Project(last.table, cols), region, schema);
    }
  }

  /** The regions after adding the groups: the earlier ones and `(key, v)` for each
      group key `[v]`. */
  lemma {:induction false} AddGroupsRegions(acc: SliceData, key: Attr, cols: seq<Attr>, gs: seq<Group>,
                                            region: RelationTuple)
    requires forall i :: 0 <= i < |gs| ==> |gs[i].key| == 1
    ensures Get(AddGroups(acc, key, cols, gs), region).Some? <==>
      Get(acc, region).Some? || (IsKeyRegion(region, key) && GroupWith(gs, [region[0].1]).Some?)
    decreases |gs|
  {
    if gs != [] {
      var init, last := gs[..|gs| - 1], gs[|gs| - 1];
      AddGroupsRegions(acc, key, cols, init, region);
      LastGroupRegion(key, last, region);
      PutInGet(AddGroups(acc, key, cols, init), GroupRegion(key, last), MakeSchema(cols), Project(last.table, cols));
    }
  }

  /** A region is the single pair `(key, v)`. */
  predicate IsKeyRegion(region: RelationTuple, key: Attr) {
    |region| == 1 && region[0].0 == key
  }

  /** A group's region is `region` exactly when `region` is `(key, v)` and the group's
      key is `[v]`. */
  lemma LastGroupRegion(key: Attr, g: Group, region: RelationTuple)
    requires |g.key| == 1
    ensures region == GroupRegion(key, g) <==> IsKeyRegion(region, key) && g.key == [region[0].1]
  {
    SingleRelationTuple(key, g.key[0]);
    assert g.key == [g.key[0]];
  }

  /** The group of one relation with key `[v]`, when the relation has the key column. */
  lemma KeyGroup(df: Table, key: Attr, v: Value)
    requires key in df.columns
    ensures GroupWith(Groups(df, [key]), [v]).Some? <==> KeyValueIn(df, key, v)
    ensures GroupWith(Groups(df, [key]), [v]).Some? ==>
      GroupWith(Groups(df, [key]), [v]).value.table == Table(df.columns, RowsWithKey(df.rows, [key], [v]))
  {
    GroupsPartition(df, [key], [v]);
    forall r ensures KeyOf(r, [key]) == [v] <==> Cell(r, key) == v {
      assert KeyOf(r, [key]) == [Cell(r, key)];
    }
  }

  /** Over all relations, `Represent(key)` leaves exactly `RepresentedTable` under each
      region and schema, and has a region `(key, v)` exactly when some relation has the
      key column and a row with key value `v`. */
  lemma {:induction false} RepresentDataGetIn(key: Attr, rels: seq<(RelationSchema, Table)>, v: Value,
                                              schema: RelationSchema)
    ensures GetIn(RepresentData([], key, rels), [(key, v)], schema) == RepresentedTable(rels, key, v, schema)
    decreases |rels|
  {
    if rels != [] {
      var init, df := rels[..|rels| - 1], rels[|rels| - 1].1;
      RepresentDataGetIn(key, init, v, schema);
      if key in df.columns {
        KeyGroup(df, key, v);
        AddGroupsGetIn(RepresentData([], key, init), key, FeatureCols(df.columns, key), Groups(df, [key]),
                       [(key, v)], schema);
      }
    }
  }

  /** `Represent(key)` has region `(key, v)` exactly when some relation has the key
      column and a row with key value `v`. */
  lemma {:induction false} RepresentDataRegions(key: Attr, rels: seq<(RelationSchema, Table)>, v: Value)
    ensures Get(RepresentData([], key, rels), [(key, v)]).Some? <==>
      exists i :: 0 <= i < |rels| && KeyValueIn(rels[i].1, key, v)
    decreases |rels|
  {
    if rels != [] {
      var init := rels[..|rels| - 1];
      RepresentDataRegions(key, init, v);
      RepresentStepRegion(RepresentData([], key, init), key, rels[|rels| - 1].1, v);
      assert forall i :: 0 <= i < |init| ==> init[i] == rels[i];
      if exists i :: 0 <= i < |rels| && KeyValueIn(rels[i].1, key, v) {
        var i :| 0 <= i < |rels| && KeyValueIn(rels[i].1, key, v);
        assert i < |init| || i == |rels| - 1;
      }
    }
  }

  /** One relation adds region `(key, v)` exactly when it has a row with key value `v`. */
  lemma RepresentStepRegion(acc: SliceData, key: Attr, df: Table, v: Value)
    ensures Get(RepresentStep(acc, key, df), [(key, v)]).Some? <==>
      Get(acc, [(key, v)]).Some? || KeyValueIn(df, key, v)
  {
    if key in df.columns {
      KeyGroup(df, key, v);
      AddGroupsRegions(acc, key, FeatureCols(df.columns, key), Groups(df, [key]), [(key, v)]);
    }
  }

  /** Regions other than a single `(key, v)` pair never occur. */
  lemma RepresentDataOtherRegions(key: Attr, rels: seq<(RelationSchema, Table)>,
                                   region: RelationTuple)
    requires !IsKeyRegion(region, key)
    ensures Get(RepresentData([], key, rels), region).None?
  {
    RepresentDataShape(key, rels);
  }

  /** `RepresentedTable` is the projection from the last relation that qualifies: the
      key column, a row with key value `v`, and the feature schema asked for. */
  lemma {:induction false} RepresentedTableLast(rels: seq<(RelationSchema, Table)>, key: Attr, v: Value, i: nat)
    requires i < |rels| && KeyValueIn(rels[i].1, key, v)
    requires forall j :: i < j < |rels| && KeyValueIn(rels[j].1, key, v) ==>
      MakeSchema(FeatureCols(rels[j].1.columns, key)) != MakeSchema(FeatureCols(rels[i].1.columns, key))
    ensures var df := rels[i].1;
      RepresentedTable(rels, key, v, MakeSchema(FeatureCols(df.columns, key))) ==
        Some(Project(Table(df.columns, RowsWithKey(df.rows, [key], [v])), FeatureCols(df.columns, key)))
    decreases |rels|
  {
    if i < |rels| - 1 {
      var init := rels[..|rels| - 1];
      assert init[i] == rels[i];
      forall j | i < j < |init| && KeyValueIn(init[j].1, key, v)
        ensures MakeSchema(FeatureCols(init[j].1.columns, key)) != MakeSchema(FeatureCols(init[i].1.columns, key))
      {
        assert init[j] == rels[j];
      }
      RepresentedTableLast(init, key, v, i);
    }
  }

  /** `Represent(key)` partitions the relations that have the key column by its value:
      the result has region `(key, v)` exactly when some such relation has a row with key
      value `v`, no other regions, and under each schema the table `RepresentedTable`
      names: the projection of the rows with key value `v` of the last relation with that
      feature schema. */
  lemma RepresentContents(key: Attr, sp: SpaceState, v: Value, schema: RelationSchema, region: RelationTuple)
    ensures var data := RepresentWith([sp.dimensions], key, sp).value.data;
      (Get(data, [(key, v)]).Some? <==> exists i :: 0 <= i < |sp.relations| && KeyValueIn(sp.relations[i].1, key, v)) &&
      GetIn(data, [(key, v)], schema) == RepresentedTable(sp.relations, key, v, schema) &&
      (!IsKeyRegion(region, key) ==> Get(data, region).None?)
  {
    RepresentDataGetIn(key, sp.relations, v, schema);
    RepresentDataRegions(key, sp.relations, v);
    if !IsKeyRegion(region, key) {
      RepresentDataOtherRegions(key, sp.relations, region);
    }
  }

  /** As written, `Represent` calls `SliceRelation()` without the dimensions, so it
      raises `TypeError` on every relation space. */
  lemma RepresentAsWrittenFails(key: Attr, sp: SpaceState)
    ensures RepresentWith([], key, sp).Failure? && RepresentWith([], key, sp).error.TypeError?
  {
  }

  method RepresentSlices(key: Attr, space: RelationSpace) returns (out: SliceRelation)
    ensures fresh(out) && out.Valid()
    ensures Success(out.State()) == RepresentWith([space.dimensions], key, space.State())
  {
    out := new SliceRelation(space.dimensions);
    var rels := space.relations;
    var i := 0;
    while i < |rels|
      invariant 0 <= i <= |rels|
      invariant out.dimensions == space.dimensions && out.Valid()
      invariant out.data == RepresentData([], key, rels[..i])
    {
      RepresentDataSnoc(key, rels, i);
      RepresentRelation(out, key, rels[i].1);
      i := i + 1;
    }
    assert rels[..i] == rels;
  }

  lemma RepresentDataSnoc(key: Attr, rels: seq<(RelationSchema, Table)>, i: nat)
    requires i < |rels|
    ensures RepresentData([], key, rels[..i + 1]) == RepresentStep(RepresentData([], key, rels[..i]), key, rels[i].1)
  {
    assert rels[..i + 1][..i] == rels[..i];
    assert rels[..i + 1][i] == rels[i];
  }

  /** The slices of one relation: nothing unless it has the region key. */
  method RepresentRelation(out: SliceRelation, key: Attr, df: Table)
    requires out.Valid()
    modifies out
    ensures out.Valid()
    ensures out.data == RepresentStep(old(out.data), key, df)
  {
    if key in df.columns {
      AddGroupSlices(out, key, FeatureCols(df.columns, key), Groups(df, [key]));
    }
  }

  /** One `add_slice_tuple` per group of a relation, in group order. */
  method AddGroupSlices(out: SliceRelation, key: Attr, cols: seq<Attr>, gs: seq<Group>)
    requires out.Valid()
    requires forall i :: 0 <= i < |gs| ==> |gs[i].key| == 1
    modifies out
    ensures out.Valid()
    ensures out.data == AddGroups(old(out.data), key, cols, gs)
  {
    ghost var acc := out.data;
    var j := 0;
    while j < |gs|
      invariant 0 <= j <= |gs|
      invariant out.Valid()
      invariant out.data == AddGroups(acc, key, cols, gs[..j])
    {
      AddGroupsSnoc(acc, key, cols, gs, j);
      out.AddSliceTuple(GroupRegion(key, gs[j]), MakeSchema(cols), Project(gs[j].table, cols));
      j := j + 1;
    }
    assert gs[..j] == gs;
  }

  lemma AddGroupsSnoc(acc: SliceData, key: Attr, cols: seq<Attr>, gs: seq<Group>, j: nat)
    requires forall i :: 0 <= i < |gs| ==> |gs[i].key| == 1
    requires j < |gs|
    ensures AddGroups(acc, key, cols, gs[..j + 1]) ==
      PutIn(AddGroups(acc, key, cols, gs[..j]), GroupRegion(key, gs[j]), MakeSchema(cols), Project(gs[j].table, cols))
  {
    assert gs[..j + 1][..j] == gs[..j];
    assert gs[..j + 1][j] == gs[j];
  }

  // ---------------------------------------------------------------------------
  // SliceSelect
  // ---------------------------------------------------------------------------

  /** Adds the feature tables of one region, one `add_slice_tuple` each. */
  function CopyFeatures(acc: SliceData, region: RelationTuple, fs: Features): SliceData {
    if fs == [] then acc
    else
      var last := fs[|fs| - 1];
      PutIn(CopyFeatures(acc, region, fs[..|fs| - 1]), region, last.0, last.1)
  }

  /** The regions whose (region, features) satisfy the predicate, with their features. */
  function SelectData(acc: SliceData, pred: SlicePredicate, data: SliceData): SliceData {
    if data == [] then acc
    else SelectStep(SelectData(acc, pred, data[..|data| - 1]), pred, data[|data| - 1])
  }

  /** One region: copied with its features if the predicate holds, skipped otherwise. */
  function SelectStep(acc: SliceData, pred: SlicePredicate, p: (RelationTuple, Features)): SliceData {
    if pred(p.0, p.1) then CopyFeatures(acc, p.0, p.1) else acc
  }

  /** `SliceSelect(pred)` on a slice relation, the result built by `SliceRelation(*args)`. */
  function SelectWith(args: seq<RelationSchema>, pred: SlicePredicate, s: SliceState): Result<SliceState> {
    match NewSliceRelation(args)
    case Failure(e) => Failure(e)
    case Success(s0) => Success(SliceState(s0.dimensions, SelectData(s0.data, pred, s.data)))
  }

  /** Copying the features of a new region stores exactly those features under it. */
  lemma {:induction false} CopyFeaturesGet(acc: SliceData, region: RelationTuple, fs: Features)
    requires Get(acc, region).None? && DistinctKeys(fs)
    ensures fs == [] ==> CopyFeatures(acc, region, fs) == acc
    ensures fs != [] ==> Get(CopyFeatures(acc, region, fs), region) == Some(fs)
    ensures forall r :: r != region ==> Get(CopyFeatures(acc, region, fs), r) == Get(acc, r)
  {
    if fs != [] {
      var init, last := fs[..|fs| - 1], fs[|fs| - 1];
      assert fs == init + [last];
      LastKeyNew(fs);
      CopyFeaturesGet(acc, region, init);
      var sofar := CopyFeatures(acc, region, init);
      assert CopyFeatures(acc, region, fs) == PutIn(sofar, region, last.0, last.1);
      assert if init == [] then Get(sofar, region).None? else Get(sofar, region) == Some(init);
      PutInAppends(sofar, region, init, last);
      PutInOthers(sofar, region, last);
    }
  }

  /** The last key of a list of pairs without repeated keys is not among the earlier ones. */
  lemma LastKeyNew<K, V>(fs: seq<(K, V)>)
    requires fs != [] && DistinctKeys(fs)
    ensures DistinctKeys(fs[..|fs| - 1])
    ensures fs[|fs| - 1].0 !in Keys(fs[..|fs| - 1])
  {
    var init := fs[..|fs| - 1];
    forall i | 0 <= i < |init| ensures Keys(init)[i] != fs[|fs| - 1].0 {
      assert init[i] == fs[i];
    }
  }

  /** Adding a feature that is new to a region appends it to the region's features. */
  lemma PutInAppends(sofar: SliceData, region: RelationTuple, init: Features, last: (RelationSchema, Table))
    requires last.0 !in Keys(init)
    requires if init == [] then Get(sofar, region).None? else Get(sofar, region) == Some(init)
    ensures Get(PutIn(sofar, region, last.0, last.1), region) == Some(init + [last])
  {
    PutNewKeyAppends(init, last.0, last.1);
  }

  /** Adding a feature to a region leaves every other region as it was. */
  lemma PutInOthers(sofar: SliceData, region: RelationTuple, last: (RelationSchema, Table))
    ensures forall r :: r != region ==> Get(PutIn(sofar, region, last.0, last.1), r) == Get(sofar, r)
  {
  }

  /** `SliceSelect` keeps a region with all of its feature tables when the predicate
      holds on it, and drops it entirely otherwise. */
  lemma {:induction false} SelectDataGet(pred: SlicePredicate, data: SliceData)
    requires SliceShape(data)
    ensures forall r :: Get(SelectData([], pred, data), r) ==
                        (if r in Keys(data) && pred(r, GetOr(data, r, [])) then Get(data, r) else None)
  {
    if data != [] {
      var init, last := data[..|data| - 1], data[|data| - 1];
      assert data == init + [last];
      assert SliceShape(init) by {
        forall p | p in init ensures p in data { }
      }
      SelectDataGet(pred, init);
      GetAppend(init, last);
      assert last.0 !in Keys(init) by {
        forall i | 0 <= i < |init| ensures Keys(init)[i] != last.0 {
          assert init[i] == data[i];
        }
      }
      var sofar := SelectData([], pred, init);
      assert Get(sofar, last.0).None?;
      assert last in data;
      var res := SelectData([], pred, data);
      if pred(last.0, last.1) {
        CopyFeaturesGet(sofar, last.0, last.1);
        assert res == CopyFeatures(sofar, last.0, last.1);
      } else {
        assert res == sofar;
      }
      forall r ensures Get(res, r) ==
                       (if r in Keys(data) && pred(r, GetOr(data, r, [])) then Get(data, r) else None)
      {
        if r == last.0 {
          assert Get(data, r) == Some(last.1);
        } else {
          assert Get(data, r) == Get(init, r);
        }
      }
    }
  }

  /** The selection keeps the slice relation's dimensions. */
  lemma SelectShape(pred: SlicePredicate, s: SliceState)
    requires SliceShape(s.data)
    ensures SelectWith([s.dimensions], pred, s).Success?
    ensures SelectWith([s.dimensions], pred, s).value.dimensions == s.dimensions
    ensures forall r :: Get(SelectWith([s.dimensions], pred, s).value.data, r) ==
                        (if r in Keys(s.data) && pred(r, GetOr(s.data, r, [])) then Get(s.data, r) else None)
  {
    SelectDataGet(pred, s.data);
  }

  /** As written, `SliceSelect` calls `SliceRelation()` without the dimensions, so it
      raises `TypeError` on every slice relation. */
  lemma SelectAsWrittenFails(pred: SlicePredicate, s: SliceState)
    ensures SelectWith([], pred, s).Failure? && SelectWith([], pred, s).error.TypeError?
  {
  }

  method SelectSlices(pred: SlicePredicate, sr: SliceRelation) returns (out: SliceRelation)
    ensures fresh(out) && out.Valid()
    ensures Success(out.State()) == SelectWith([sr.dimensions], pred, sr.State())
  {
    out := new SliceRelation(sr.dimensions);
    var data := sr.data;
    var i := 0;
    while i < |data|
      invariant 0 <= i <= |data|
      invariant out.dimensions == sr.dimensions && out.Valid()
      invariant out.data == SelectData([], pred, data[..i])
    {
      SelectDataSnoc(pred, data, i);
      SelectRegion(out, pred, data[i]);
      i := i + 1;
    }
    assert data[..i] == data;
  }

  /** One region of the input: its feature tables are copied if the predicate holds. */
  method SelectRegion(out: SliceRelation, pred: SlicePredicate, p: (RelationTuple, Features))
    requires out.Valid()
    modifies out
    ensures out.Valid()
    ensures out.data == SelectStep(old(out.data), pred, p)
  {
    if pred(p.0, p.1) {
      CopyFeatureSlices(out, p.0, p.1);
    }
  }

  lemma SelectDataSnoc(pred: SlicePredicate, data: SliceData, i: nat)
    requires i < |data|
    ensures SelectData([], pred, data[..i + 1]) == SelectStep(SelectData([], pred, data[..i]), pred, data[i])
  {
    assert data[..i + 1][..i] == data[..i];
    assert data[..i + 1][i] == data[i];
  }

  /** One `add_slice_tuple` per feature table of a selected region. */
  method CopyFeatureSlices(out: SliceRelation, region: RelationTuple, features: Features)
    requires out.Valid()
    modifies out
    ensures out.Valid()
    ensures out.data == CopyFeatures(old(out.data), region, features)
  {
    ghost var acc := out.data;
    var j := 0;
    while j < |features|
      invariant 0 <= j <= |features|
      invariant out.Valid()
      invariant out.data == CopyFeatures(acc, region, features[..j])
    {
      CopyFeaturesSnoc(acc, region, features, j);
      out.AddSliceTuple(region, features[j].0, features[j].1);
      j := j + 1;
    }
    assert features[..j] == features;
  }

  lemma CopyFeaturesSnoc(acc: SliceData, region: RelationTuple, fs: Features, j: nat)
    requires j < |fs|
    ensures CopyFeatures(acc, region, fs[..j + 1]) ==
      PutIn(CopyFeatures(acc, region, fs[..j]), region, fs[j].0, fs[j].1)
  {
    assert fs[..j + 1][..j] == fs[..j];
    assert fs[..j + 1][j] == fs[j];
  }

  // ---------------------------------------------------------------------------
  // Drill-down regions
  // ---------------------------------------------------------------------------

  /** The region with its `i`-th item removed: the region one level up. */
  function WithoutItem(region: RelationTuple, i: nat): RelationTuple
    requires i < |region|
  {
    region[..i] + region[i + 1..]
  }

  /** A region descends from the drill-down parents when removing any one of its items
      gives a parent. */
  predicate IsDrillDownChild(region: RelationTuple, parents: set<RelationTuple>) {
    forall i :: 0 <= i < |region| ==> WithoutItem(region, i) in parents
  }

  /** The regions that descend from the drill-down parents, in order. */
  function DrillDown(data: SliceData, parents: set<RelationTuple>): SliceData {
    if data == [] then []
    else
      DrillDown(data[..|data| - 1], parents) +
      (if IsDrillDownChild(data[|data| - 1].0, parents) then [data[|data| - 1]] else [])
  }

  /** A region is kept exactly when it descends from the parents. */
  lemma {:induction false} DrillDownMembers(data: SliceData, parents: set<RelationTuple>)
    ensures forall p :: p in DrillDown(data, parents) <==> p in data && IsDrillDownChild(p.0, parents)
  {
    if data != [] {
      DrillDownMembers(data[..|data| - 1], parents);
      assert data == data[..|data| - 1] + [data[|data| - 1]];
    }
  }

  /** Of two regions, only the first of which descends from the parents, the drill-down
      keeps the first. */
  lemma DrillDownTwo(data: SliceData, parents: set<RelationTuple>)
    requires |data| == 2
    requires IsDrillDownChild(data[0].0, parents) && !IsDrillDownChild(data[1].0, parents)
    ensures Keys(DrillDown(data, parents)) == [data[0].0]
  {
    assert data[..1][..0] == [];
    assert DrillDown(data[..1], parents) == [data[0]];
  }

  /** Two different regions added one after the other are the two entries, in order. */
  lemma TwoRegions(r1: RelationTuple, r2: RelationTuple, schema: RelationSchema, t1: Table, t2: Table)
    requires r1 != r2
    ensures PutIn(PutIn([], r1, schema, t1), r2, schema, t2) == [(r1, [(schema, t1)]), (r2, [(schema, t2)])]
  {
    var first := PutIn([], r1, schema, t1);
    assert first == [(r1, [(schema, t1)])];
    assert Keys(first) == [r1];
    PutNewKeyAppends(first, r2, Put(GetOr(first, r2, []), schema, t2));
  }

  /** With parents {Device=d} and {Browser=b1}, the region (Device=d, Browser=b1) is kept
      and (Device=d, Browser=b2) is dropped, for any device and browsers `b1 != b2`. */
  lemma DrillDownByBrowser(device: (Attr, Value), b1: (Attr, Value), b2: (Attr, Value),
                           schema: RelationSchema, t1: Table, t2: Table)
    requires device.0 == "Device" && b1.0 == "Browser" && b2.0 == "Browser" && b1 != b2
    ensures var first := CreateRelationTuple([device, b1]);
      var second := CreateRelationTuple([device, b2]);
      var data := PutIn(PutIn([], first, schema, t1), second, schema, t2);
      var parents := {CreateRelationTuple([device]), CreateRelationTuple([b1])};
      first in Keys(DrillDown(data, parents)) && second !in Keys(DrillDown(data, parents))
  {
    SortedPair(device, b1);
    SortedPair(device, b2);
    SingleRelationTuple(device.0, device.1);
    SingleRelationTuple(b1.0, b1.1);
    assert b2 != device by {
      assert b2.0[0] != device.0[0];
    }
    DrillDownPair(device, b1, b2, schema, t1, t2);
    assert [b2, device] != [b1, device] by {
      assert [b2, device][0] != [b1, device][0];
    }
  }

  /** Regions `[y, x]` and `[z, x]` under parents `{[x], [y]}`: the first descends from
      the parents, the second does not, since `[z]` is not a parent. */
  lemma DrillDownPair(x: (Attr, Value), y: (Attr, Value), z: (Attr, Value), schema: RelationSchema,
                      t1: Table, t2: Table)
    requires z != x && z != y
    ensures var data := PutIn(PutIn([], [y, x], schema, t1), [z, x], schema, t2);
      Keys(DrillDown(data, {[x], [y]})) == [[y, x]]
  {
    PairChild(x, y, z);
    TwoRegions([y, x], [z, x], schema, t1, t2);
    DrillDownTwo([([y, x], [(schema, t1)]), ([z, x], [(schema, t2)])], {[x], [y]});
  }

  /** Under parents `{[x], [y]}`, `[y, x]` descends from them and `[z, x]` does not. */
  lemma PairChild(x: (Attr, Value), y: (Attr, Value), z: (Attr, Value))
    requires z != x && z != y
    ensures [y, x] != [z, x]
    ensures IsDrillDownChild([y, x], {[x], [y]})
    ensures !IsDrillDownChild([z, x], {[x], [y]})
  {
    var a: RelationTuple := [y, x];
    var b: RelationTuple := [z, x];
    assert a[0] != b[0];
    assert WithoutItem(a, 0) == [x];
    assert WithoutItem(a, 1) == [y];
    assert WithoutItem(b, 1) == [z];
  }

  /** A two-item relation tuple whose keys are Device and Browser lists Browser first. */
  lemma SortedPair(a: (Attr, Value), b: (Attr, Value))
    requires a.0 == "Device" && b.0 == "Browser"
    ensures CreateRelationTuple([a, b]) == [b, a]
  {
    var t := CreateRelationTuple([a, b]);
    assert multiset(t) == multiset([a, b]);
    assert |t| == 2;
    assert t[0] in multiset([a, b]) && t[1] in multiset([a, b]);
    assert Ordering.StrLe(ItemAttr(t[0]), ItemAttr(t[1]));
    assert !Ordering.StrLe("Device", "Browser");
    assert t[0] != a;
  }

  // ---------------------------------------------------------------------------
  // Running operators on objects
  // ---------------------------------------------------------------------------

  /** `MraData = Union[pd.DataFrame, RelationSpace, SliceRelation]`. */
  datatype Data =
    | Frame(frame: Table)
    | Space(space: RelationSpace)
    | Slices(slices: SliceRelation)

  function Footprint(d: Data): set<object> {
    if d.Space? then {d.space as object} else if d.Slices? then {d.slices as object} else {}
  }

  /** The value an object currently holds. */
  function ValueOf(d: Data): MraValue
    reads Footprint(d)
  {
    match d
    case Frame(t) => FrameValue(t)
    case Space(sp) => SpaceValue(sp.State())
    case Slices(sr) => SliceValue(sr.State())
  }

  /** `op(data)` on objects: it builds new objects and changes none, and its result
      holds what `Eval` says. */
  method Execute(op: Operator, d: Data, ghost v: MraValue, ev: Aggregator) returns (r: Result<Data>)
    requires ValueOf(d) == v
    ensures r.Success? <==> Eval(op, v, ev).Success?
    ensures r.Success? ==> ValueOf(r.value) == Eval(op, v, ev).value
    ensures r.Failure? ==> r.error == Eval(op, v, ev).error
    decreases op, 1
  {
    match op
    case CreateRelationSpaceByCube(keys, aggregations) =>
      if !d.Frame? {
        return Failure(TypeError(CubeTypeMessage));
      }
      var space := Cube(keys, aggregations, d.frame, ev);
      if space.Failure? {
        return Failure(space.error);
      }
      return Success(Space(space.value));
    case Represent(key) =>
      if !d.Space? {
        return Failure(TypeError(RepresentTypeMessage));
      }
      var slices := RepresentSlices(key, d.space);
      return Success(Slices(slices));
    case SliceSelect(pred) =>
      if !d.Slices? {
        return Failure(TypeError(SelectTypeMessage));
      }
      var slices := SelectSlices(pred, d.slices);
      return Success(Slices(slices));
    case Pipeline(ops) =>
      r := ExecuteAll(ops, d, v, ev);
  }

  lemma EvalSeqStops(ops: seq<Operator>, i: nat, v: MraValue, ev: Aggregator)
    requires i < |ops| && Eval(ops[i], v, ev).Failure?
    ensures EvalSeq(ops[i..], v, ev) == Failure(Eval(ops[i], v, ev).error)
  {
    EvalSeqCons(ops, i, v, ev);
  }

  lemma EvalSeqGoesOn(ops: seq<Operator>, i: nat, v: MraValue, ev: Aggregator)
    requires i < |ops| && Eval(ops[i], v, ev).Success?
    ensures EvalSeq(ops[i..], v, ev) == EvalSeq(ops[i + 1..], Eval(ops[i], v, ev).value, ev)
  {
    EvalSeqCons(ops, i, v, ev);
  }

  lemma EvalSeqCons(ops: seq<Operator>, i: nat, v: MraValue, ev: Aggregator)
    requires i < |ops|
    ensures EvalSeq(ops[i..], v, ev) == AndThen(Eval(ops[i], v, ev), ops[i + 1..], ev)
  {
    assert ops[i..][0] == ops[i] && ops[i..][1..] == ops[i + 1..];
  }

  /** `Pipeline._execute` on objects: each operator's output is the next one's input. */
  method ExecuteAll(ops: seq<Operator>, d: Data, ghost v0: MraValue, ev: Aggregator) returns (r: Result<Data>)
    requires ValueOf(d) == v0
    ensures r.Success? <==> EvalSeq(ops, v0, ev).Success?
    ensures r.Success? ==> ValueOf(r.value) == EvalSeq(ops, v0, ev).value
    ensures r.Failure? ==> r.error == EvalSeq(ops, v0, ev).error
    decreases ops, 0
  {
    var result := d;
    ghost var v := v0;
    var i := 0;
    while i < |ops|
      invariant 0 <= i <= |ops|
      invariant ValueOf(result) == v
      invariant EvalSeq(ops[i..], v, ev) == EvalSeq(ops, v0, ev)
    {
      var step := Execute(ops[i], result, v, ev);
      if step.Failure? {
        EvalSeqStops(ops, i, v, ev);
        return Failure(step.error);
      }
      EvalSeqGoesOn(ops, i, v, ev);
      result := step.value;
      v := ValueOf(result);
      i := i + 1;
    }
    assert ops[i..] == [];
    return Success(result);
  }
}
