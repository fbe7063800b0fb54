/**
 * The list-based operator algebra: a relation space keyed by sorted attribute
 * tuples, a slice relation as a list of slice tuples, and the operators
 * create_relation_space, represent, slice_transform, slice_select, flatten
 * and crawl. Each operator is a method that builds a fresh structure in
 * loops, proved equal to a specification function; the properties of the
 * operators are lemmas about those functions.
 */
module MraAlgebra {
  import opened Wrappers
  import opened Ordering
  import opened Dicts
  import opened Tables
  import opened Canonical

  /** Relations keyed by their sorted dimensional schema, in insertion order. */
  type Relations = seq<(seq<Attr>, Table)>

  /** Feature tables keyed by sorted feature schema. */
  type Features = seq<(seq<Attr>, Table)>

  /** A region as the items of a dictionary of attribute values. */
  type Region = seq<(Attr, Value)>

  /** `{'region': region, 'features': features}`. */
  datatype SliceTuple = SliceTuple(region: Region, features: Features)

  datatype SpaceValue = SpaceValue(dimensions: seq<Attr>, relations: Relations)

  datatype SliceValue = SliceValue(dimensions: seq<Attr>, sliceTuples: seq<SliceTuple>)

  // ---------------------------------------------------------------------------
  // RelationSpace and SliceRelation
  // ---------------------------------------------------------------------------

  /** The relation stored under the sorted form of `schema`. */
  function Lookup(relations: Relations, schema: seq<Attr>): Option<Table> {
    Get(relations, SortAttrs(schema))
  }

  /** `add_relation(relation, schema)` on the relations of a space. */
  function Store(relations: Relations, relation: Table, schema: seq<Attr>): Relations {
    Put(relations, SortAttrs(schema), relation)
  }

  /** Any rearrangement of a schema finds the same relation. */
  lemma LookupOrderIndependent(relations: Relations, a: seq<Attr>, b: seq<Attr>)
    requires multiset(a) == multiset(b)
    ensures Lookup(relations, a) == Lookup(relations, b)
  {
    SortAttrsOrderIndependent(a, b);
  }

  /** After storing under a schema, every rearrangement of it finds the relation, and
      every schema with other members finds what it found before. */
  lemma StoreThenLookup(relations: Relations, relation: Table, a: seq<Attr>, b: seq<Attr>)
    ensures multiset(a) == multiset(b) ==> Lookup(Store(relations, relation, a), b) == Some(relation)
    ensures multiset(a) != multiset(b) ==> Lookup(Store(relations, relation, a), b) == Lookup(relations, b)
  {
    SortAttrsOrderIndependent(a, b);
  }

  class RelationSpace {
    const dimensions: seq<Attr>
    var relations: Relations

    function State(): SpaceValue
      reads this
    {
      SpaceValue(dimensions, relations)
    }

    /** `RelationSpace(dimensions)`: the dimensions are kept sorted. */
    constructor(dimensions: seq<Attr>)
      ensures this.dimensions == SortAttrs(dimensions) && relations == []
    {
      this.dimensions := SortAttrs(dimensions);
      relations := [];
    }

    method AddRelation(relation: Table, schema: seq<Attr>)
      modifies this
      ensures relations == Store(old(relations), relation, schema)
    {
      relations := Put(relations, SortAttrs(schema), relation);
    }

    /** `get_relation`: None for a schema no rearrangement of which was added. */
    function GetRelation(schema: seq<Attr>): (r: Option<Table>)
      reads this
      ensures r.Some? <==> SortAttrs(schema) in Keys(relations)
      ensures r.Some? ==> (SortAttrs(schema), r.value) in relations
    {
      Lookup(relations, schema)
    }
  }

  class SliceRelation {
    const dimensions: seq<Attr>
    var sliceTuples: seq<SliceTuple>

    function State(): SliceValue
      reads this
    {
      SliceValue(dimensions, sliceTuples)
    }

    /** `SliceRelation(dimensions)`: the dimensions are kept sorted. */
    constructor(dimensions: seq<Attr>)
      ensures this.dimensions == SortAttrs(dimensions) && sliceTuples == []
    {
      this.dimensions := SortAttrs(dimensions);
      sliceTuples := [];
    }

    /** `add_slice_tuple`: appends one slice tuple, leaving the earlier ones alone. */
    method AddSliceTuple(region: Region, features: Features)
      modifies this
      ensures sliceTuples == old(sliceTuples) + [SliceTuple(region, features)]
      ensures |sliceTuples| == |old(sliceTuples)| + 1 && sliceTuples[..|old(sliceTuples)|] == old(sliceTuples)
    {
      sliceTuples := sliceTuples + [SliceTuple(region, features)];
    }
  }

  // ---------------------------------------------------------------------------
  // create_relation_space
  // ---------------------------------------------------------------------------

  /** The aggregation functions of the global aggregation as written: a dictionary
      keyed by source column, so the last aggregation of a source wins. */
  function FuncBySource(aggs: seq<AggSpec>): seq<(Attr, string)> {
    PutAll([], seq(|aggs|, i requires 0 <= i < |aggs| => (aggs[i].source, aggs[i].func)))
  }

  /** The renaming of the global aggregation as written, also keyed by source column. */
  function NameBySource(aggs: seq<AggSpec>): seq<(Attr, Attr)> {
    PutAll([], seq(|aggs|, i requires 0 <= i < |aggs| => (aggs[i].source, aggs[i].output)))
  }

  /** The aggregations the global branch as written actually performs: one per distinct
      source column, named and computed as the last aggregation of that source. */
  function CollapsedAggs(aggs: seq<AggSpec>): seq<AggSpec> {
    var fs := FuncBySource(aggs);
    seq(|fs|, i requires 0 <= i < |fs| => AggSpec(GetOr(NameBySource(aggs), fs[i].0, fs[i].0), fs[i].0, fs[i].1))
  }

  /** The grand total as written: `base.agg({source: func}).to_frame().T` renamed by
      `{source: output}`. */
  function GlobalTableAsWritten(base: Table, aggs: seq<AggSpec>, ev: Aggregator): Result<Table> {
    Total(base, CollapsedAggs(aggs), ev)
  }

  /** The grand total as intended: one column per aggregation; like the source, it
      refuses an empty aggregation dictionary. */
  function GlobalTable(base: Table, aggs: seq<AggSpec>, ev: Aggregator): (r: Result<Table>)
    ensures r.Success? ==> r.value.columns == Outputs(aggs) && |r.value.rows| == 1
    ensures r.Failure? <==> aggs == [] || exists i :: 0 <= i < |aggs| && aggs[i].source !in base.columns
    ensures aggs == [] ==> r == Failure(ValueError(NoObjectsMessage))
  {
    Total(base, aggs, ev)
  }

  /** Two aggregations of the same source column, such as `TotalCost = sum(Cost)` and
      `MaxCost = max(Cost)`: as written the grand total has only the second one's column,
      computed by the second one's function; as intended it has both columns. */
  lemma GlobalAggregationCollapses(base: Table, first: AggSpec, second: AggSpec, ev: Aggregator)
    requires first.source == second.source && first.source in base.columns
    ensures GlobalTableAsWritten(base, [first, second], ev).Success?
    ensures CollapsedAggs([first, second]) == [second]
    ensures GlobalTableAsWritten(base, [first, second], ev).value.columns == [second.output]
    ensures GlobalTable(base, [first, second], ev).Success?
    ensures GlobalTable(base, [first, second], ev).value.columns == [first.output, second.output]
  {
    var aggs := [first, second];
    var src := first.source;
    var fitems := seq(|aggs|, i requires 0 <= i < |aggs| => (aggs[i].source, aggs[i].func));
    assert fitems == [(src, first.func), (src, second.func)];
    LastWriteWins(src, first.func, second.func);
    var nitems := seq(|aggs|, i requires 0 <= i < |aggs| => (aggs[i].source, aggs[i].output));
    assert nitems == [(src, first.output), (src, second.output)];
    LastWriteWins(src, first.output, second.output);
    assert CollapsedAggs(aggs) == [AggSpec(GetOr([(src, second.output)], src, src), src, second.func)];
    assert Outputs([second]) == [second.output];
    assert Outputs(aggs) == [first.output, second.output];
    assert Sources(aggs) == [src, src];
  }

  /** When no two aggregations share a source column, the grand total as written and
      the corrected one coincide: the collapse above is the only difference. */
  lemma GlobalTableAgrees(base: Table, aggs: seq<AggSpec>, ev: Aggregator)
    requires forall i, j :: 0 <= i < j < |aggs| ==> aggs[i].source != aggs[j].source
    ensures CollapsedAggs(aggs) == aggs
    ensures GlobalTableAsWritten(base, aggs, ev) == GlobalTable(base, aggs, ev)
  {
    var nitems := seq(|aggs|, i requires 0 <= i < |aggs| => (aggs[i].source, aggs[i].output));
    FreshItems(seq(|aggs|, i requires 0 <= i < |aggs| => (aggs[i].source, aggs[i].func)));
    FreshItems(nitems);
    var c := CollapsedAggs(aggs);
    forall i | 0 <= i < |aggs| ensures c[i] == aggs[i] {
      GetStored(nitems, i);
    }
  }

  /** Assigning pairs with pairwise different keys to an empty dictionary gives them back. */
  lemma FreshItems<V>(items: seq<(Attr, V)>)
    requires forall i, j :: 0 <= i < j < |items| ==> items[i].0 != items[j].0
    ensures PutAll([], items) == items
    ensures DistinctKeys(items)
  {
    assert [] + items == items;
    PutAllNewKeys([], items);
  }

  /** Two assignments to the same key of an empty dictionary leave the second value. */
  lemma LastWriteWins<V>(k: Attr, v1: V, v2: V)
    ensures PutAll([], [(k, v1), (k, v2)]) == [(k, v2)]
  {
    var items := [(k, v1), (k, v2)];
    assert items[1..] == [(k, v2)];
    assert Put([], k, v1) == [(k, v1)];
    assert PutAll([], items) == PutAll([(k, v1)], [(k, v2)]);
    assert Put([(k, v1)], k, v2) == [(k, v2)];
    assert [(k, v2)][1..] == [];
    assert PutAll([(k, v1)], [(k, v2)]) == PutAll([(k, v2)], []);
  }

  /** The `TypeError` of a grouped `agg` called with no named aggregation. */
  const NoAggregationMessage := "Must provide 'func' or tuples of '(column, aggfunc)'."

  /** The relation computed for one grouping set. A non-empty grouping set first groups
      the base table, then refuses an empty aggregation dictionary. */
  function RelationOf(base: Table, groupingSet: seq<Attr>, aggs: seq<AggSpec>, ev: Aggregator): Result<Table> {
    if groupingSet == [] then GlobalTable(base, aggs, ev)
    else match GroupBy(base, groupingSet)
      case Failure(e) => Failure(e)
      case Success(_) =>
        if aggs == [] then Failure(TypeError(NoAggregationMessage)) else Grouped(base, groupingSet, aggs, ev)
  }

  /** Adds the relations of the remaining grouping sets `sets` to `acc`, stopping at the
      first error. */
  function BuildSpace(acc: Relations, base: Table, sets: seq<seq<Attr>>, aggs: seq<AggSpec>, ev: Aggregator)
    : Result<Relations>
    decreases |sets|
  {
    if sets == [] then Success(acc)
    else match RelationOf(base, sets[0], aggs, ev)
      case Failure(e) => Failure(e)
      case Success(t) => BuildSpace(Store(acc, t, sets[0]), base, sets[1..], aggs, ev)
  }

  function CreateRelationSpaceSpec(base: Table, sets: seq<seq<Attr>>, aggs: seq<AggSpec>, ev: Aggregator)
    : Result<SpaceValue>
  {
    match BuildSpace([], base, sets, aggs, ev)
    case Failure(e) => Failure(e)
    case Success(rels) => Success(SpaceValue(SortAttrs(base.columns), rels))
  }

  /** `create_relation_space`: one relation per grouping set, stored under its sorted
      form. */
  method CreateRelationSpace(base: Table, groupingSets: seq<seq<Attr>>, aggs: seq<AggSpec>, ev: Aggregator)
    returns (r: Result<RelationSpace>)
    ensures r.Success? <==> CreateRelationSpaceSpec(base, groupingSets, aggs, ev).Success?
    ensures r.Success? ==> (fresh(r.value) &&
      r.value.State() == CreateRelationSpaceSpec(base, groupingSets, aggs, ev).value)
    ensures r.Failure? ==> r.error == CreateRelationSpaceSpec(base, groupingSets, aggs, ev).error
  {
    var rs := new RelationSpace(base.columns);
    var i := 0;
    while i < |groupingSets|
      invariant 0 <= i <= |groupingSets|
      invariant rs.dimensions == SortAttrs(base.columns)
      invariant BuildSpace(rs.relations, base, groupingSets[i..], aggs, ev)
        == BuildSpace([], base, groupingSets, aggs, ev)
    {
      assert groupingSets[i..][1..] == groupingSets[i + 1..];
      var t := RelationOf(base, groupingSets[i], aggs, ev);
      if t.Failure? {
        return Failure(t.error);
      }
      rs.AddRelation(t.value, groupingSets[i]);
      i := i + 1;
    }
    return Success(rs);
  }

  /** The build fails exactly when some grouping set's relation cannot be computed. */
  lemma {:induction false} BuildSpaceFails(acc: Relations, base: Table, sets: seq<seq<Attr>>,
                                           aggs: seq<AggSpec>, ev: Aggregator)
    ensures BuildSpace(acc, base, sets, aggs, ev).Failure? <==>
      exists i :: 0 <= i < |sets| && RelationOf(base, sets[i], aggs, ev).Failure?
    decreases |sets|
  {
    if sets != [] && RelationOf(base, sets[0], aggs, ev).Success? {
      var t := RelationOf(base, sets[0], aggs, ev).value;
      BuildSpaceFails(Store(acc, t, sets[0]), base, sets[1..], aggs, ev);
      forall i | 0 <= i < |sets[1..]| ensures sets[1..][i] == sets[i + 1] { }
      if exists i :: 0 <= i < |sets| && RelationOf(base, sets[i], aggs, ev).Failure? {
        var i :| 0 <= i < |sets| && RelationOf(base, sets[i], aggs, ev).Failure?;
        assert sets[1..][i - 1] == sets[i];
      }
    }
  }

  /** Without aggregations no grouping set can be aggregated, and so the whole space
      fails: the empty one with the `ValueError` of `base_table.agg({})`, a non-empty one
      with the grouping's `KeyError`, or with the `TypeError` when its columns exist. */
  lemma NoAggregationsFail(base: Table, sets: seq<seq<Attr>>, ev: Aggregator, i: nat)
    requires i < |sets|
    ensures RelationOf(base, sets[i], [], ev).Failure?
    ensures sets[i] == [] ==> RelationOf(base, sets[i], [], ev).error == ValueError(NoObjectsMessage)
    ensures sets[i] != [] && GroupBy(base, sets[i]).Success? ==>
      RelationOf(base, sets[i], [], ev).error == TypeError(NoAggregationMessage)
    ensures sets[i] != [] && GroupBy(base, sets[i]).Failure? ==>
      RelationOf(base, sets[i], [], ev).error == GroupBy(base, sets[i]).error
    ensures CreateRelationSpaceSpec(base, sets, [], ev).Failure?
  {
    BuildSpaceFails([], base, sets, [], ev);
  }

  /** The sorted forms of a list of grouping sets. */
  ghost function SortedSets(sets: seq<seq<Attr>>): set<seq<Attr>> {
    set g | g in sets :: SortAttrs(g)
  }

  lemma SortedSetsCons(sets: seq<seq<Attr>>)
    requires sets != []
    ensures SortedSets(sets) == {SortAttrs(sets[0])} + SortedSets(sets[1..])
  {
    assert sets == [sets[0]] + sets[1..];
    assert forall g :: g in sets <==> g == sets[0] || g in sets[1..];
  }

  /** The keys of the space are the sorted grouping sets, each once. */
  lemma {:induction false} BuildSpaceKeys(acc: Relations, base: Table, sets: seq<seq<Attr>>,
                                          aggs: seq<AggSpec>, ev: Aggregator)
    requires DistinctKeys(acc)
    ensures BuildSpace(acc, base, sets, aggs, ev).Success? ==>
      DistinctKeys(BuildSpace(acc, base, sets, aggs, ev).value) &&
      KeySet(BuildSpace(acc, base, sets, aggs, ev).value) == KeySet(acc) + SortedSets(sets)
    decreases |sets|
  {
    if sets == [] {
      assert SortedSets(sets) == {};
    } else if RelationOf(base, sets[0], aggs, ev).Success? {
      var t := RelationOf(base, sets[0], aggs, ev).value;
      var acc' := Store(acc, t, sets[0]);
      PutDistinct(acc, SortAttrs(sets[0]), t);
      PutKeySet(acc, SortAttrs(sets[0]), t);
      BuildSpaceKeys(acc', base, sets[1..], aggs, ev);
      SortedSetsCons(sets);
    }
  }

  /** Later grouping sets with the same sorted form overwrite earlier ones: the relation
      of the last such set is the one stored. */
  lemma {:induction false} BuildSpaceLastWins(acc: Relations, base: Table, sets: seq<seq<Attr>>,
                                              aggs: seq<AggSpec>, ev: Aggregator, i: nat)
    requires i < |sets|
    requires forall j :: i < j < |sets| ==> SortAttrs(sets[j]) != SortAttrs(sets[i])
    requires BuildSpace(acc, base, sets, aggs, ev).Success?
    ensures RelationOf(base, sets[i], aggs, ev).Success?
    ensures Lookup(BuildSpace(acc, base, sets, aggs, ev).value, sets[i]) ==
      Some(RelationOf(base, sets[i], aggs, ev).value)
    decreases |sets|
  {
    var t := RelationOf(base, sets[0], aggs, ev).value;
    var acc' := Store(acc, t, sets[0]);
    if i == 0 {
      BuildSpaceKeeps(acc', base, sets[1..], aggs, ev, SortAttrs(sets[0]));
    } else {
      assert sets[1..][i - 1] == sets[i];
      forall j | i - 1 < j < |sets[1..]| ensures SortAttrs(sets[1..][j]) != SortAttrs(sets[1..][i - 1]) {
        assert sets[1..][j] == sets[j + 1];
      }
      BuildSpaceLastWins(acc', base, sets[1..], aggs, ev, i - 1);
    }
  }

  /** A key that no remaining grouping set sorts to keeps its relation. */
  lemma {:induction false} BuildSpaceKeeps(acc: Relations, base: Table, sets: seq<seq<Attr>>,
                                           aggs: seq<AggSpec>, ev: Aggregator, key: seq<Attr>)
    requires forall j :: 0 <= j < |sets| ==> SortAttrs(sets[j]) != key
    requires BuildSpace(acc, base, sets, aggs, ev).Success?
    ensures Get(BuildSpace(acc, base, sets, aggs, ev).value, key) == Get(acc, key)
    decreases |sets|
  {
    if sets != [] {
      var t := RelationOf(base, sets[0], aggs, ev).value;
      forall j | 0 <= j < |sets[1..]| ensures SortAttrs(sets[1..][j]) != key {
        assert sets[1..][j] == sets[j + 1];
      }
      BuildSpaceKeeps(Store(acc, t, sets[0]), base, sets[1..], aggs, ev, key);
    }
  }

  /** The last position of `x` in `sets`. */
  lemma {:induction false} LastIndex(sets: seq<seq<Attr>>, x: seq<Attr>) returns (i: nat)
    requires x in sets
    ensures i < |sets| && sets[i] == x
    ensures forall j :: i < j < |sets| ==> sets[j] != x
  {
    var n := |sets| - 1;
    if sets[n] == x {
      i := n;
    } else {
      assert x in sets[..n] by {
        assert sets == sets[..n] + [sets[n]];
      }
      i := LastIndex(sets[..n], x);
    }
  }

  /** Only the empty attribute list sorts to the empty key. */
  lemma SortAttrsEmpty(a: seq<Attr>)
    ensures SortAttrs(a) == [] <==> a == []
  {
    assert |a| == |multiset(a)| == |multiset(SortAttrs(a))| == |SortAttrs(a)|;
  }

  /** The empty grouping set stores the single-row grand total under the empty key. */
  lemma BuildSpaceGrandTotal(acc: Relations, base: Table, sets: seq<seq<Attr>>,
                             aggs: seq<AggSpec>, ev: Aggregator)
    requires [] in sets
    requires BuildSpace(acc, base, sets, aggs, ev).Success?
    ensures Get(BuildSpace(acc, base, sets, aggs, ev).value, []).Some?
    ensures |Get(BuildSpace(acc, base, sets, aggs, ev).value, []).value.rows| == 1
  {
    var i := LastIndex(sets, []);
    forall j | i < j < |sets| ensures SortAttrs(sets[j]) != SortAttrs(sets[i]) {
      SortAttrsEmpty(sets[j]);
      SortAttrsEmpty(sets[i]);
    }
    BuildSpaceLastWins(acc, base, sets, aggs, ev, i);
    SortAttrsEmpty(sets[i]);
  }

  // ---------------------------------------------------------------------------
  // represent
  // ---------------------------------------------------------------------------

  /** `region -> {feature schema -> table}`: the `all_regions` dictionary. */
  type Regions = seq<(Region, Features)>

  /** `relation_space._relations.values()`. */
  function Values(relations: Relations): (ts: seq<Table>)
    ensures |ts| == |relations|
    ensures forall i :: 0 <= i < |relations| ==> ts[i] == relations[i].1
  {
    seq(|relations|, i requires 0 <= i < |relations| => relations[i].1)
  }

  /** The tables that have every required column, in their order. */
  function Candidates(tables: seq<Table>, required: set<Attr>): (cs: seq<Table>)
    ensures forall t :: t in cs <==> t in tables && required <= ColumnSet(t)
  {
    if tables == [] then []
    else
      var init, last := tables[..|tables| - 1], tables[|tables| - 1];
      assert tables == init + [last];
      Candidates(init, required) + (if required <= ColumnSet(last) then [last] else [])
  }

  /** `min(candidates, key=len(columns))`: the position of the first table with the
      fewest columns. */
  function FewestIndex(cs: seq<Table>): (i: nat)
    requires cs != []
    ensures i < |cs|
    ensures forall j :: 0 <= j < |cs| ==> |cs[i].columns| <= |cs[j].columns|
    ensures forall j :: 0 <= j < i ==> |cs[j].columns| > |cs[i].columns|
  {
    if |cs| == 1 then 0
    else
      var m := FewestIndex(cs[..|cs| - 1]);
      if |cs[|cs| - 1].columns| < |cs[m].columns| then |cs| - 1 else m
  }

  /** `zip(attrs, values)`, as long as the shorter of the two. */
  function Zip(attrs: seq<Attr>, vs: seq<Value>): (z: seq<(Attr, Value)>)
    ensures |z| == if |attrs| <= |vs| then |attrs| else |vs|
    ensures forall i :: 0 <= i < |z| ==> z[i] == (attrs[i], vs[i])
  {
    var n := if |attrs| <= |vs| then |attrs| else |vs|;
    seq(n, i requires 0 <= i < n => (attrs[i], vs[i]))
  }

  /** `tuple(sorted(dict(zip(region_schema, values)).items()))`. */
  function RegionKey(regionSchema: seq<Attr>, vs: seq<Value>): Region {
    SortItems(PutAll([], Zip(regionSchema, vs)))
  }

  /** Stores the feature table of every group under its region. */
  function StoreGroups(all: Regions, gs: seq<Group>, regionSchema: seq<Attr>, featureSchema: seq<Attr>)
    : Regions
    decreases |gs|
  {
    if gs == [] then all
    else StoreGroups(PutIn(all, RegionKey(regionSchema, gs[0].key), SortAttrs(featureSchema),
                           Project(gs[0].table, featureSchema)),
                     gs[1..], regionSchema, featureSchema)
  }

  /** The source relation of one (region schema, feature schema) pair, if any. */
  function SourceOf(relations: Relations, regionSchema: seq<Attr>, featureSchema: seq<Attr>)
    : Option<Table>
  {
    var cs := Candidates(Values(relations), Members(regionSchema + featureSchema));
    if cs == [] then None else Some(cs[FewestIndex(cs)])
  }

  /** One iteration of the inner loop of `represent`. */
  function RepresentPair(all: Regions, relations: Relations, regionSchema: seq<Attr>, featureSchema: seq<Attr>)
    : Result<Regions>
  {
    match SourceOf(relations, regionSchema, featureSchema)
    case None => Success(all)
    case Some(source) =>
      match GroupBy(source, regionSchema)
      case Failure(e) => Failure(e)
      case Success(gs) => Success(StoreGroups(all, gs, regionSchema, featureSchema))
  }

  function RepresentFeatures(all: Regions, relations: Relations, regionSchema: seq<Attr>,
                             featureSchemas: seq<seq<Attr>>): Result<Regions>
    decreases |featureSchemas|
  {
    if featureSchemas == [] then Success(all)
    else match RepresentPair(all, relations, regionSchema, featureSchemas[0])
      case Failure(e) => Failure(e)
      case Success(a) => RepresentFeatures(a, relations, regionSchema, featureSchemas[1..])
  }

  function RepresentRegions(all: Regions, relations: Relations, regionSchemas: seq<seq<Attr>>,
                            featureSchemas: seq<seq<Attr>>): Result<Regions>
    decreases |regionSchemas|
  {
    if regionSchemas == [] then Success(all)
    else match RepresentFeatures(all, relations, regionSchemas[0], featureSchemas)
      case Failure(e) => Failure(e)
      case Success(a) => RepresentRegions(a, relations, regionSchemas[1..], featureSchemas)
  }

  /** One slice tuple per entry of `all_regions`, in its order. */
  function Assemble(all: Regions): (ts: seq<SliceTuple>)
    ensures |ts| == |all|
    ensures forall i :: 0 <= i < |all| ==> ts[i] == SliceTuple(all[i].0, all[i].1)
  {
    if all == [] then []
    else Assemble(all[..|all| - 1]) + [SliceTuple(all[|all| - 1].0, all[|all| - 1].1)]
  }

  function RepresentSpec(sp: SpaceValue, regionSchemas: seq<seq<Attr>>, featureSchemas: seq<seq<Attr>>)
    : Result<SliceValue>
  {
    match RepresentRegions([], sp.relations, regionSchemas, featureSchemas)
    case Failure(e) => Failure(e)
    case Success(all) => Success(SliceValue(SortAttrs(sp.dimensions), Assemble(all)))
  }

  method FindCandidates(relations: Relations, required: set<Attr>) returns (cs: seq<Table>)
    ensures cs == Candidates(Values(relations), required)
  {
    cs := [];
    var k := 0;
    while k < |relations|
      invariant 0 <= k <= |relations|
      invariant cs == Candidates(Values(relations)[..k], required)
    {
      assert Values(relations)[..k + 1][..k] == Values(relations)[..k];
      if required <= ColumnSet(relations[k].1) {
        cs := cs + [relations[k].1];
      }
      k := k + 1;
    }
    assert Values(relations)[..k] == Values(relations);
  }

  method StoreAllGroups(all: Regions, gs: seq<Group>, regionSchema: seq<Attr>, featureSchema: seq<Attr>)
    returns (r: Regions)
    ensures r == StoreGroups(all, gs, regionSchema, featureSchema)
  {
    r := all;
    var k := 0;
    while k < |gs|
      invariant 0 <= k <= |gs|
      invariant StoreGroups(r, gs[k..], regionSchema, featureSchema) == StoreGroups(all, gs, regionSchema, featureSchema)
    {
      assert gs[k..][1..] == gs[k + 1..];
      var regionDict := PutAll([], Zip(regionSchema, gs[k].key));
      var regionKey := SortItems(regionDict);
      var featureTable := Project(gs[k].table, featureSchema);
      r := PutIn(r, regionKey, SortAttrs(featureSchema), featureTable);
      k := k + 1;
    }
  }

  /** The inner loop of `represent`, over the feature schemas of one region schema. */
  method RepresentRegionSchema(all: Regions, relations: Relations, regionSchema: seq<Attr>,
                               featureSchemas: seq<seq<Attr>>) returns (r: Result<Regions>)
    ensures r == RepresentFeatures(all, relations, regionSchema, featureSchemas)
  {
    var acc := all;
    var j := 0;
    while j < |featureSchemas|
      invariant 0 <= j <= |featureSchemas|
      invariant RepresentFeatures(acc, relations, regionSchema, featureSchemas[j..])
        == RepresentFeatures(all, relations, regionSchema, featureSchemas)
    {
      assert featureSchemas[j..][1..] == featureSchemas[j + 1..];
      var candidates := FindCandidates(relations, Members(regionSchema + featureSchemas[j]));
      if candidates != [] {
        var source := candidates[FewestIndex(candidates)];
        var groups := GroupBy(source, regionSchema);
        if groups.Failure? {
          return Failure(groups.error);
        }
        acc := StoreAllGroups(acc, groups.value, regionSchema, featureSchemas[j]);
      }
      j := j + 1;
    }
    return Success(acc);
  }

  /** `represent`: partitions the relations of a space by every region schema and
      aligns the feature tables of each region in one slice tuple. */
  method Represent(space: RelationSpace, regionSchemas: seq<seq<Attr>>, featureSchemas: seq<seq<Attr>>)
    returns (r: Result<SliceRelation>)
    ensures r.Success? <==> RepresentSpec(space.State(), regionSchemas, featureSchemas).Success?
    ensures r.Success? ==> (fresh(r.value) &&
      r.value.State() == RepresentSpec(space.State(), regionSchemas, featureSchemas).value)
    ensures r.Failure? ==> r.error == RepresentSpec(space.State(), regionSchemas, featureSchemas).error
  {
    var all: Regions := [];
    var i := 0;
    while i < |regionSchemas|
      invariant 0 <= i <= |regionSchemas|
      invariant RepresentRegions(all, space.relations, regionSchemas[i..], featureSchemas)
        == RepresentRegions([], space.relations, regionSchemas, featureSchemas)
    {
      assert regionSchemas[i..][1..] == regionSchemas[i + 1..];
      var next := RepresentRegionSchema(all, space.relations, regionSchemas[i], featureSchemas);
      if next.Failure? {
        return Failure(next.error);
      }
      all := next.value;
      i := i + 1;
    }
    var sr := new SliceRelation(space.dimensions);
    var k := 0;
    while k < |all|
      invariant 0 <= k <= |all|
      invariant sr.dimensions == SortAttrs(space.dimensions)
      invariant sr.sliceTuples == Assemble(all[..k])
    {
      assert all[..k + 1][..k] == all[..k];
      sr.AddSliceTuple(all[k].0, all[k].1);
      k := k + 1;
    }
    assert all[..k] == all;
    return Success(sr);
  }

  // Properties of represent

  /** A pair for which no relation of the space has every required column contributes
      nothing; otherwise its source is a relation of the space with every required
      column and the fewest columns among those. */
  lemma SourceChoice(all: Regions, relations: Relations, regionSchema: seq<Attr>, featureSchema: seq<Attr>)
    ensures var required := Members(regionSchema + featureSchema);
      SourceOf(relations, regionSchema, featureSchema).None? <==>
        forall i :: 0 <= i < |relations| ==> !(required <= ColumnSet(relations[i].1))
    ensures SourceOf(relations, regionSchema, featureSchema).None? ==>
      RepresentPair(all, relations, regionSchema, featureSchema) == Success(all)
    ensures SourceOf(relations, regionSchema, featureSchema).Some? ==>
      var t := SourceOf(relations, regionSchema, featureSchema).value;
      var required := Members(regionSchema + featureSchema);
      t in Values(relations) && required <= ColumnSet(t) &&
      forall u :: u in Values(relations) && required <= ColumnSet(u) ==> |t.columns| <= |u.columns|
  {
    var required := Members(regionSchema + featureSchema);
    var cs := Candidates(Values(relations), required);
    if cs != [] {
      assert cs[0] in cs;
      var t := cs[FewestIndex(cs)];
      assert t in cs;
      forall u | u in Values(relations) && required <= ColumnSet(u)
        ensures |t.columns| <= |u.columns|
      {
        assert u in cs;
        var j :| 0 <= j < |cs| && cs[j] == u;
      }
    } else {
      forall i | 0 <= i < |relations| ensures !(required <= ColumnSet(relations[i].1)) {
        assert Values(relations)[i] in Values(relations);
      }
    }
  }

  /** A region key lists the region's attributes with their values, sorted by
      attribute, each attribute once. */
  ghost predicate RegionOK(region: Region, regionSchemas: seq<seq<Attr>>) {
    SortedBy(region, ItemAttr) && DistinctKeys(region) &&
    exists rs :: rs in regionSchemas && KeySet(region) == Members(rs)
  }

  /** A feature table is stored under its sorted schema and has the schema's columns. */
  ghost predicate FeatureOK(q: (seq<Attr>, Table), featureSchemas: seq<seq<Attr>>) {
    exists fs :: fs in featureSchemas && q.0 == SortAttrs(fs) && q.1.columns == fs
  }

  ghost predicate FeaturesOK(f: Features, featureSchemas: seq<seq<Attr>>) {
    f != [] && DistinctKeys(f) && forall q :: q in f ==> FeatureOK(q, featureSchemas)
  }

  /** The shape of `all_regions`: each region once, with well-formed features. */
  ghost predicate RegionsShape(all: Regions, regionSchemas: seq<seq<Attr>>, featureSchemas: seq<seq<Attr>>) {
    DistinctKeys(all) &&
    forall p :: p in all ==> RegionOK(p.0, regionSchemas) && FeaturesOK(p.1, featureSchemas)
  }

  lemma ZipKeys(attrs: seq<Attr>, vs: seq<Value>)
    requires |vs| == |attrs|
    ensures KeySet(Zip(attrs, vs)) == Members(attrs)
  {
    var z := Zip(attrs, vs);
    forall a | a in Members(attrs) ensures a in KeySet(z) {
      var i :| 0 <= i < |attrs| && attrs[i] == a;
      assert Keys(z)[i] == a;
    }
  }

  lemma RegionKeyOK(regionSchema: seq<Attr>, vs: seq<Value>, regionSchemas: seq<seq<Attr>>)
    requires |vs| == |regionSchema| && regionSchema in regionSchemas
    ensures RegionOK(RegionKey(regionSchema, vs), regionSchemas)
  {
    var z := Zip(regionSchema, vs);
    var d := PutAll([], z);
    PutAllKeys([], z);
    PutAllDistinct([], z);
    ZipKeys(regionSchema, vs);
    assert KeySet<Attr, Value>([]) == {};
    KeySetOfMultiset(d, SortItems(d));
  }

  lemma PutInShape(all: Regions, region: Region, table: Table, featureSchema: seq<Attr>,
                   regionSchemas: seq<seq<Attr>>, featureSchemas: seq<seq<Attr>>)
    requires RegionsShape(all, regionSchemas, featureSchemas)
    requires RegionOK(region, regionSchemas)
    requires featureSchema in featureSchemas && table.columns == featureSchema
    ensures RegionsShape(PutIn(all, region, SortAttrs(featureSchema), table), regionSchemas, featureSchemas)
  {
    var key := SortAttrs(featureSchema);
    var inner := GetOr(all, region, []);
    assert forall q :: q in inner ==> FeatureOK(q, featureSchemas) by {
      if Get(all, region).Some? {
        assert (region, inner) in all;
      }
    }
    assert DistinctKeys(inner) by {
      if Get(all, region).Some? {
        assert (region, inner) in all;
      }
    }
    var f := Put(inner, key, table);
    PutElements(inner, key, table);
    PutDistinct(inner, key, table);
    assert FeatureOK((key, table), featureSchemas);
    assert f != [] by {
      assert Get(f, key).Some?;
    }
    assert FeaturesOK(f, featureSchemas);
    PutElements(all, region, f);
    PutDistinct(all, region, f);
  }

  lemma {:induction false} StoreGroupsShape(all: Regions, gs: seq<Group>, regionSchema: seq<Attr>,
                                            featureSchema: seq<Attr>, regionSchemas: seq<seq<Attr>>,
                                            featureSchemas: seq<seq<Attr>>)
    requires RegionsShape(all, regionSchemas, featureSchemas)
    requires regionSchema in regionSchemas && featureSchema in featureSchemas
    requires forall g :: g in gs ==> |g.key| == |regionSchema|
    ensures RegionsShape(StoreGroups(all, gs, regionSchema, featureSchema), regionSchemas, featureSchemas)
    decreases |gs|
  {
    if gs != [] {
      RegionKeyOK(regionSchema, gs[0].key, regionSchemas);
      PutInShape(all, RegionKey(regionSchema, gs[0].key), Project(gs[0].table, featureSchema),
                 featureSchema, regionSchemas, featureSchemas);
      assert forall g :: g in gs[1..] ==> g in gs;
      StoreGroupsShape(PutIn(all, RegionKey(regionSchema, gs[0].key), SortAttrs(featureSchema),
                             Project(gs[0].table, featureSchema)),
                       gs[1..], regionSchema, featureSchema, regionSchemas, featureSchemas);
    }
  }

  lemma {:induction false} RepresentFeaturesShape(all: Regions, relations: Relations, regionSchema: seq<Attr>,
                                                  rest: seq<seq<Attr>>, regionSchemas: seq<seq<Attr>>,
                                                  featureSchemas: seq<seq<Attr>>)
    requires RegionsShape(all, regionSchemas, featureSchemas)
    requires regionSchema in regionSchemas
    requires forall fs :: fs in rest ==> fs in featureSchemas
    ensures RepresentFeatures(all, relations, regionSchema, rest).Success? ==>
      RegionsShape(RepresentFeatures(all, relations, regionSchema, rest).value, regionSchemas, featureSchemas)
    decreases |rest|
  {
    if rest != [] {
      var next := RepresentPair(all, relations, regionSchema, rest[0]);
      if next.Success? {
        var source := SourceOf(relations, regionSchema, rest[0]);
        if source.Some? && GroupBy(source.value, regionSchema).Success? {
          StoreGroupsShape(all, Groups(source.value, regionSchema), regionSchema, rest[0], regionSchemas,
                           featureSchemas);
        }
        assert forall fs :: fs in rest[1..] ==> fs in rest;
        RepresentFeaturesShape(next.value, relations, regionSchema, rest[1..], regionSchemas, featureSchemas);
      }
    }
  }

  lemma {:induction false} RepresentRegionsShape(all: Regions, relations: Relations, rest: seq<seq<Attr>>,
                                                 regionSchemas: seq<seq<Attr>>, featureSchemas: seq<seq<Attr>>)
    requires RegionsShape(all, regionSchemas, featureSchemas)
    requires forall rs :: rs in rest ==> rs in regionSchemas
    ensures RepresentRegions(all, relations, rest, featureSchemas).Success? ==>
      RegionsShape(RepresentRegions(all, relations, rest, featureSchemas).value, regionSchemas, featureSchemas)
    decreases |rest|
  {
    if rest != [] {
      RepresentFeaturesShape(all, relations, rest[0], featureSchemas, regionSchemas, featureSchemas);
      var next := RepresentFeatures(all, relations, rest[0], featureSchemas);
      if next.Success? {
        assert forall rs :: rs in rest[1..] ==> rs in rest;
        RepresentRegionsShape(next.value, relations, rest[1..], regionSchemas, featureSchemas);
      }
    }
  }

  /** Every region of `represent`'s output appears in exactly one slice tuple, keyed by
      its sorted (attribute, value) items over one of the region schemas; every feature
      table is stored under its sorted feature schema and has that schema's columns. */
  lemma RepresentShape(sp: SpaceValue, regionSchemas: seq<seq<Attr>>, featureSchemas: seq<seq<Attr>>)
    requires RepresentSpec(sp, regionSchemas, featureSchemas).Success?
    ensures var ts := RepresentSpec(sp, regionSchemas, featureSchemas).value.sliceTuples;
      (forall i, j :: 0 <= i < j < |ts| ==> ts[i].region != ts[j].region) &&
      forall t :: t in ts ==> RegionOK(t.region, regionSchemas) && FeaturesOK(t.features, featureSchemas)
  {
    RepresentRegionsShape([], sp.relations, regionSchemas, regionSchemas, featureSchemas);
    var all := RepresentRegions([], sp.relations, regionSchemas, featureSchemas).value;
    var ts := Assemble(all);
    forall t | t in ts ensures RegionOK(t.region, regionSchemas) && FeaturesOK(t.features, featureSchemas) {
      var i :| 0 <= i < |ts| && ts[i] == t;
      assert all[i] in all;
    }
  }

  /** The group of `gs` stored last under `region`: later groups overwrite earlier ones. */
  function LastRegionGroup(gs: seq<Group>, regionSchema: seq<Attr>, region: Region): (r: Option<Group>)
    ensures r.Some? ==> r.value in gs && RegionKey(regionSchema, r.value.key) == region
    ensures r.None? <==> forall g :: g in gs ==> RegionKey(regionSchema, g.key) != region
    decreases |gs|
  {
    if gs == [] then None
    else
      assert forall g :: g in gs ==> g == gs[0] || g in gs[1..];
      match LastRegionGroup(gs[1..], regionSchema, region)
      case Some(g) => Some(g)
      case None => if RegionKey(regionSchema, gs[0].key) == region then Some(gs[0]) else None
  }

  /** After storing the groups, the feature table under `(region, schema)` is the
      projection of the last group with that region when `schema` is the sorted feature
      schema, and is unchanged otherwise. */
  lemma {:induction false} StoreGroupsGetIn(all: Regions, gs: seq<Group>, regionSchema: seq<Attr>,
                                            featureSchema: seq<Attr>, region: Region, schema: seq<Attr>)
    ensures GetIn(StoreGroups(all, gs, regionSchema, featureSchema), region, schema) ==
      if schema == SortAttrs(featureSchema) && LastRegionGroup(gs, regionSchema, region).Some?
      then Some(Project(LastRegionGroup(gs, regionSchema, region).value.table, featureSchema))
      else GetIn(all, region, schema)
    decreases |gs|
  {
    if gs != [] {
      var next := PutIn(all, RegionKey(regionSchema, gs[0].key), SortAttrs(featureSchema),
                        Project(gs[0].table, featureSchema));
      StoreGroupsGetIn(next, gs[1..], regionSchema, featureSchema, region, schema);
      PutInGetIn(all, RegionKey(regionSchema, gs[0].key), SortAttrs(featureSchema),
                 Project(gs[0].table, featureSchema), region, schema);
    }
  }

  /** Storing the groups adds the region of every group and keeps the earlier regions. */
  lemma {:induction false} StoreGroupsRegions(all: Regions, gs: seq<Group>, regionSchema: seq<Attr>,
                                              featureSchema: seq<Attr>, region: Region)
    ensures Get(StoreGroups(all, gs, regionSchema, featureSchema), region).Some? <==>
      Get(all, region).Some? || LastRegionGroup(gs, regionSchema, region).Some?
    decreases |gs|
  {
    if gs != [] {
      var next := PutIn(all, RegionKey(regionSchema, gs[0].key), SortAttrs(featureSchema),
                        Project(gs[0].table, featureSchema));
      StoreGroupsRegions(next, gs[1..], regionSchema, featureSchema, region);
      PutInGet(all, RegionKey(regionSchema, gs[0].key), SortAttrs(featureSchema),
               Project(gs[0].table, featureSchema));
    }
  }

  /** Over a region schema without repeats, the region key determines the key vector. */
  lemma RegionKeyInjective(regionSchema: seq<Attr>, v1: seq<Value>, v2: seq<Value>)
    requires NoRepeats(regionSchema) && |v1| == |regionSchema| && |v2| == |regionSchema|
    requires RegionKey(regionSchema, v1) == RegionKey(regionSchema, v2)
    ensures v1 == v2
  {
    var z1, z2 := Zip(regionSchema, v1), Zip(regionSchema, v2);
    FreshItems(z1);
    FreshItems(z2);
    SortItemsOrderIndependent(z1, z2);
    forall i | 0 <= i < |v1| ensures v1[i] == v2[i] {
      assert z1[i] in multiset(z2);
      ZipValue(regionSchema, v2, i, v1[i]);
    }
  }

  /** Over attributes without repeats, the pair of the `i`-th attribute holds the `i`-th
      value. */
  lemma ZipValue(attrs: seq<Attr>, vs: seq<Value>, i: nat, x: Value)
    requires NoRepeats(attrs) && |vs| == |attrs| && i < |attrs|
    requires (attrs[i], x) in Zip(attrs, vs)
    ensures x == vs[i]
  {
    var j :| 0 <= j < |attrs| && Zip(attrs, vs)[j] == (attrs[i], x);
    assert attrs[j] == attrs[i];
  }

  /** With its source found and grouped, one pair stores, for every group of the source
      by a repeat-free region schema, the group's rows projected on the feature schema
      under the sorted feature schema of the group's region. */
  lemma RepresentPairStores(all: Regions, relations: Relations, regionSchema: seq<Attr>,
                            featureSchema: seq<Attr>, g: Group)
    requires SourceOf(relations, regionSchema, featureSchema).Some?
    requires NoRepeats(regionSchema)
    requires GroupBy(SourceOf(relations, regionSchema, featureSchema).value, regionSchema).Success?
    requires g in Groups(SourceOf(relations, regionSchema, featureSchema).value, regionSchema)
    ensures RepresentPair(all, relations, regionSchema, featureSchema).Success?
    ensures GetIn(RepresentPair(all, relations, regionSchema, featureSchema).value,
                  RegionKey(regionSchema, g.key), SortAttrs(featureSchema)) ==
      Some(Project(g.table, featureSchema))
  {
    var gs := Groups(SourceOf(relations, regionSchema, featureSchema).value, regionSchema);
    var region := RegionKey(regionSchema, g.key);
    StoreGroupsGetIn(all, gs, regionSchema, featureSchema, region, SortAttrs(featureSchema));
    var h := LastRegionGroup(gs, regionSchema, region).value;
    RegionKeyInjective(regionSchema, h.key, g.key);
    var a :| 0 <= a < |gs| && gs[a] == h;
    var b :| 0 <= b < |gs| && gs[b] == g;
    assert a == b;
  }

  /** One pair has `region` among the regions it stores. */
  ghost predicate PairHasRegion(relations: Relations, regionSchema: seq<Attr>, featureSchema: seq<Attr>,
                                region: Region)
  {
    SourceOf(relations, regionSchema, featureSchema).Some? &&
    GroupBy(SourceOf(relations, regionSchema, featureSchema).value, regionSchema).Success? &&
    exists g :: g in Groups(SourceOf(relations, regionSchema, featureSchema).value, regionSchema) &&
      RegionKey(regionSchema, g.key) == region
  }

  /** A successful pair keeps the earlier regions and adds exactly its own. */
  lemma PairRegions(all: Regions, relations: Relations, regionSchema: seq<Attr>, featureSchema: seq<Attr>,
                    region: Region)
    requires RepresentPair(all, relations, regionSchema, featureSchema).Success?
    ensures Get(RepresentPair(all, relations, regionSchema, featureSchema).value, region).Some? <==>
      Get(all, region).Some? || PairHasRegion(relations, regionSchema, featureSchema, region)
  {
    var source := SourceOf(relations, regionSchema, featureSchema);
    if source.Some? && GroupBy(source.value, regionSchema).Success? {
      StoreGroupsRegions(all, Groups(source.value, regionSchema), regionSchema, featureSchema, region);
    }
  }

  /** The regions after one region schema: the earlier ones and those of its pairs. */
  lemma {:induction false} RepresentFeaturesRegions(all: Regions, relations: Relations, regionSchema: seq<Attr>,
                                                    rest: seq<seq<Attr>>, region: Region)
    requires RepresentFeatures(all, relations, regionSchema, rest).Success?
    ensures Get(RepresentFeatures(all, relations, regionSchema, rest).value, region).Some? <==>
      Get(all, region).Some? ||
      exists j :: 0 <= j < |rest| && PairHasRegion(relations, regionSchema, rest[j], region)
    decreases |rest|
  {
    if rest != [] {
      var next := RepresentPair(all, relations, regionSchema, rest[0]).value;
      PairRegions(all, relations, regionSchema, rest[0], region);
      RepresentFeaturesRegions(next, relations, regionSchema, rest[1..], region);
      assert forall j :: 0 < j < |rest| ==> rest[1..][j - 1] == rest[j];
    }
  }

  /** The regions after all region schemas: one for every pair with a source and a
      group of it with that region key. */
  lemma {:induction false} RepresentRegionsRegions(all: Regions, relations: Relations, rest: seq<seq<Attr>>,
                                                   featureSchemas: seq<seq<Attr>>, region: Region)
    requires RepresentRegions(all, relations, rest, featureSchemas).Success?
    ensures Get(RepresentRegions(all, relations, rest, featureSchemas).value, region).Some? <==>
      Get(all, region).Some? ||
      exists i, j :: 0 <= i < |rest| && 0 <= j < |featureSchemas| &&
        PairHasRegion(relations, rest[i], featureSchemas[j], region)
    decreases |rest|
  {
    if rest != [] {
      var next := RepresentFeatures(all, relations, rest[0], featureSchemas).value;
      RepresentFeaturesRegions(all, relations, rest[0], featureSchemas, region);
      RepresentRegionsRegions(next, relations, rest[1..], featureSchemas, region);
      if exists i, j :: 0 <= i < |rest| && 0 <= j < |featureSchemas| &&
           PairHasRegion(relations, rest[i], featureSchemas[j], region) {
        var i, j :| 0 <= i < |rest| && 0 <= j < |featureSchemas| &&
          PairHasRegion(relations, rest[i], featureSchemas[j], region);
        if i > 0 {
          assert rest[1..][i - 1] == rest[i];
        }
      }
    }
  }

  /** The slice tuples list exactly the regions of `all_regions`. */
  lemma AssembleRegions(all: Regions, region: Region)
    ensures (exists t :: t in Assemble(all) && t.region == region) <==> Get(all, region).Some?
  {
    var ts := Assemble(all);
    if Get(all, region).Some? {
      var i :| 0 <= i < |all| && Keys(all)[i] == region;
      assert ts[i] in ts;
    }
    if exists t :: t in ts && t.region == region {
      var t :| t in ts && t.region == region;
      var i :| 0 <= i < |ts| && ts[i] == t;
      assert Keys(all)[i] == region;
    }
  }

  /** `represent` has a slice tuple for a region exactly when some (region schema,
      feature schema) pair has a source relation with a group whose region key it is. */
  lemma RepresentRegionsIff(sp: SpaceValue, regionSchemas: seq<seq<Attr>>, featureSchemas: seq<seq<Attr>>,
                            region: Region)
    requires RepresentSpec(sp, regionSchemas, featureSchemas).Success?
    ensures (exists t :: t in RepresentSpec(sp, regionSchemas, featureSchemas).value.sliceTuples &&
                         t.region == region) <==>
      exists i, j :: 0 <= i < |regionSchemas| && 0 <= j < |featureSchemas| &&
        PairHasRegion(sp.relations, regionSchemas[i], featureSchemas[j], region)
  {
    var all := RepresentRegions([], sp.relations, regionSchemas, featureSchemas).value;
    assert RepresentSpec(sp, regionSchemas, featureSchemas).value.sliceTuples == Assemble(all);
    RepresentRegionsRegions([], sp.relations, regionSchemas, featureSchemas, region);
    AssembleRegions(all, region);
  }

  // ---------------------------------------------------------------------------
  // slice_transform
  // ---------------------------------------------------------------------------

  /** `(feature_schema, transform_function, new_feature_name)`; the name is not used by
      the operator. */
  datatype Transformation = Transformation(schema: seq<Attr>, apply: Table -> Table, newName: string)

  /** One transformation on the features of one slice tuple: it fires only if its
      sorted schema is present, and stores its output under the output's sorted columns. */
  function TransformStep(features: Features, t: Transformation): Features {
    match Get(features, SortAttrs(t.schema))
    case None => features
    case Some(df) =>
      var out := t.apply(df);
      Put(features, SortAttrs(out.columns), out)
  }

  /** All transformations, in order, on the features of one slice tuple. */
  function TransformFeatures(features: Features, ts: seq<Transformation>): Features
    decreases |ts|
  {
    if ts == [] then features else TransformFeatures(TransformStep(features, ts[0]), ts[1..])
  }

  /** The transformed slice tuples: as many as before, in the same order, with the same
      regions. */
  function TransformTuples(tuples: seq<SliceTuple>, ts: seq<Transformation>): (r: seq<SliceTuple>)
    ensures |r| == |tuples|
    ensures forall i :: 0 <= i < |tuples| ==>
      r[i].region == tuples[i].region && r[i].features == TransformFeatures(tuples[i].features, ts)
  {
    if tuples == [] then []
    else
      var init, last := tuples[..|tuples| - 1], tuples[|tuples| - 1];
      var rest := TransformTuples(init, ts);
      var r := rest + [SliceTuple(last.region, TransformFeatures(last.features, ts))];
      forall i | 0 <= i < |init| ensures r[i] == rest[i] && init[i] == tuples[i] {
      }
      r
  }

  function SliceTransformSpec(sv: SliceValue, ts: seq<Transformation>): SliceValue {
    SliceValue(SortAttrs(sv.dimensions), TransformTuples(sv.sliceTuples, ts))
  }

  method TransformOne(features: Features, ts: seq<Transformation>) returns (r: Features)
    ensures r == TransformFeatures(features, ts)
  {
    r := features;
    var j := 0;
    while j < |ts|
      invariant 0 <= j <= |ts|
      invariant TransformFeatures(r, ts[j..]) == TransformFeatures(features, ts)
    {
      assert ts[j..][1..] == ts[j + 1..];
      var key := SortAttrs(ts[j].schema);
      var found := Get(r, key);
      if found.Some? {
        var transformed := ts[j].apply(found.value);
        r := Put(r, SortAttrs(transformed.columns), transformed);
      }
      j := j + 1;
    }
  }

  /** `slice_transform`. */
  method SliceTransform(sr: SliceRelation, ts: seq<Transformation>) returns (out: SliceRelation)
    ensures fresh(out) && out.State() == SliceTransformSpec(sr.State(), ts)
  {
    out := new SliceRelation(sr.dimensions);
    var i := 0;
    while i < |sr.sliceTuples|
      invariant 0 <= i <= |sr.sliceTuples|
      invariant out.dimensions == SortAttrs(sr.dimensions)
      invariant out.sliceTuples == TransformTuples(sr.sliceTuples[..i], ts)
    {
      assert sr.sliceTuples[..i + 1][..i] == sr.sliceTuples[..i];
      var newFeatures := TransformOne(sr.sliceTuples[i].features, ts);
      out.AddSliceTuple(sr.sliceTuples[i].region, newFeatures);
      i := i + 1;
    }
    assert sr.sliceTuples[..i] == sr.sliceTuples;
  }

  /** Every feature key of a slice tuple survives the transformations, in its position;
      new keys only come after. */
  lemma {:induction false} TransformKeepsKeys(features: Features, ts: seq<Transformation>)
    ensures Keys(features) <= Keys(TransformFeatures(features, ts))
    decreases |ts|
  {
    if ts != [] {
      var next := TransformStep(features, ts[0]);
      assert Keys(features) <= Keys(next);
      TransformKeepsKeys(next, ts[1..]);
    }
  }

  /** A feature table is replaced or added only under the sorted column list of the
      table now stored there. */
  lemma {:induction false} TransformChangesOnlyCanonical(features: Features, ts: seq<Transformation>)
    ensures forall k :: Get(TransformFeatures(features, ts), k) != Get(features, k) ==>
      Get(TransformFeatures(features, ts), k).Some? &&
      SortAttrs(Get(TransformFeatures(features, ts), k).value.columns) == k
    decreases |ts|
  {
    if ts != [] {
      var next := TransformStep(features, ts[0]);
      TransformChangesOnlyCanonical(next, ts[1..]);
    }
  }

  /** A transformation whose sorted schema is a feature key stores its output under the
      output's sorted columns and leaves every other key as it was; one whose schema is
      absent changes nothing. */
  lemma TransformStepStores(features: Features, t: Transformation)
    ensures Get(features, SortAttrs(t.schema)).Some? ==>
      var out := t.apply(Get(features, SortAttrs(t.schema)).value);
      Get(TransformStep(features, t), SortAttrs(out.columns)) == Some(out) &&
      (forall k :: k != SortAttrs(out.columns) ==> Get(TransformStep(features, t), k) == Get(features, k))
    ensures Get(features, SortAttrs(t.schema)).None? ==> TransformStep(features, t) == features
  {
  }

  /** Running `ts` and then `t` is running `t` on the features `ts` left behind. */
  lemma {:induction false} TransformSnoc(features: Features, ts: seq<Transformation>, t: Transformation)
    ensures TransformFeatures(features, ts + [t]) == TransformStep(TransformFeatures(features, ts), t)
    decreases |ts|
  {
    if ts == [] {
      assert [] + [t] == [t];
      assert [t][1..] == [];
    } else {
      assert (ts + [t])[0] == ts[0] && (ts + [t])[1..] == ts[1..] + [t];
      TransformSnoc(TransformStep(features, ts[0]), ts[1..], t);
    }
  }

  /** The last transformation sees the features the earlier ones produced: if its sorted
      schema is there, its output is what is stored under the output's sorted columns
      at the end. */
  lemma TransformLastStores(features: Features, ts: seq<Transformation>, t: Transformation)
    requires Get(TransformFeatures(features, ts), SortAttrs(t.schema)).Some?
    ensures var out := t.apply(Get(TransformFeatures(features, ts), SortAttrs(t.schema)).value);
      Get(TransformFeatures(features, ts + [t]), SortAttrs(out.columns)) == Some(out)
  {
    TransformSnoc(features, ts, t);
    TransformStepStores(TransformFeatures(features, ts), t);
  }

  /** When no transformation's sorted schema is a feature key, nothing changes. */
  lemma {:induction false} TransformNoMatch(features: Features, ts: seq<Transformation>)
    requires forall i :: 0 <= i < |ts| ==> SortAttrs(ts[i].schema) !in Keys(features)
    ensures TransformFeatures(features, ts) == features
    decreases |ts|
  {
    if ts != [] {
      assert TransformStep(features, ts[0]) == features;
      forall i | 0 <= i < |ts[1..]| ensures SortAttrs(ts[1..][i].schema) !in Keys(features) {
        assert ts[1..][i] == ts[i + 1];
      }
      TransformNoMatch(features, ts[1..]);
    }
  }

  // ---------------------------------------------------------------------------
  // slice_select
  // ---------------------------------------------------------------------------

  type Predicate = Features -> bool

  /** `all(p(features) for p in predicates)`. */
  predicate AllHold(ps: seq<Predicate>, features: Features) {
    forall i :: 0 <= i < |ps| ==> ps[i](features)
  }

  /** The slice tuples whose features satisfy every predicate, in their order. */
  function Select(tuples: seq<SliceTuple>, ps: seq<Predicate>): seq<SliceTuple> {
    if tuples == [] then []
    else
      var last := tuples[|tuples| - 1];
      Select(tuples[..|tuples| - 1], ps) + (if AllHold(ps, last.features) then [last] else [])
  }

  function SliceSelectSpec(sv: SliceValue, ps: seq<Predicate>): SliceValue {
    SliceValue(SortAttrs(sv.dimensions), Select(sv.sliceTuples, ps))
  }

  /** `slice_select`. */
  method SliceSelect(sr: SliceRelation, ps: seq<Predicate>) returns (out: SliceRelation)
    ensures fresh(out) && out.State() == SliceSelectSpec(sr.State(), ps)
  {
    out := new SliceRelation(sr.dimensions);
    var i := 0;
    while i < |sr.sliceTuples|
      invariant 0 <= i <= |sr.sliceTuples|
      invariant out.dimensions == SortAttrs(sr.dimensions)
      invariant out.sliceTuples == Select(sr.sliceTuples[..i], ps)
    {
      assert sr.sliceTuples[..i + 1][..i] == sr.sliceTuples[..i];
      var t := sr.sliceTuples[i];
      if AllHold(ps, t.features) {
        out.AddSliceTuple(t.region, t.features);
      }
      i := i + 1;
    }
    assert sr.sliceTuples[..i] == sr.sliceTuples;
  }

  /** A slice tuple is kept exactly when all predicates hold on its features. */
  lemma {:induction false} SelectMembers(tuples: seq<SliceTuple>, ps: seq<Predicate>)
    ensures forall t :: t in Select(tuples, ps) <==> t in tuples && AllHold(ps, t.features)
  {
    if tuples != [] {
      var init := tuples[..|tuples| - 1];
      SelectMembers(init, ps);
      assert tuples == init + [tuples[|tuples| - 1]];
    }
  }

  /** Selection keeps the order: selecting from a concatenation concatenates the
      selections. */
  lemma {:induction false} SelectConcat(a: seq<SliceTuple>, b: seq<SliceTuple>, ps: seq<Predicate>)
    ensures Select(a + b, ps) == Select(a, ps) + Select(b, ps)
    decreases |b|
  {
    if b == [] {
      assert a + b == a;
    } else {
      var init := b[..|b| - 1];
      SelectConcat(a, init, ps);
      assert (a + b)[..|a + b| - 1] == a + init;
    }
  }

  /** With no predicates every slice tuple is kept. */
  lemma {:induction false} SelectNoPredicates(tuples: seq<SliceTuple>)
    ensures Select(tuples, []) == tuples
  {
    if tuples != [] {
      SelectNoPredicates(tuples[..|tuples| - 1]);
    }
  }

  // ---------------------------------------------------------------------------
  // flatten
  // ---------------------------------------------------------------------------

  /** `dimensional schema -> list of tables`: the `all_relations` dictionary. */
  type Pending = seq<(seq<Attr>, seq<Table>)>

  /** The dimensional schema of one (region, feature) pair: the sorted union of the
      region's attributes and the feature schema. */
  function FlatKey(region: Region, featureSchema: seq<Attr>): (k: seq<Attr>)
    ensures SortedAttrs(k) && NoRepeats(k)
    ensures Members(k) == Members(Keys(region)) + Members(featureSchema)
  {
    SortedUnion(Keys(region), featureSchema)
  }

  function FlattenFeatures(acc: Pending, region: Region, features: Features): Pending
    decreases |features|
  {
    if features == [] then acc
    else FlattenFeatures(AppendAt(acc, FlatKey(region, features[0].0),
                                  CrossJoin(SingleRowTable(region), features[0].1)),
                         region, features[1..])
  }

  function FlattenTuples(acc: Pending, tuples: seq<SliceTuple>): Pending
    decreases |tuples|
  {
    if tuples == [] then acc
    else FlattenTuples(FlattenFeatures(acc, tuples[0].region, tuples[0].features), tuples[1..])
  }

  /** Adds the concatenation of every list of tables under its schema. */
  function StoreConcat(relations: Relations, pending: Pending): Relations
    decreases |pending|
  {
    if pending == [] then relations
    else StoreConcat(Store(relations, Concat(pending[0].1), pending[0].0), pending[1..])
  }

  function FlattenSpec(sv: SliceValue): SpaceValue {
    SpaceValue(SortAttrs(sv.dimensions), StoreConcat([], FlattenTuples([], sv.sliceTuples)))
  }

  method FlattenOne(acc: Pending, region: Region, features: Features) returns (r: Pending)
    ensures r == FlattenFeatures(acc, region, features)
  {
    r := acc;
    var regionTable := SingleRowTable(region);
    var j := 0;
    while j < |features|
      invariant 0 <= j <= |features|
      invariant FlattenFeatures(r, region, features[j..]) == FlattenFeatures(acc, region, features)
    {
      assert features[j..][1..] == features[j + 1..];
      var joined := CrossJoin(regionTable, features[j].1);
      var schema := SortedUnion(Keys(region), features[j].0);
      r := AppendAt(r, schema, joined);
      j := j + 1;
    }
  }

  /** `flatten`. */
  method Flatten(sr: SliceRelation) returns (out: RelationSpace)
    ensures fresh(out) && out.State() == FlattenSpec(sr.State())
  {
    var pending: Pending := [];
    var i := 0;
    while i < |sr.sliceTuples|
      invariant 0 <= i <= |sr.sliceTuples|
      invariant FlattenTuples(pending, sr.sliceTuples[i..]) == FlattenTuples([], sr.sliceTuples)
    {
      assert sr.sliceTuples[i..][1..] == sr.sliceTuples[i + 1..];
      pending := FlattenOne(pending, sr.sliceTuples[i].region, sr.sliceTuples[i].features);
      i := i + 1;
    }
    out := new RelationSpace(sr.dimensions);
    var k := 0;
    while k < |pending|
      invariant 0 <= k <= |pending|
      invariant out.dimensions == SortAttrs(sr.dimensions)
      invariant StoreConcat(out.relations, pending[k..]) == StoreConcat([], pending)
    {
      assert pending[k..][1..] == pending[k + 1..];
      out.AddRelation(Concat(pending[k].1), pending[k].0);
      k := k + 1;
    }
  }

  /** The rows the features of one region contribute under `key`. */
  function FeatureRows(region: Region, features: Features, key: seq<Attr>): nat
    decreases |features|
  {
    if features == [] then 0
    else (if FlatKey(region, features[0].0) == key then |features[0].1.rows| else 0)
         + FeatureRows(region, features[1..], key)
  }

  /** The rows all slice tuples contribute under `key`. */
  function TupleRows(tuples: seq<SliceTuple>, key: seq<Attr>): nat
    decreases |tuples|
  {
    if tuples == [] then 0
    else FeatureRows(tuples[0].region, tuples[0].features, key) + TupleRows(tuples[1..], key)
  }

  /** Every key of a pending dictionary is its own sorted form. */
  ghost predicate CanonicalKeys(pending: Pending) {
    forall p :: p in pending ==> SortAttrs(p.0) == p.0
  }

  lemma TotalRowsAppend(ts: seq<Table>, t: Table)
    ensures TotalRows(ts + [t]) == TotalRows(ts) + |t.rows|
  {
    assert (ts + [t])[..|ts|] == ts;
  }

  lemma AppendAtInvariant(acc: Pending, key: seq<Attr>, t: Table)
    requires DistinctKeys(acc) && CanonicalKeys(acc) && SortAttrs(key) == key
    ensures DistinctKeys(AppendAt(acc, key, t)) && CanonicalKeys(AppendAt(acc, key, t))
  {
    PutDistinct(acc, key, GetOr(acc, key, []) + [t]);
    PutElements(acc, key, GetOr(acc, key, []) + [t]);
  }

  lemma {:induction false} FlattenFeaturesRows(acc: Pending, region: Region, features: Features, key: seq<Attr>)
    requires DistinctKeys(acc) && CanonicalKeys(acc)
    ensures DistinctKeys(FlattenFeatures(acc, region, features))
    ensures CanonicalKeys(FlattenFeatures(acc, region, features))
    ensures TotalRows(GetOr(FlattenFeatures(acc, region, features), key, []))
      == TotalRows(GetOr(acc, key, [])) + FeatureRows(region, features, key)
    decreases |features|
  {
    if features != [] {
      var k := FlatKey(region, features[0].0);
      var t := CrossJoin(SingleRowTable(region), features[0].1);
      SortAttrsIdempotent(k);
      AppendAtInvariant(acc, k, t);
      var acc' := AppendAt(acc, k, t);
      if k == key {
        TotalRowsAppend(GetOr(acc, key, []), t);
      }
      FlattenFeaturesRows(acc', region, features[1..], key);
    }
  }

  lemma {:induction false} FlattenTuplesRows(acc: Pending, tuples: seq<SliceTuple>, key: seq<Attr>)
    requires DistinctKeys(acc) && CanonicalKeys(acc)
    ensures DistinctKeys(FlattenTuples(acc, tuples)) && CanonicalKeys(FlattenTuples(acc, tuples))
    ensures TotalRows(GetOr(FlattenTuples(acc, tuples), key, []))
      == TotalRows(GetOr(acc, key, [])) + TupleRows(tuples, key)
    decreases |tuples|
  {
    if tuples != [] {
      FlattenFeaturesRows(acc, tuples[0].region, tuples[0].features, key);
      FlattenTuplesRows(FlattenFeatures(acc, tuples[0].region, tuples[0].features), tuples[1..], key);
    }
  }

  lemma {:induction false} StoreConcatGet(relations: Relations, pending: Pending, key: seq<Attr>)
    requires DistinctKeys(pending) && CanonicalKeys(pending)
    ensures Get(StoreConcat(relations, pending), key) ==
      if key in Keys(pending) then Some(Concat(GetOr(pending, key, []))) else Get(relations, key)
    decreases |pending|
  {
    if pending != [] {
      var p := pending[0];
      assert p in pending;
      var rels' := Store(relations, Concat(p.1), p.0);
      assert DistinctKeys(pending[1..]) && CanonicalKeys(pending[1..]) by {
        assert forall q :: q in pending[1..] ==> q in pending;
      }
      StoreConcatGet(rels', pending[1..], key);
      if key == p.0 {
        assert key !in Keys(pending[1..]) by {
          forall i | 0 <= i < |pending[1..]| ensures Keys(pending[1..])[i] != key {
            assert pending[1..][i] == pending[i + 1];
          }
        }
      }
    }
  }

  /** The relation stored under a key has as many rows as all feature tables whose
      flat key it is together; a key with no relation receives no rows. Which keys
      have a relation is `FlattenKeys`. */
  lemma FlattenRowCount(sv: SliceValue, key: seq<Attr>)
    ensures Get(FlattenSpec(sv).relations, key).Some? ==>
      |Get(FlattenSpec(sv).relations, key).value.rows| == TupleRows(sv.sliceTuples, key)
    ensures Get(FlattenSpec(sv).relations, key).None? ==> TupleRows(sv.sliceTuples, key) == 0
  {
    var pending := FlattenTuples([], sv.sliceTuples);
    FlattenTuplesRows([], sv.sliceTuples, key);
    StoreConcatGet([], pending, key);
  }

  /** The flat keys of one region's feature schemas, in order. */
  function FeatureFlatKeys(region: Region, features: Features): (ks: seq<seq<Attr>>)
    ensures |ks| == |features|
    ensures forall j :: 0 <= j < |features| ==> ks[j] == FlatKey(region, features[j].0)
    decreases |features|
  {
    if features == [] then []
    else
      var rest := FeatureFlatKeys(region, features[1..]);
      assert forall j :: 1 <= j < |features| ==> features[1..][j - 1] == features[j];
      [FlatKey(region, features[0].0)] + rest
  }

  /** The flat keys of every (region, feature schema) pair, one slice tuple after another. */
  function TupleFlatKeys(tuples: seq<SliceTuple>): seq<seq<Attr>>
    decreases |tuples|
  {
    if tuples == [] then []
    else FeatureFlatKeys(tuples[0].region, tuples[0].features) + TupleFlatKeys(tuples[1..])
  }

  /** The keys `all_relations` gains from one region's features are their flat keys. */
  lemma {:induction false} FlattenFeaturesKeys(acc: Pending, region: Region, features: Features, key: seq<Attr>)
    ensures key in Keys(FlattenFeatures(acc, region, features)) <==>
      key in Keys(acc) || key in FeatureFlatKeys(region, features)
    decreases |features|
  {
    if features != [] {
      var k := FlatKey(region, features[0].0);
      var acc' := AppendAt(acc, k, CrossJoin(SingleRowTable(region), features[0].1));
      assert key in Keys(acc') <==> key in Keys(acc) || key == k;
      assert FeatureFlatKeys(region, features) == [k] + FeatureFlatKeys(region, features[1..]);
      FlattenFeaturesKeys(acc', region, features[1..], key);
    }
  }

  /** The keys `all_relations` gains from all slice tuples are their flat keys. */
  lemma {:induction false} FlattenTuplesKeys(acc: Pending, tuples: seq<SliceTuple>, key: seq<Attr>)
    ensures key in Keys(FlattenTuples(acc, tuples)) <==> key in Keys(acc) || key in TupleFlatKeys(tuples)
    decreases |tuples|
  {
    if tuples != [] {
      var acc' := FlattenFeatures(acc, tuples[0].region, tuples[0].features);
      FlattenFeaturesKeys(acc, tuples[0].region, tuples[0].features, key);
      FlattenTuplesKeys(acc', tuples[1..], key);
    }
  }

  /** A key is among the flat keys exactly when some (region, feature schema) pair of
      some slice tuple has it. */
  lemma {:induction false} TupleFlatKeysMembers(tuples: seq<SliceTuple>, key: seq<Attr>)
    ensures key in TupleFlatKeys(tuples) <==>
      exists i, j :: 0 <= i < |tuples| && 0 <= j < |tuples[i].features| &&
        FlatKey(tuples[i].region, tuples[i].features[j].0) == key
    decreases |tuples|
  {
    if tuples != [] {
      var rest := tuples[1..];
      var here := FeatureFlatKeys(tuples[0].region, tuples[0].features);
      TupleFlatKeysMembers(rest, key);
      if key in TupleFlatKeys(tuples) {
        if key in here {
          var j :| 0 <= j < |here| && here[j] == key;
          assert FlatKey(tuples[0].region, tuples[0].features[j].0) == key;
        } else {
          var i, j :| 0 <= i < |rest| && 0 <= j < |rest[i].features| &&
            FlatKey(rest[i].region, rest[i].features[j].0) == key;
          assert rest[i] == tuples[i + 1];
          assert FlatKey(tuples[i + 1].region, tuples[i + 1].features[j].0) == key;
        }
      }
      if exists i, j :: 0 <= i < |tuples| && 0 <= j < |tuples[i].features| &&
           FlatKey(tuples[i].region, tuples[i].features[j].0) == key {
        var i, j :| 0 <= i < |tuples| && 0 <= j < |tuples[i].features| &&
          FlatKey(tuples[i].region, tuples[i].features[j].0) == key;
        if i == 0 {
          assert here[j] == key;
        } else {
          assert rest[i - 1] == tuples[i];
          assert FlatKey(rest[i - 1].region, rest[i - 1].features[j].0) == key;
        }
      }
    }
  }

  /** The flattened space has a relation under `key` exactly when some (region, feature
      schema) pair of some slice tuple has `key` as its flat key, whether or not its
      feature table has rows. */
  lemma FlattenKeys(sv: SliceValue, key: seq<Attr>)
    ensures Get(FlattenSpec(sv).relations, key).Some? <==>
      exists i, j :: 0 <= i < |sv.sliceTuples| && 0 <= j < |sv.sliceTuples[i].features| &&
        FlatKey(sv.sliceTuples[i].region, sv.sliceTuples[i].features[j].0) == key
  {
    var pending := FlattenTuples([], sv.sliceTuples);
    FlattenTuplesRows([], sv.sliceTuples, key);
    StoreConcatGet([], pending, key);
    FlattenTuplesKeys([], sv.sliceTuples, key);
    TupleFlatKeysMembers(sv.sliceTuples, key);
  }

  // ---------------------------------------------------------------------------
  // crawl
  // ---------------------------------------------------------------------------

  /** Represent, then SliceTransform, then SliceSelect, then Flatten. */
  function CrawlSpec(sp: SpaceValue, regionSchemas: seq<seq<Attr>>, featureSchemas: seq<seq<Attr>>,
                     ts: seq<Transformation>, ps: seq<Predicate>): Result<SpaceValue>
  {
    match RepresentSpec(sp, regionSchemas, featureSchemas)
    case Failure(e) => Failure(e)
    case Success(s1) => Success(FlattenSpec(SliceSelectSpec(SliceTransformSpec(s1, ts), ps)))
  }

  /** `crawl`. */
  method Crawl(space: RelationSpace, regionSchemas: seq<seq<Attr>>, featureSchemas: seq<seq<Attr>>,
               ts: seq<Transformation>, ps: seq<Predicate>) returns (r: Result<RelationSpace>)
    ensures r.Success? <==> CrawlSpec(space.State(), regionSchemas, featureSchemas, ts, ps).Success?
    ensures r.Success? ==> (fresh(r.value) &&
      r.value.State() == CrawlSpec(space.State(), regionSchemas, featureSchemas, ts, ps).value)
    ensures r.Failure? ==> r.error == CrawlSpec(space.State(), regionSchemas, featureSchemas, ts, ps).error
  {
    var s1 := Represent(space, regionSchemas, featureSchemas);
    if s1.Failure? {
      return Failure(s1.error);
    }
    var s2 := SliceTransform(s1.value, ts);
    var s3 := SliceSelect(s2, ps);
    var finalSpace := Flatten(s3);
    return Success(finalSpace);
  }
}
