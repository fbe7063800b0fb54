/**
 * The data model of the engine: canonical relation schemas and relation
 * tuples, the relation space (relations keyed by their dimensional schema)
 * and the slice relation (a two-level dictionary from region to feature
 * schema to feature table).
 */
module MraData {
  import opened Wrappers
  import opened Ordering
  import opened Dicts
  import opened Tables
  import opened Canonical

  // ---------------------------------------------------------------------------
  // RelationSchema and RelationTuple
  // ---------------------------------------------------------------------------

  /** A relation's schema; the attributes are stored sorted, so the order in which
      they were given does not matter. */
  datatype RelationSchema = RelationSchema(attributes: seq<Attr>)

  /** `RelationSchema(attributes)`. */
  function MakeSchema(attributes: seq<Attr>): (s: RelationSchema)
    ensures SortedAttrs(s.attributes)
    ensures multiset(s.attributes) == multiset(attributes)
  {
    RelationSchema(SortAttrs(attributes))
  }

  /** Two attribute lists give equal schemas exactly when one is a rearrangement of
      the other. */
  lemma MakeSchemaOrderIndependent(a: seq<Attr>, b: seq<Attr>)
    ensures MakeSchema(a) == MakeSchema(b) <==> multiset(a) == multiset(b)
  {
    SortAttrsOrderIndependent(a, b);
  }

  /** Building a schema from the attributes of a schema gives it back. */
  lemma MakeSchemaIdempotent(a: seq<Attr>)
    ensures SortedAttrs(a) ==> MakeSchema(a).attributes == a
    ensures MakeSchema(MakeSchema(a).attributes) == MakeSchema(a)
  {
    SortAttrsIdempotent(a);
  }

  /** A schema has the attributes it was built from. */
  lemma MakeSchemaMembers(a: seq<Attr>)
    ensures Members(MakeSchema(a).attributes) == Members(a)
  {
    SortAttrsMembers(a);
  }

  /** Attribute lists with different members give different schemas. */
  lemma MakeSchemaSeparates(a: seq<Attr>, b: seq<Attr>)
    requires Members(a) != Members(b)
    ensures MakeSchema(a) != MakeSchema(b)
  {
    SortAttrsMembers(a);
    SortAttrsMembers(b);
  }

  /** A region: attribute/value pairs sorted by attribute. */
  type RelationTuple = seq<(Attr, Value)>

  /** `create_relation_tuple(key_values)` for the items of a dictionary. */
  function CreateRelationTuple(keyValues: seq<(Attr, Value)>): (t: RelationTuple)
    requires DistinctKeys(keyValues)
    ensures SortedBy(t, ItemAttr) && DistinctKeys(t)
    ensures multiset(t) == multiset(keyValues)
  {
    SortItems(keyValues)
  }

  /** Dictionaries with the same items give the same tuple whatever their insertion
      order, and dictionaries with different items give different tuples. */
  lemma CreateRelationTupleOrderIndependent(a: seq<(Attr, Value)>, b: seq<(Attr, Value)>)
    requires DistinctKeys(a) && DistinctKeys(b)
    ensures CreateRelationTuple(a) == CreateRelationTuple(b) <==> multiset(a) == multiset(b)
  {
    SortItemsOrderIndependent(a, b);
  }

  /** The tuple holds exactly one pair per key of the dictionary. */
  lemma CreateRelationTupleKeys(keyValues: seq<(Attr, Value)>)
    requires DistinctKeys(keyValues)
    ensures |CreateRelationTuple(keyValues)| == |keyValues|
    ensures KeySet(CreateRelationTuple(keyValues)) == KeySet(keyValues)
    ensures forall k, v :: (k, v) in CreateRelationTuple(keyValues) <==> (k, v) in keyValues
  {
    var t := CreateRelationTuple(keyValues);
    assert |t| == |multiset(t)| == |multiset(keyValues)| == |keyValues|;
    forall p ensures p in t <==> p in keyValues {
      assert p in t <==> p in multiset(t);
      assert p in keyValues <==> p in multiset(keyValues);
    }
    KeySetOfMultiset(t, keyValues);
  }

  /** A one-entry dictionary gives the one-pair tuple. */
  lemma SingleRelationTuple(attr: Attr, v: Value)
    ensures CreateRelationTuple([(attr, v)]) == [(attr, v)]
  {
  }

  // ---------------------------------------------------------------------------
  // RelationSpace
  // ---------------------------------------------------------------------------

  /** A relation space's dimensions and its relations in insertion order. */
  datatype SpaceState = SpaceState(dimensions: RelationSchema, relations: seq<(RelationSchema, Table)>)

  /** What the repository's tests require of a relation added under `schema`: its
      columns that are dimensions of the space are exactly the schema's attributes. */
  predicate Admissible(dimensions: RelationSchema, relation: Table, schema: RelationSchema) {
    ColumnSet(relation) * Members(dimensions.attributes) == Members(schema.attributes)
  }

  /** Every stored relation is admissible under its key. */
  ghost predicate AllAdmissible(sp: SpaceState) {
    forall p :: p in sp.relations ==> Admissible(sp.dimensions, p.1, p.0)
  }

  /** `add_relation` with the check the tests rely on: an inadmissible relation is
      refused with `ValueError` and the space stays as it was. */
  function AddChecked(sp: SpaceState, relation: Table, schema: RelationSchema): (r: Result<SpaceState>)
    ensures r.Success? <==> Admissible(sp.dimensions, relation, schema)
    ensures r.Success? ==> r.value.dimensions == sp.dimensions
    ensures r.Success? ==> Get(r.value.relations, schema) == Some(relation)
    ensures r.Success? ==> forall s :: s != schema ==> Get(r.value.relations, s) == Get(sp.relations, s)
    ensures r.Failure? ==> r.error.ValueError?
  {
    if Admissible(sp.dimensions, relation, schema) then
      Success(SpaceState(sp.dimensions, Put(sp.relations, schema, relation)))
    else
      Failure(ValueError("relation columns do not match its dimensional schema"))
  }

  /** The checked addition keeps every stored relation admissible and the keys distinct. */
  lemma AddCheckedKeepsInvariant(sp: SpaceState, relation: Table, schema: RelationSchema)
    requires AllAdmissible(sp) && DistinctKeys(sp.relations)
    ensures AddChecked(sp, relation, schema).Success? ==>
      AllAdmissible(AddChecked(sp, relation, schema).value) &&
      DistinctKeys(AddChecked(sp, relation, schema).value.relations)
  {
    PutElements(sp.relations, schema, relation);
    PutDistinct(sp.relations, schema, relation);
  }

  class RelationSpace {
    const dimensions: RelationSchema
    var relations: seq<(RelationSchema, Table)>

    function State(): SpaceState
      reads this
    {
      SpaceState(dimensions, relations)
    }

    constructor(dimensions: RelationSchema)
      ensures this.dimensions == dimensions && relations == []
    {
      this.dimensions := dimensions;
      relations := [];
    }

    /** `add_relation` as written: stores `relation` under `schema`, replacing an earlier
        entry for `schema`, without any check. */
    method AddRelation(relation: Table, schema: RelationSchema)
      modifies this
      ensures relations == Put(old(relations), schema, relation)
      ensures GetRelation(schema) == Some(relation)
      ensures forall s :: s != schema ==> GetRelation(s) == old(GetRelation(s))
    {
      relations := Put(relations, schema, relation);
    }

    /** `add_relation` with the check the tests rely on. */
    method AddRelationChecked(relation: Table, schema: RelationSchema) returns (outcome: Outcome)
      modifies this
      ensures AddChecked(old(State()), relation, schema).Success? ==>
        outcome == Pass && State() == AddChecked(old(State()), relation, schema).value
      ensures AddChecked(old(State()), relation, schema).Failure? ==>
        outcome == Fail(AddChecked(old(State()), relation, schema).error) && relations == old(relations)
    {
      if Admissible(dimensions, relation, schema) {
        relations := Put(relations, schema, relation);
        outcome := Pass;
      } else {
        outcome := Fail(ValueError("relation columns do not match its dimensional schema"));
      }
    }

    /** `get_relation`: the relation stored under `schema`, or None for a schema that
        was never added. */
    function GetRelation(schema: RelationSchema): (r: Option<Table>)
      reads this
      ensures r.Some? <==> schema in Keys(relations)
      ensures r.Some? ==> (schema, r.value) in relations
    {
      Get(relations, schema)
    }
  }

  /** The test case that must be refused: columns {Device, Browser, Revenue} added
      under {Device} in a space with dimensions {Device, Browser}, stated for any three
      different names. As written, `add_relation` stores it; the checked addition
      refuses it. */
  lemma InvalidRelationOfTest(device: Attr, browser: Attr, revenue: Attr, rows: seq<Row>)
    requires device != browser
    ensures var sp := SpaceState(MakeSchema([device, browser]), []);
      var t := Table([device, browser, revenue], rows);
      var s := MakeSchema([device]);
      Get(Put(sp.relations, s, t), s) == Some(t) && AddChecked(sp, t, s).Failure?
  {
    var dims := MakeSchema([device, browser]);
    var t := Table([device, browser, revenue], rows);
    MakeSchemaMembers([device, browser]);
    MakeSchemaMembers([device]);
    assert browser in t.columns && browser in [device, browser];
    assert browser in ColumnSet(t) * Members(dims.attributes);
    assert browser !in Members(MakeSchema([device]).attributes);
  }

  /** The test case that must be accepted: columns {Device, Cost} under {Device} in a
      space with dimensions {Device, Browser}, stated for any three different names. */
  lemma ValidRelationOfTest(device: Attr, browser: Attr, cost: Attr, rows: seq<Row>)
    requires device != browser && cost != device && cost != browser
    ensures var sp := SpaceState(MakeSchema([device, browser]), []);
      var t := Table([device, cost], rows);
      var s := MakeSchema([device]);
      AddChecked(sp, t, s) == Success(SpaceState(sp.dimensions, [(s, t)]))
  {
    var dims := MakeSchema([device, browser]);
    var t := Table([device, cost], rows);
    MakeSchemaMembers([device, browser]);
    MakeSchemaMembers([device]);
    assert ColumnSet(t) == {device, cost};
    assert Members([device, browser]) == {device, browser};
    assert ColumnSet(t) * Members(dims.attributes) == {device};
    assert Members([device]) == {device};
    assert Admissible(dims, t, MakeSchema([device]));
    assert Put([], MakeSchema([device]), t) == [(MakeSchema([device]), t)];
  }

  // ---------------------------------------------------------------------------
  // SliceRelation
  // ---------------------------------------------------------------------------

  /** Feature tables by feature schema. */
  type Features = seq<(RelationSchema, Table)>

  /** A slice relation's dimensions and its regions in insertion order. */
  datatype SliceState = SliceState(dimensions: RelationSchema, data: seq<(RelationTuple, Features)>)

  /** What `add_slice_tuple` maintains: regions are distinct, and every region has at
      least one feature table, no two under the same schema. */
  ghost predicate SliceShape(data: seq<(RelationTuple, Features)>) {
    DistinctKeys(data) && forall p :: p in data ==> p.1 != [] && DistinctKeys(p.1)
  }

  lemma PutInKeepsShape(data: seq<(RelationTuple, Features)>, region: RelationTuple,
                        schema: RelationSchema, table: Table)
    requires SliceShape(data)
    ensures SliceShape(PutIn(data, region, schema, table))
  {
    var inner := GetOr(data, region, []);
    assert DistinctKeys(inner) by {
      if Get(data, region).Some? {
        assert (region, inner) in data;
      }
    }
    PutDistinct(inner, schema, table);
    var f := Put(inner, schema, table);
    assert f != [] by {
      assert Get(f, schema).Some?;
    }
    PutElements(data, region, f);
    PutDistinct(data, region, f);
  }

  class SliceRelation {
    const dimensions: RelationSchema
    var data: seq<(RelationTuple, Features)>

    ghost predicate Valid()
      reads this
    {
      SliceShape(data)
    }

    function State(): SliceState
      reads this
    {
      SliceState(dimensions, data)
    }

    constructor(dimensions: RelationSchema)
      ensures this.dimensions == dimensions && data == [] && Valid()
    {
      this.dimensions := dimensions;
      data := [];
    }

    /** `add_slice_tuple`: creates the region if it is missing and sets only its entry
        for `featureSchema`. */
    method AddSliceTuple(region: RelationTuple, featureSchema: RelationSchema, featureData: Table)
      requires Valid()
      modifies this
      ensures Valid()
      ensures data == PutIn(old(data), region, featureSchema, featureData)
    {
      PutInKeepsShape(data, region, featureSchema, featureData);
      data := PutIn(data, region, featureSchema, featureData);
    }

    /** The feature tables of `region`, or None for a region that was never added. */
    function FeaturesOf(region: RelationTuple): (r: Option<Features>)
      reads this
      ensures r.Some? <==> region in Keys(data)
      ensures r.Some? ==> (region, r.value) in data
    {
      Get(data, region)
    }
  }
}
