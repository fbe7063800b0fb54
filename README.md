# MRA in Dafny

A Dafny model of the core of MRA, a multi-relational algebra over pandas tables.
The engine has three parts.

- `mra_data.py`, the data model:
  - canonical relation schemas (sorted attribute tuples);
  - canonical relation tuples (sorted attribute/value items);
  - the `RelationSpace`, which holds relations keyed by their dimensional schema;
  - the `SliceRelation`, a two-level dictionary from region to feature schema to feature table.
- `mra_algebra.py`, the list-based algebra: `create_relation_space`, `represent`,
  `slice_transform`, `slice_select`, `flatten` and `crawl`, over its own list-based
  `RelationSpace` and `SliceRelation`.
- `mra_operators.py`, the class-based operators:
  - pipelines composed with `|`;
  - `CreateRelationSpaceByCube` (a GROUP BY CUBE into a relation space);
  - `Represent` by a single region key;
  - `SliceSelect` by a predicate on a region and its features.

## Modules

| file | module | contents |
|---|---|---|
| `wrappers.dfy` | `Wrappers` | `Option`, `Result`, and `Error` (TypeError, ValueError, KeyError) |
| `dicts.dfy` | `Dicts` | Python dictionaries as insertion-ordered association lists: `d[k] = v`, `d.get`, nested assignment, `setdefault(k, []).append` |
| `ordering.dfy` | `Ordering` | Python's string order; insertion sort as the model of `sorted`, proved a sorted permutation and canonical |
| `tables.dfy` | `Tables` | the DataFrame operations the engine uses: group-by, aggregation, projection, one-row frames, cross join, concatenation |
| `canonical.dfy` | `Canonical` | `tuple(sorted(attrs))`, `tuple(sorted(d.items()))`, and the sorted union of two attribute sets |
| `combinatorics.dfy` | `Combinatorics` | `itertools.combinations` and the power set chained in size order |
| `mra_data.dfy` | `MraData` | `RelationSchema`, `create_relation_tuple`, and the `RelationSpace` and `SliceRelation` classes |
| `mra_algebra.dfy` | `MraAlgebra` | the algebra's classes and its six operators, each a method built from loops, proved equal to a specification function |
| `mra_operators.dfy` | `MraOperators` | the operators as a datatype (`Eval` on values), `Execute` on objects proved to agree with `Eval`, the cube, and the drill-down rule |

Python dictionaries keep insertion order, and that order decides the order of the
operators' output. They are therefore modelled as lists of pairs:
- assigning a key already present keeps its position;
- assigning a new key appends it.

Aggregate functions (`'sum'`, `'max'`, …) are named by strings. An `Aggregator`
parameter supplied by the caller evaluates them. Predicates and transformations are
Dafny functions passed in by the caller.

Where the repository's own description and its code differ, the model follows the
code. Where the code itself is evidently wrong (see Findings), the model states the
code as written in one member and the corrected behaviour in another, and the
operators built on it use the corrected one; "Left out" names each such operator.
The description and the code differ here:
- `represent` in `mra_algebra.py` chooses, among the relations that have every
  required column, the first one with the fewest columns. It does not look up the
  schema `(R ∪ F) ∩ dimensions`.
- `represent` with an empty region schema raises pandas' "No group keys passed!"
  on a non-empty relation. It does not emit a global region.
- `flatten` keys each joined table by the sorted union of the region's attributes
  and the feature schema, and concatenates the tables that share a key. It does not
  build one wide table per region.

The checked `add_relation` follows `mra_data_test.py`: a relation is refused when the
dimensions it contains differ from its schema. The `add_relation` in `mra_data.py`
does not check; see Findings.

## Model

| member | source | states |
|---|---|---|
| `Dicts.Get` | mra_data.py:43-45 | `get` finds a value exactly for the keys present, and what it finds is a pair stored under that key |
| `Dicts.GetStored` | mra_data.py:43-45 | in a dictionary without repeated keys, looking up any stored pair's key yields that pair's value |
| `Dicts.Put` | mra_data.py:39-41 | `d[k] = v`: an existing key keeps its position, a new key goes last; `k` now maps to `v`; every other key maps to what it did before |
| `Dicts.PutDistinct` | mra_data.py:41 | assignment never introduces a repeated key |
| `Dicts.PutNewKeyAppends` | mra_data.py:41 | assigning a key that is not present appends exactly that pair at the end |
| `Dicts.PutKeySet` | mra_data.py:41 | after assignment the key set is the old key set plus `k` |
| `Dicts.PutElements` | mra_data.py:41 | every pair after an assignment is the new pair or a pair that was there before |
| `Dicts.PutAllNewKeys` | mra_algebra.py:148 | building a dictionary from pairs with distinct new keys lists them in their given order |
| `Dicts.PutAllKeys` | mra_algebra.py:148 | the keys of `dict(pairs)` are the old keys plus the pairs' keys |
| `Dicts.PutAllDistinct` | mra_algebra.py:148 | `dict(pairs)` never has a repeated key |
| `Dicts.KeySetOfMultiset` | mra_data.py:76 | rearranging a dictionary's pairs keeps its set of keys |
| `Dicts.DistinctKeysPermutation` | mra_data.py:76 | rearranging a dictionary's pairs keeps its keys distinct |
| `Dicts.PutInGet` | mra_data.py:100-104 | nested assignment: the outer key is added last if new; `data[region][schema]` is the new table; other regions and other schemas of the region are unchanged; a new region holds just the one table |
| `Dicts.PutInGetIn` | mra_data.py:100-104 | after `data[region][schema] = table`, the entry at that region and schema is the new table and every other (region, schema) entry is what it was |
| `Dicts.AppendAt` | mra_algebra.py:224-226 | `setdefault(k, []).append(v)`: the list under `k` grows by `v` at the end, new keys come last, other keys are untouched |
| `Ordering.StrLeReflexive` | mra_data.py:27 | Python's string order is reflexive |
| `Ordering.StrLeTotal` | mra_data.py:27 | any two strings are comparable |
| `Ordering.StrLeAntisymmetric` | mra_data.py:27 | strings that are each ≤ the other are equal |
| `Ordering.StrLeTransitive` | mra_data.py:27 | the string order is transitive |
| `Ordering.InsertByPermutes` | mra_data.py:27 | inserting an element adds exactly that element to the multiset |
| `Ordering.InsertBySorted` | mra_data.py:27 | inserting into a sorted list keeps it sorted |
| `Ordering.SortByCorrect` | mra_data.py:27 | `sorted` returns a permutation of its input in ascending order |
| `Ordering.SortedUnique` | mra_data.py:15-17 | two sorted permutations of the same elements are equal when the sort key tells the elements apart |
| `Ordering.SortByPermutationInvariant` | mra_data.py:15-17 | the sorted result depends only on the multiset of the input, not on its order |
| `Ordering.SortByIdempotent` | mra_data.py:15-17 | sorting an already sorted list returns it unchanged |
| `Tables.KeyOf` | mra_algebra.py:141 | a row's group key has one value per grouping column |
| `Tables.RowOf` | mra_algebra.py:217 | the row built from pairs has exactly the pairs' attributes as columns |
| `Tables.Project` | mra_algebra.py:152 | `group[cols]` has exactly the columns `cols` and as many rows as the group |
| `Tables.GroupKeys` | mra_algebra.py:141 | group keys are pairwise different, one value per key column, and never contain a missing value; which keys occur is `Tables.GroupKeysMembers` |
| `Tables.Groups` | mra_algebra.py:141 | each group has a key of the right width and all of the table's columns; no two groups share a key; which rows each group holds is `Tables.GroupsPartition` |
| `Tables.RowsWithKeyMembers` | mra_algebra.py:141 | a group's rows are exactly the rows of the table whose key is the group's key |
| `Tables.GroupKeysMembers` | mra_algebra.py:141 | a key vector is a group key exactly when it has no missing value and some row has it |
| `Tables.GroupWith` | mra_algebra.py:141 | finds a group with the given key, one of the groups, exactly when some group has that key |
| `Tables.GroupsPartition` | mra_algebra.py:141 | `groupby` partitions the rows by key: there is a group with key `k` exactly when `k` has no missing value and some row has key `k`, and that group holds all the table's columns and exactly the rows with key `k` |
| `Tables.MissingColumn` | mra_algebra.py:130 | reports no column exactly when every requested column exists; a reported column is one that is requested and absent |
| `Tables.GroupBy` | mra_algebra.py:141 | `groupby` fails exactly when a key is not a column, or when there are no keys and the table has rows; otherwise it yields the groups |
| `Tables.ColumnValues` | mra_algebra.py:102-104 | one value per row |
| `Tables.Sources` | mra_algebra.py:99 | the source column of each aggregation, in order |
| `Tables.Outputs` | mra_algebra.py:100 | the output column of each aggregation, in order |
| `Tables.AggregateRow` | mra_algebra.py:102-104 | an aggregated row has exactly the aggregations' output columns |
| `Tables.TotalTable` | mra_operators.py:109 | the grand total has the output columns and exactly one row |
| `Tables.Total` | mra_operators.py:109 | `df.agg` fails exactly when the aggregation dictionary is empty (with pandas' ValueError "No objects to concatenate") or an aggregated column is missing, and otherwise yields the one-row grand total |
| `Tables.GroupedTable` | mra_algebra.py:102-104 | the grouped aggregate has the key columns then the output columns, and one row per group |
| `Tables.KeyClash` | mra_algebra.py:102-104 | finds a key column `reset_index` cannot insert exactly when some grouping key is listed twice or is also an aggregate's output name; the key found is one of those |
| `Tables.Grouped` | mra_algebra.py:102-104 | `groupby(keys).agg(...).reset_index()` fails exactly when the grouping fails, an aggregated column is missing, a grouping key is listed twice, or an aggregate is named like a grouping key; in the last two cases with `reset_index`'s ValueError "cannot insert …, already exists" |
| `Tables.RepeatedKeyRefused` | mra_algebra.py:102-104 | grouping by `[k, k]` fails with "cannot insert k, already exists" |
| `Tables.SingleRowTable` | mra_algebra.py:217 | `pd.DataFrame([region])` has the region's attributes as columns and one row |
| `Tables.CrossJoin` | mra_algebra.py:221 | the join has both tables' columns; with a one-row left side it has as many rows as the right side |
| `Tables.ConcatRows` | mra_algebra.py:230 | the concatenated rows number the sum of the tables' rows |
| `Tables.Concat` | mra_algebra.py:230 | `pd.concat` keeps every row of every table |
| `Canonical.SortAttrs` | mra_algebra.py:23 | `tuple(sorted(schema))` is ascending and a permutation of the schema |
| `Canonical.SortAttrsOrderIndependent` | mra_algebra.py:26-29 | two schemas have the same sorted key exactly when one is a rearrangement of the other |
| `Canonical.SortAttrsIdempotent` | mra_algebra.py:23 | a sorted schema is its own key, and sorting a key again changes nothing |
| `Canonical.SortAttrsMembers` | mra_algebra.py:23 | the key has the same attributes as the schema |
| `Canonical.SortItems` | mra_algebra.py:149 | `tuple(sorted(d.items()))` is ordered by attribute, is a permutation of the items, and keeps keys distinct |
| `Canonical.SortedItemsDistinct` | mra_algebra.py:149 | sorting the items of a dictionary keeps its keys distinct |
| `Canonical.ItemAttrInjective` | mra_algebra.py:149 | in a dictionary's items the attribute identifies the pair, so sorting pairs is sorting by attribute |
| `Canonical.SortItemsOrderIndependent` | mra_data.py:67-68 | two dictionaries give the same sorted items exactly when they have the same items |
| `Canonical.KeysNoRepeats` | mra_algebra.py:223 | the keys of a dictionary have no repeats |
| `Canonical.Dedup` | mra_algebra.py:223 | removing repeats keeps the same members and leaves no repeat |
| `Canonical.SameMembersPermute` | mra_algebra.py:223 | two repeat-free lists with the same members are permutations of each other |
| `Canonical.SortedUnion` | mra_algebra.py:223 | the sorted union of the region's keys and the feature schema is ascending, repeat-free, and has exactly the union of both attribute sets as members |
| `Canonical.SortedUnionOfSet` | mra_algebra.py:223 | the sorted union depends only on the union of the two sets |
| `Combinatorics.Prepend` | mra_operators.py:101 | prefixes every combination with the same element |
| `Combinatorics.CombinationsAt` | mra_operators.py:101 | `combinations(s, r)` lists first those with `s[0]`, then those without, entry by entry |
| `Combinatorics.CombinationsCount` | mra_operators.py:101 | there are `C(len(s), r)` combinations of size `r` |
| `Combinatorics.PascalCount` | mra_operators.py:101 | any count obeying Pascal's recurrence on lists is the binomial coefficient |
| `Combinatorics.BinomialSumAll` | mra_operators.py:101 | the sizes `0..n` together give `2^n` combinations |
| `Combinatorics.CombinationsUpToCount` | mra_operators.py:101 | the chain of sizes `0..n` has the summed binomial count |
| `Combinatorics.PowerSetCount` | mra_operators.py:99-101 | the power set of `k` keys has `2^k` grouping sets |
| `Combinatorics.NoRepeatsCardinality` | mra_operators.py:101 | a repeat-free list has as many members as elements |
| `Combinatorics.CombinationsShape` | mra_operators.py:101 | every combination of distinct keys selects exactly `r` different keys |
| `Combinatorics.CombinationsDistinct` | mra_operators.py:101 | combinations of one size name pairwise different key sets |
| `Combinatorics.CombinationFor` | mra_operators.py:101 | every subset of the keys is some combination of its size |
| `Combinatorics.InCombinationsUpTo` | mra_operators.py:101 | each combination of size at most `n` appears in the size-ordered chain |
| `Combinatorics.PowerSetExactlyOnce` | mra_operators.py:99-101 | the power set of distinct keys lists every subset of the keys, each exactly once |
| `Combinatorics.UpToShape` | mra_operators.py:101 | every grouping set of the chain is repeat-free, at most `n` long, and drawn from the keys |
| `Combinatorics.UpToStartsEmpty` | mra_operators.py:100 | the chain starts with the empty grouping set (the grand total) |
| `Combinatorics.UpToDistinct` | mra_operators.py:101 | no two grouping sets of the chain name the same key set |
| `Combinatorics.TwoKeyCube` | mra_operators.py:99-101 | keys `[x, y]` give the grouping sets `[]`, `[x]`, `[y]`, `[x, y]`, in that order |
| `MraData.MakeSchema` | mra_data.py:21-27 | a schema's attributes are ascending and a permutation of those given |
| `MraData.MakeSchemaOrderIndependent` | mra_data.py:15-17 | `RelationSchema(a) == RelationSchema(b)` exactly when `b` is a rearrangement of `a` |
| `MraData.MakeSchemaIdempotent` | mra_data.py:21-27 | building a schema from a schema's attributes gives it back |
| `MraData.MakeSchemaMembers` | mra_data.py:21-27 | a schema has the attributes it was built from |
| `MraData.MakeSchemaSeparates` | mra_data.py:21-27 | attribute lists with different members give different schemas |
| `MraData.CreateRelationTuple` | mra_data.py:63-77 | the relation tuple is ordered by attribute, is a permutation of the items, and has distinct keys |
| `MraData.CreateRelationTupleOrderIndependent` | mra_data.py:67-68 | dictionaries give equal relation tuples exactly when they have the same items, whatever their insertion order |
| `MraData.CreateRelationTupleKeys` | mra_data.py:76 | the tuple has one pair per dictionary key, the same key set, and exactly the dictionary's pairs |
| `MraData.SingleRelationTuple` | mra_data.py:76 | a one-entry dictionary gives the one-pair tuple |
| `MraData.AddChecked` | mra_data_test.py:20-55 | the checked addition succeeds exactly for an admissible relation; on success it stores the relation under its schema and leaves the dimensions and the other schemas alone; otherwise it raises ValueError |
| `MraData.AddCheckedKeepsInvariant` | mra_data_test.py:24-25 | the checked addition keeps every stored relation admissible and the schema keys distinct |
| `MraData.RelationSpace.constructor` | mra_data.py:35-37 | a new space has the given dimensions and no relations |
| `MraData.RelationSpace.AddRelation` | mra_data.py:39-41 | as written: stores the relation under its schema without a check; only that schema's entry changes |
| `MraData.RelationSpace.AddRelationChecked` | mra_data_test.py:20-55 | on an admissible relation, the new state is the checked addition's; otherwise it reports the ValueError and the relations are unchanged |
| `MraData.RelationSpace.GetRelation` | mra_data.py:43-45 | `get_relation` returns a relation exactly for a stored schema, and that relation is the one stored under it |
| `MraData.InvalidRelationOfTest` | mra_data_test.py:38-55 | columns {Device, Browser, Revenue} under {Device} in a {Device, Browser} space: the unchecked store keeps it, the checked addition refuses it |
| `MraData.ValidRelationOfTest` | mra_data_test.py:20-36 | columns {Device, Cost} under {Device} in a {Device, Browser} space: the checked addition accepts it and stores exactly that relation |
| `MraData.PutInKeepsShape` | mra_data.py:100-104 | `add_slice_tuple` keeps regions distinct, each with at least one feature table and no repeated feature schema |
| `MraData.SliceRelation.constructor` | mra_data.py:89-98 | a new slice relation has the given dimensions and no regions |
| `MraData.SliceRelation.AddSliceTuple` | mra_data.py:100-104 | the data becomes the nested assignment `data[region][schema] = table`, and the shape invariant is kept |
| `MraData.SliceRelation.FeaturesOf` | mra_data.py:98 | finds feature tables exactly for a region that was added, and they are the ones stored for it |
| `MraAlgebra.LookupOrderIndependent` | mra_algebra.py:26-29 | any rearrangement of a schema retrieves the same relation |
| `MraAlgebra.StoreThenLookup` | mra_algebra.py:21-29 | after `add_relation`, every rearrangement of its schema retrieves the new relation, and every other schema retrieves what it did before |
| `MraAlgebra.RelationSpace.constructor` | mra_algebra.py:17-19 | the dimensions are stored sorted, with no relations |
| `MraAlgebra.RelationSpace.AddRelation` | mra_algebra.py:21-24 | stores the relation under the sorted schema |
| `MraAlgebra.RelationSpace.GetRelation` | mra_algebra.py:26-29 | returns a relation exactly when the sorted schema is stored, and it is the one stored there |
| `MraAlgebra.SliceRelation.constructor` | mra_algebra.py:49-51 | the dimensions are stored sorted, with no slice tuples |
| `MraAlgebra.SliceRelation.AddSliceTuple` | mra_algebra.py:53-55 | appends one slice tuple and leaves the earlier ones as they were |
| `MraAlgebra.GlobalTable` | mra_algebra.py:98-100 | the intended grand total has one column per aggregation and one row; it fails exactly when the aggregation dictionary is empty, with pandas' ValueError "No objects to concatenate", or an aggregated column is missing |
| `MraAlgebra.GlobalAggregationCollapses` | mra_algebra.py:98-100 | two aggregations of one column: as written the grand total keeps only the second one's column; as intended it has both |
| `MraAlgebra.GlobalTableAgrees` | mra_algebra.py:98-100 | when no two aggregations share a source column, the grand total as written equals the corrected one, so the collapse is the only difference |
| `MraAlgebra.LastWriteWins` | mra_algebra.py:99 | two entries with the same key in a dictionary comprehension leave only the second |
| `MraAlgebra.CreateRelationSpace` | mra_algebra.py:76-106 | the result succeeds, fails and holds exactly what the specification function says: sorted base columns as dimensions, one relation per grouping set under its sorted form |
| `MraAlgebra.NoAggregationsFail` | mra_algebra.py:98-104 | with an empty aggregation dictionary every grouping set fails: the empty one with the ValueError "No objects to concatenate"; a non-empty one with the grouping's `KeyError` when a key column is missing and otherwise with pandas' TypeError "Must provide 'func' or tuples of '(column, aggfunc)'."; the whole space then fails |
| `MraAlgebra.BuildSpaceFails` | mra_algebra.py:97-105 | building the space fails exactly when the relation of some grouping set cannot be computed |
| `MraAlgebra.BuildSpaceKeys` | mra_algebra.py:97-105 | the space's keys are the sorted grouping sets, each once |
| `MraAlgebra.BuildSpaceLastWins` | mra_algebra.py:97-105 | of grouping sets that sort alike, the last one's relation is the one stored |
| `MraAlgebra.BuildSpaceKeeps` | mra_algebra.py:97-105 | a key that no later grouping set sorts to keeps its relation |
| `MraAlgebra.SortAttrsEmpty` | mra_algebra.py:23 | only the empty schema sorts to the empty key |
| `MraAlgebra.BuildSpaceGrandTotal` | mra_algebra.py:98-100 | the empty grouping set stores a single-row grand total under the empty key |
| `MraAlgebra.Values` | mra_algebra.py:129 | the relations of the space, in order |
| `MraAlgebra.Candidates` | mra_algebra.py:127-131 | the candidates are exactly the tables having every required column |
| `MraAlgebra.FewestIndex` | mra_algebra.py:138 | `min(..., key=len(columns))`: a table with the fewest columns, the first such |
| `MraAlgebra.Zip` | mra_algebra.py:148 | `zip` pairs elements by position and is as long as the shorter list |
| `MraAlgebra.Assemble` | mra_algebra.py:160-161 | one slice tuple per region, in the order of `all_regions` |
| `MraAlgebra.FindCandidates` | mra_algebra.py:128-131 | the candidate loop yields exactly `Candidates` of the relations |
| `MraAlgebra.StoreAllGroups` | mra_algebra.py:141-157 | the group loop stores each group's feature table under its region key, as `StoreGroups` specifies |
| `MraAlgebra.RepresentRegionSchema` | mra_algebra.py:124-157 | the feature-schema loop, including skipped pairs and the group-by error, agrees with its specification |
| `MraAlgebra.Represent` | mra_algebra.py:109-163 | `represent` succeeds, fails and yields exactly what its specification function says, with sorted dimensions |
| `MraAlgebra.SourceChoice` | mra_algebra.py:125-138 | a pair with no candidate contributes nothing; otherwise its source is a relation of the space with every required column and no more columns than any other candidate |
| `MraAlgebra.ZipKeys` | mra_algebra.py:148 | zipping a schema with values gives a dictionary with the schema's attributes as keys |
| `MraAlgebra.RegionKeyOK` | mra_algebra.py:148-149 | a region key is sorted by attribute, has distinct attributes, and has the region schema's attributes |
| `MraAlgebra.PutInShape` | mra_algebra.py:155-157 | storing a feature table keeps regions distinct and feature tables well formed |
| `MraAlgebra.StoreGroupsShape` | mra_algebra.py:141-157 | storing the groups of one relation preserves the shape of `all_regions` |
| `MraAlgebra.RepresentFeaturesShape` | mra_algebra.py:124-157 | every feature schema of one region schema preserves the shape |
| `MraAlgebra.RepresentRegionsShape` | mra_algebra.py:123-157 | every region schema preserves the shape |
| `MraAlgebra.RepresentShape` | mra_algebra.py:109-163 | each region of the result appears once, keyed by its sorted items over one of the region schemas; each feature table sits under its sorted feature schema and has that schema's columns; which regions occur and what is stored is `MraAlgebra.RepresentRegionsIff` and `MraAlgebra.RepresentPairStores` |
| `MraAlgebra.LastRegionGroup` | mra_algebra.py:141-157 | finds a group of the list with the given region key, exactly when there is one |
| `MraAlgebra.StoreGroupsGetIn` | mra_algebra.py:141-157 | after storing the groups, `all_regions[region][sorted(feature_schema)]` is the feature projection of the last group with that region key; every other entry is unchanged |
| `MraAlgebra.StoreGroupsRegions` | mra_algebra.py:141-157 | storing the groups keeps the earlier regions and adds exactly the region of each group |
| `MraAlgebra.RegionKeyInjective` | mra_algebra.py:148-149 | over a region schema without repeated attributes, two value vectors with the same region key are equal |
| `MraAlgebra.ZipValue` | mra_algebra.py:148 | over attributes without repeats, `zip` pairs the `i`-th attribute only with the `i`-th value |
| `MraAlgebra.RepresentPairStores` | mra_algebra.py:124-157 | once a pair's source relation is chosen and grouped by a repeat-free region schema, every group's rows projected on the feature schema are stored under the group's region key and the sorted feature schema |
| `MraAlgebra.PairRegions` | mra_algebra.py:124-157 | one pair keeps the earlier regions and adds exactly the region keys of its source's groups |
| `MraAlgebra.RepresentFeaturesRegions` | mra_algebra.py:124-157 | after one region schema, the regions are the earlier ones plus those of each of its pairs |
| `MraAlgebra.RepresentRegionsRegions` | mra_algebra.py:123-157 | after all region schemas, the regions are the earlier ones plus those of every (region schema, feature schema) pair |
| `MraAlgebra.AssembleRegions` | mra_algebra.py:159-161 | the slice tuples carry exactly the regions of `all_regions` |
| `MraAlgebra.RepresentRegionsIff` | mra_algebra.py:109-163 | `represent` has a slice tuple for a region exactly when some (region schema, feature schema) pair has a source relation with a group whose region key it is |
| `MraAlgebra.TransformTuples` | mra_algebra.py:179-188 | the transformed slice tuples keep their number, order and regions; each one's features are transformed |
| `MraAlgebra.TransformOne` | mra_algebra.py:180-187 | the per-tuple loop applies every transformation in turn, as `TransformFeatures` specifies |
| `MraAlgebra.SliceTransform` | mra_algebra.py:165-189 | `slice_transform` yields the specified slice relation, with fresh sorted dimensions |
| `MraAlgebra.TransformStepStores` | mra_algebra.py:182-186 | a transformation whose sorted schema is present stores its output under the output's sorted columns and leaves every other key alone; one whose schema is absent changes nothing |
| `MraAlgebra.TransformSnoc` | mra_algebra.py:181-186 | the transformations run in list order: running `ts` then `t` is `t` applied to what `ts` produced |
| `MraAlgebra.TransformLastStores` | mra_algebra.py:181-186 | if the last transformation's sorted schema is present after the earlier ones, its output is stored under the output's sorted columns in the final features |
| `MraAlgebra.TransformKeepsKeys` | mra_algebra.py:180-187 | every feature schema of a slice tuple survives the transformations, in its position |
| `MraAlgebra.TransformChangesOnlyCanonical` | mra_algebra.py:183-187 | an entry changes only under the sorted columns of the table now stored there |
| `MraAlgebra.TransformNoMatch` | mra_algebra.py:182-183 | when no transformation's schema is present, the features are unchanged |
| `MraAlgebra.SliceSelect` | mra_algebra.py:192-205 | `slice_select` yields the specified slice relation, with sorted dimensions |
| `MraAlgebra.SelectMembers` | mra_algebra.py:201-204 | a slice tuple is kept exactly when every predicate holds on its features |
| `MraAlgebra.SelectConcat` | mra_algebra.py:201-204 | selection keeps the order: selecting from a concatenation concatenates the selections |
| `MraAlgebra.SelectNoPredicates` | mra_algebra.py:203 | with no predicates every slice tuple is kept |
| `MraAlgebra.FlatKey` | mra_algebra.py:223 | the dimensional schema is sorted, repeat-free, and is the union of the region's attributes and the feature schema |
| `MraAlgebra.FlattenOne` | mra_algebra.py:217-226 | the per-tuple loop joins the region with each feature table and files it under its key |
| `MraAlgebra.Flatten` | mra_algebra.py:208-232 | `flatten` yields the specified relation space, whose keys (`FlattenKeys`) and row counts (`FlattenRowCount`) are proved below |
| `MraAlgebra.TotalRowsAppend` | mra_algebra.py:226 | appending a table adds its rows to the pending count |
| `MraAlgebra.AppendAtInvariant` | mra_algebra.py:224-226 | pending keys stay distinct and sorted |
| `MraAlgebra.FlattenFeaturesRows` | mra_algebra.py:218-226 | under each key, the pending tables gain exactly the rows of the region's feature tables that land there |
| `MraAlgebra.FlattenTuplesRows` | mra_algebra.py:216-226 | the same over all slice tuples |
| `MraAlgebra.StoreConcatGet` | mra_algebra.py:229-230 | each pending key gets the concatenation of its tables; other keys keep their relation |
| `MraAlgebra.FeatureFlatKeys` | mra_algebra.py:218-223 | one dimensional schema per feature schema of a region, in order |
| `MraAlgebra.FlattenFeaturesKeys` | mra_algebra.py:218-226 | the keys of `all_relations` after one region's features are the earlier keys plus the dimensional schema of each feature schema |
| `MraAlgebra.FlattenTuplesKeys` | mra_algebra.py:216-226 | the same over all slice tuples |
| `MraAlgebra.TupleFlatKeysMembers` | mra_algebra.py:216-223 | a schema is among the collected keys exactly when some (region, feature schema) pair of some slice tuple has it as dimensional schema |
| `MraAlgebra.FlattenKeys` | mra_algebra.py:208-232 | the flattened space has a relation under a schema exactly when some (region, feature schema) pair has that schema as its dimensional schema, even a pair whose feature table has no rows |
| `MraAlgebra.FlattenRowCount` | mra_algebra.py:208-232 | a relation of the flattened space has as many rows as all the feature tables whose key it is; a schema without a relation receives no rows |
| `MraAlgebra.Crawl` | mra_algebra.py:235-251 | `crawl` is Represent, then SliceTransform, then SliceSelect, then Flatten, and fails only when Represent fails |
| `MraOperators.Compose` | mra_operators.py:45-75 | composing `a` with `b` by the pipe operator gives a pipeline of the operators of both sides; a pipeline on either side is spliced in |
| `MraOperators.ComposeAssociative` | mra_operators.py:45-75 | composition by the pipe operator is associative: both groupings of three operators build the same pipeline |
| `MraOperators.EvalSeqConcat` | mra_operators.py:64-69 | running a concatenation of operator lists is running the first list, then the second on its result; an error stops the run |
| `MraOperators.EvalOpsOf` | mra_operators.py:56-69 | an operator means the same as the pipeline of its operator list |
| `MraOperators.EmptyPipeline` | mra_operators.py:64-69 | the empty pipeline returns its input |
| `MraOperators.PipeChain` | mra_operators.py:45-53 | piping data into `a` and then `b` gives the same result as piping it into the composition of `a` and `b` |
| `MraOperators.WrongInputType` | mra_operators.py:92-161 | each operator refuses the wrong kind of input with its own TypeError message |
| `MraOperators.CubeAggs` | mra_operators.py:109-112 | each aggregate is named after its source column |
| `MraOperators.CubeRelations` | mra_operators.py:104-116 | one relation per grouping set, in order |
| `MraOperators.CubeStep` | mra_operators.py:105-116 | on a well-posed cube, each repeat-free grouping set within the keys aggregates without error and passes the admissibility check |
| `MraOperators.CubeAppend` | mra_operators.py:115-116 | a grouping set with a new schema is appended to the space with distinct keys |
| `MraOperators.CubeRelationsCons` | mra_operators.py:104-116 | the relations of a list of grouping sets are the first one's and then the rest's |
| `MraOperators.CubeFoldShape` | mra_operators.py:104-116 | from a space without those schemas, the grouping sets add exactly their relations, in order |
| `MraOperators.GroupingSetsTail` | mra_operators.py:103 | the grouping sets after the first are still repeat-free lists of keys naming different sets |
| `MraOperators.CubeNoAggregationsFails` | mra_operators.py:103-109 | with an empty aggregation dictionary the cube fails at its first grouping set, the grand total, with the ValueError "No objects to concatenate" |
| `MraOperators.PowerSetRelations` | mra_operators.py:99-116 | `2^k` relations under pairwise different schemas, one for every subset of the keys, the grand total first |
| `MraOperators.CubeIsPowerSetRelations` | mra_operators.py:92-118 | a well-posed cube succeeds with one relation per element of the power set, in order, with the keys as dimensions |
| `MraOperators.CubeShape` | mra_operators.py:92-118 | a well-posed cube succeeds with `2^k` relations under distinct schemas in power-set order, one for every subset; the first is the one-row grand total under the empty schema |
| `MraOperators.TwoKeyCubeRelations` | mra_operators.py:97-116 | keys `[x, y]` give exactly four relations, under `{}`, `{x}`, `{y}` and `{x, y}` |
| `MraOperators.FourSchemas` | mra_operators.py:115-116 | four grouping sets give relations under their four schemas |
| `MraOperators.Cube` | mra_operators.py:92-118 | the cube method succeeds, fails, and builds the space exactly as `CubeSpec` says |
| `MraOperators.NewSliceRelation` | mra_data.py:89-98 | `SliceRelation(*args)` succeeds exactly with one argument (the dimensions), and raises TypeError otherwise |
| `MraOperators.FeatureCols` | mra_operators.py:138 | the feature columns are exactly the columns other than the region key |
| `MraOperators.PutInFrom` | mra_operators.py:146 | storing a feature table that comes from a relation keeps every region traceable to the relations |
| `MraOperators.AddGroupsShape` | mra_operators.py:141-146 | adding the groups of one relation keeps the slice shape and traceability |
| `MraOperators.RepresentDataShape` | mra_operators.py:136-146 | the same over all relations of the space |
| `MraOperators.RepresentShape` | mra_operators.py:136-146 | with the dimensions passed, `Represent(key)` succeeds: each region occurs once as the single pair `(key, value)`; each feature table comes from a relation with the key column, under the schema of that relation's other columns; which regions occur and which rows each table holds is `MraOperators.RepresentContents` |
| `MraOperators.KeyGroup` | mra_operators.py:141-142 | grouping a relation by the key gives a group for value `v` exactly when `v` is not missing and some row has it, and that group holds exactly those rows |
| `MraOperators.LastGroupRegion` | mra_operators.py:143 | a group's region is `region` exactly when `region` is the single pair `(key, v)` and the group's key is `[v]` |
| `MraOperators.AddGroupsGetIn` | mra_operators.py:142-146 | after adding one relation's groups, region `(key, v)` holds under the relation's feature schema the projection of the group with key `[v]`; every other entry is unchanged |
| `MraOperators.AddGroupsRegions` | mra_operators.py:142-146 | adding one relation's groups keeps the earlier regions and adds `(key, v)` for each group key `[v]` |
| `MraOperators.RepresentStepRegion` | mra_operators.py:137-146 | one relation adds region `(key, v)` exactly when it has the key column and a row with key value `v` |
| `MraOperators.RepresentDataGetIn` | mra_operators.py:136-146 | over all relations, the table under region `(key, v)` and a schema is the one `RepresentedTable` names |
| `MraOperators.RepresentDataRegions` | mra_operators.py:136-146 | over all relations, region `(key, v)` is present exactly when some relation has the key column and a row with key value `v` |
| `MraOperators.RepresentDataOtherRegions` | mra_operators.py:143 | no region other than a single `(key, v)` pair occurs |
| `MraOperators.RepresentedTableLast` | mra_operators.py:136-146 | the table named for region `(key, v)` and a relation's feature schema is that relation's rows with key value `v`, projected on its other columns, when no later relation with such a row has the same feature schema |
| `MraOperators.RepresentContents` | mra_operators.py:130-146 | `Represent(key)` has region `(key, v)` exactly when some relation with the key column has a row with key value `v`, no other regions, and under each schema the projection of the last such relation with that feature schema |
| `MraOperators.RepresentAsWrittenFails` | mra_operators.py:134 | as written, `Represent` raises TypeError on every relation space |
| `MraOperators.RepresentSlices` | mra_operators.py:134-148 | the object-level loop builds exactly the slice relation `RepresentWith` specifies, with the invariant kept |
| `MraOperators.RepresentRelation` | mra_operators.py:137-146 | a relation without the region key adds nothing; otherwise its groups are added |
| `MraOperators.AddGroupSlices` | mra_operators.py:141-146 | one `add_slice_tuple` per group, in group order, keeping the invariant |
| `MraOperators.CopyFeaturesGet` | mra_operators.py:167-168 | copying the features of a new region stores exactly those features under it and leaves the other regions alone |
| `MraOperators.PutInAppends` | mra_operators.py:168 | adding a feature new to a region appends it to the region's features |
| `MraOperators.PutInOthers` | mra_operators.py:168 | adding a feature to one region leaves every other region as it was |
| `MraOperators.SelectDataGet` | mra_operators.py:165-168 | a region is kept with all its feature tables when the predicate holds on it, and dropped entirely otherwise |
| `MraOperators.SelectShape` | mra_operators.py:159-170 | with the dimensions passed, `SliceSelect` succeeds, keeps the dimensions, and keeps exactly the regions the predicate accepts, with their features |
| `MraOperators.SelectAsWrittenFails` | mra_operators.py:164 | as written, `SliceSelect` raises TypeError on every slice relation |
| `MraOperators.SelectSlices` | mra_operators.py:164-170 | the object-level loop builds exactly the slice relation `SelectWith` specifies, with the invariant kept |
| `MraOperators.SelectRegion` | mra_operators.py:165-168 | a region the predicate rejects adds nothing; otherwise its features are copied |
| `MraOperators.CopyFeatureSlices` | mra_operators.py:167-168 | one `add_slice_tuple` per feature table of a selected region |
| `MraOperators.DrillDownMembers` | mra_operators_test.py:72-76 | a region is kept exactly when it descends from the drill-down parents |
| `MraOperators.DrillDownTwo` | mra_operators_test.py:72-76 | of two regions where only the first descends from the parents, only the first is kept |
| `MraOperators.TwoRegions` | mra_operators_test.py:46-49 | two different regions added one after the other are the two entries, in order |
| `MraOperators.PairChild` | mra_operators_test.py:51-56 | under parents `{[x], [y]}`, `[y, x]` descends from them and `[z, x]` does not |
| `MraOperators.SortedPair` | mra_operators_test.py:40-43 | a relation tuple over Device and Browser lists Browser first |
| `MraOperators.DrillDownPair` | mra_operators_test.py:51-76 | the drill-down keeps only the region whose projections are all parents |
| `MraOperators.DrillDownByBrowser` | mra_operators_test.py:25-76 | with parents (Device=d) and (Browser=b1), the region (Device=d, Browser=b1) is kept and (Device=d, Browser=b2) is dropped |
| `MraOperators.Execute` | mra_operators.py:40-43 | running an operator on objects succeeds exactly when `Eval` does, and its result holds `Eval`'s value or error |
| `MraOperators.EvalSeqStops` | mra_operators.py:67-68 | a failing operator ends the pipeline with its error |
| `MraOperators.EvalSeqGoesOn` | mra_operators.py:67-68 | a succeeding operator passes its output to the rest of the pipeline |
| `MraOperators.EvalSeqCons` | mra_operators.py:67-68 | the rest of a pipeline is its next operator, then the remainder |
| `MraOperators.ExecuteAll` | mra_operators.py:64-69 | `Pipeline._execute` on objects: each output is the next input, the first error stops the run, and the result agrees with `EvalSeq` |

## Left out

- Printing: the `print` in `__call__` and in the cube, and every `__repr__`, are I/O and are not modelled.
- Aggregate functions are not computed: they are named by a string and evaluated by a caller-supplied `Aggregator`. Floating-point arithmetic is not modelled. NaN appears only as a missing cell (`Missing`), which a group key never contains.
- Tables.Groups: groups come in order of first appearance, whereas pandas sorts them by key value. The order of regions and rows can therefore differ from the source's; which groups exist and what they contain are the same.
- Tables.CrossJoin: clashing column names are not renamed with pandas' `_x`/`_y` suffixes; the column lists are concatenated.
- Tables.Concat: the column list keeps repeated names, where pandas takes their union; only the rows are specified.
- The helper `key` column of the merge in `flatten` is not materialised, because it is dropped right after the join.
- MraAlgebra.Transformation: a transformation is a total function from table to table; a transformation that raises is not modelled. Its `new_name` is carried along but unused, as in the source. Likewise the predicates of `slice_select` (`MraAlgebra.Predicate`) and of the `SliceSelect` operator (`MraOperators.SlicePredicate`) are total functions to `bool`; a predicate that raises is not modelled.
- MraAlgebra.CreateRelationSpace: the relation of the empty grouping set is the corrected grand total `GlobalTable`, with one column per aggregation. The source's total, which collapses aggregations that share a source column (see Findings), is `GlobalTableAsWritten`; `GlobalTableAgrees` proves the two equal whenever no two aggregations share a source column, so the model and the source differ only on that input.
- MraAlgebra.RepresentPairStores: stated for region schemas without a repeated attribute, where distinct groups have distinct region keys. With a repeated attribute `dict(zip(...))` keeps one value per attribute, so several groups can share a region key and the last one stored wins; `StoreGroupsGetIn` covers that case for any region schema.
- `slice_transformations/` (the abstract `SliceTransformation` and `ratio_transformation`) is not part of this model.
- `SliceTransform`, `SliceProject`, `Flatten` and `Crawl` operator classes: `mra_operators_test.py` imports `SliceTransform`, but `mra_operators.py` does not define it. The drill-down rule that test checks is modelled on its own (`DrillDown`): a region is kept when removing any one of its items gives a parent region. The variant that checks only projections onto known parent schemas is not modelled.
- Operator subclasses beyond the four in `mra_operators.py` cannot be added to the `Operator` datatype.
- `data | op`: when `data` is a DataFrame, pandas' own `__or__` would be tried before `__ror__`; the model takes `__ror__` as written.
- The round trip Represent → SliceProject → Flatten back to the cube's aggregates depends on `SliceProject`, which is not in the core.
- MraOperators.CubeShape: proved only for a well-posed cube (distinct keys that are columns, at least one aggregation, aggregated columns that are not keys); with no aggregation the cube fails (`CubeNoAggregationsFails`). For other inputs the model still runs the cube, with the errors pandas raises (a missing column, an aggregated column that is also a grouping key, which `reset_index` cannot insert twice).
- MraOperators.Cube: uses the checked `add_relation` (see Findings). For a well-posed cube the check never refuses (`CubeStep`); for an ill-posed one the model may refuse where the unchecked source stores.
- MraOperators.CubeRelation: a non-empty grouping set with an empty aggregation dictionary yields just its key columns; what pandas' grouped `agg({})` does there is not modelled. A cube never reaches that case, because its first grouping set, the grand total, already fails (`CubeNoAggregationsFails`).
- MraOperators.Execute: the `Represent` and `SliceSelect` operators run the corrected `SliceRelation(dimensions)`, as `Eval` does through `RepresentWith([dimensions], …)` and `SelectWith([dimensions], …)`. As written they raise TypeError on every call (see Findings; `RepresentAsWrittenFails` and `SelectAsWrittenFails`), so the agreement with `Eval` is stated for the corrected operators.
- MraOperators.ExecuteAll: a pipeline runs the same corrected `Represent` and `SliceSelect`.
- The test lemmas (`InvalidRelationOfTest`, `ValidRelationOfTest`, `TwoKeyCubeRelations`, `DrillDownByBrowser`) are stated for arbitrary attribute names and values rather than the test's literal strings. Sorting the literals is the only fact lost; `SortedPair` proves it for Device/Browser.
- Integers are unbounded; pandas' int64 overflow is not modelled.

## Findings

| source | as written | input that shows it | evidently intended | confidence | as-written member | corrected member |
|---|---|---|---|---|---|---|
| mra_data.py:39-41 | `add_relation` stores any relation under any schema, with no check | dimensions {Device, Browser}; columns {Device, Browser, Revenue} under schema {Device} (mra_data_test.py:45-55) | raise ValueError and leave the space unchanged when the relation's dimension columns differ from its schema | not executed | `MraData.InvalidRelationOfTest` | `MraData.AddChecked` |
| mra_operators.py:134 | `Represent` builds its result with `SliceRelation()`, but the constructor requires `dimensions`, so every call raises TypeError | any relation space | `SliceRelation(data.dimensions)` | not executed | `MraOperators.RepresentAsWrittenFails` | `MraOperators.RepresentShape` |
| mra_operators.py:164 | `SliceSelect` builds its result with `SliceRelation()`, so every call raises TypeError | any slice relation | `SliceRelation(data.dimensions)` | not executed | `MraOperators.SelectAsWrittenFails` | `MraOperators.SelectShape` |
| mra_algebra.py:98-100 | the global aggregation keys both dictionaries by source column, so aggregations that share a source collapse into the last one | aggregations `TotalCost = sum(Cost)` and `MaxCost = max(Cost)` with the empty grouping set | one output column per aggregation, as the grouped branch gives | not executed | `MraAlgebra.GlobalAggregationCollapses` | `MraAlgebra.GlobalTable` |
