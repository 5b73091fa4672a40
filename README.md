# mongo-om reference engine and query builder, in Dafny

This project models the core of mongo-om, an object-document mapper for MongoDB. The core has four parts.

- **References** (`mongo_om/db/references.py`).
  - The `Ref` and `RefMany` metadata, with their defaults.
  - `build_dereference_pipeline`, which compiles a list of references into `$lookup` / `$addFields` / `$unwind` / `$set` aggregation stages.
  - `get_reverse_references`, which lists the `(collection, ref)` pairs of a database that point at a collection.
- **Planners of `Collection`** (`mongo_om/db/collection.py`).
  - `_db_field` and `_db_id_field`.
  - `_db_dump_data`, the stored form of an object.
  - `_db_save_op`: a save, flattened into upserts with referenced objects first.
  - `_db_delete_op`: a delete, flattened into the work of its dependents followed by the delete itself. CASCADE deletes the dependents; SET_NULL prunes and re-saves them.
  - `fetch` and `afetch_one`, which assemble the read pipeline.
  - The `asave` and `adelete` entry points.
- **`Database`** (`mongo_om/db/database.py`).
  - The `__colls__` registry, and the `Collection`, `TimeSeriesCollection` and `CappedCollection` factories.
  - The `_db` guard and `aconnect`.
  - `_apply`, which groups a batch of write requests by collection and submits one ordered bulk write per group.
- **Expressions** (`mongo_om/db/expresions.py`).
  - `Query` with `&`, `|` and `~`, and the nine operator constructors.
  - The keyword parser `Q`.
  - `Sort` with `|`, plus `asc` and `desc`.

The modules follow the program:

- `Values`: Python values, results with exceptions, and the fold `Then`/`ThenAll` that `ops.extend` and `pipeline.append` loops amount to.
- `Expressions`.
- `Mongo`: the aggregation stages and write requests, as shapes only.
- `Grouping`: the `defaultdict(list)` of `_apply`.
- `Schema`: `Ref`, the `Collection` class and the `Database` class. They refer to each other, so they share one module.
- `References`.
- `Collections`.

Each loop of references.py, collection.py and database.py is a method with loop invariants. Each such method is proved equal to a recursive function, and the properties are lemmas about those functions. The `for` folds of expresions.py (`Q`, `asc`, `desc`) and the list comprehensions of collection.py (lines 150, 166 and 202-207) are recursive functions themselves.

Some state is mutable in the source and in the model:

- Collections and databases are classes whose identity matters (`is`, replacement in the registry).
- The registry and the connection are fields that methods update.

`model_dump` is the function parameter `dump`. Reading documents back is `Collections.Read`. As the cursor does, it raises `DatabaseError` while the collection's database is not connected. Otherwise it yields what the function parameter `store` returns, which stands for the server running a pipeline and for `model_validate`. Aggregation results are never computed.

Termination is guaranteed differently for each recursion:

- **Pipeline and delete recursion.** Every collection carries a ghost rank above the ranks of the collections it references. The rank is assigned by the constructor, so the reference graph is acyclic by construction. The delete recursion walks from a collection to the collections that reference it. It decreases the number of registered collections that rank above the current one.
- **Save recursion.** It is bounded by the height of the finite object tree.

At mongo_om/db/collection.py:205-206 the SET_NULL many-reference filter compares `getattr(j, coll.id_field)` with `getattr(d, coll.id_field)`. Here `coll` is the dependent collection, not the collection of the deleted object `d`. The model follows the code: `Collections.Prune` passes `dc.idField`.

## Model

| member | source | states |
|---|---|---|
| `Schema.RefDefaults` | mongo_om/db/references.py:16-30 | The defaults are `ref = "id"`, single cardinality and CASCADE. The local field is `field + "_" + ref` when none is given (or the given one is empty, since `local or ...` treats `""` as false). A non-empty explicit local field is kept verbatim. |
| `Schema.RefManyDefaults` | mongo_om/db/references.py:33-50 | `RefMany` always has `many` set and defaults to SET_NULL. Every other argument reaches `Ref` unchanged. |
| `References.BuildDereferencePipeline` | mongo_om/db/references.py:53-102 | The loop with its recursive calls returns exactly the pipeline the recursive function `DereferencePipeline` defines, including its `KeyError` when an alias lookup fails. |
| `References.AppendRefBlock` | mongo_om/db/references.py:61-101 | One iteration appends exactly the stage block of one reference to the pipeline built so far. |
| `References.RefStagesShape` | mongo_om/db/references.py:58-101 | The stages of one reference, in order: 1. a `$lookup` from the target's name on `local`, into `field`, whose nested pipeline is the target's own dereference pipeline followed by `{$limit: 1}` exactly when the reference is single; 2. `$addFields` exactly under SET_NULL; 3. an `$unwind` that preserves empty results, exactly for a single reference; 4. last, the `$set` of the target's id field from `$_id`. |
| `References.ForeignFieldSpec` | mongo_om/db/references.py:58-60 | `foreignField` is `_id` exactly when `ref.ref` is the target's id field. Otherwise it is the stored name (alias) of `ref.ref`, which is `ref.ref` itself for a field without an alias, and an unknown field raises `KeyError`. |
| `References.SetNullCondSpec` | mongo_om/db/references.py:76-89 | The SET_NULL condition tests `$field` against `[]`. It yields `[]` for a many-reference and `[None]` for a single one; otherwise it yields `$field`. |
| `References.PipelineLength` | mongo_om/db/references.py:56-102 | No references give the empty pipeline. Otherwise the length is the sum over references of 2 + [SET_NULL] + [single]. |
| `References.PipelineAppend` | mongo_om/db/references.py:57-102 | The pipeline of a concatenation of reference lists is the concatenation of their pipelines, and an error in the first part wins. |
| `References.PipelineBlocks` | mongo_om/db/references.py:57-102 | One stage group per reference, in declaration order: the stages of reference `i` are exactly the slice that starts after the groups of the references before it. |
| `References.PipelineStageKinds` | mongo_om/db/references.py:56-102 | At the top level there are only `$lookup`, `$addFields`, `$unwind` and `$set` stages, and a non-empty reference list starts with a `$lookup`. |
| `References.GetReverseReferences` | mongo_om/db/references.py:105-114 | The nested loops return exactly `ReverseReferences(coll)`: the registry scanned in insertion order, skipping `coll`, then each collection's references in declaration order. |
| `References.ScanReverseStep` | mongo_om/db/references.py:110-113 | One turn of the outer loop adds the references of the next collection to `coll`, or nothing when that collection is `coll`. |
| `References.AppendRefsTo` | mongo_om/db/references.py:111-113 | The inner loop appends `(c, ref)` for exactly the references of `c` whose target is `coll`, in order. |
| `References.ScanReverseIff` | mongo_om/db/references.py:107-113 | A pair is found exactly when its collection is scanned, is not `coll`, and holds a reference to `coll`. |
| `References.ReverseReferencesIff` | mongo_om/db/references.py:105-114 | `(c, r)` is returned exactly when `c` is registered in `coll`'s database, `c` is not `coll`, `r` is one of `c`'s references and `r` targets `coll`. A self-reference is never returned. |
| `References.ReverseReferenceRanks` | mongo_om/db/references.py:105-114 | A collection found by the scan is registered under its own name in the same database and ranks above `coll`, which is what makes the delete recursion finite. |
| `Schema.DefaultCollectionName` | mongo_om/db/collection.py:56 | An explicit non-empty name is kept. Otherwise the name is the lower-cased model name followed by `s` (`User` gives `users`). |
| `Schema.InheritSettings` | mongo_om/db/collection.py:60-64 | Each setting is the collection's own when set and the database's otherwise. Inheriting twice changes nothing. |
| `Schema.Collection.constructor` | mongo_om/db/collection.py:31-72 | The new collection holds its arguments, its derived name and its inherited settings, and is acyclic. |
| `Schema.Collection.DbField` | mongo_om/db/collection.py:132-133 | `_db_field(f)` is the alias of `f` when it has a non-empty one and `f` otherwise. An undeclared field raises `KeyError`. |
| `Schema.Collection.DbIdField` | mongo_om/db/collection.py:135-136 | `_db_id_field` is `_db_field(id_field)`. |
| `Collections.Subscript` | mongo_om/db/collection.py:150-155 | `v[key]` succeeds exactly on a dictionary that holds `key`, and then gives its entry. A dictionary without `key` raises `KeyError`. |
| `Collections.DbDumpData` | mongo_om/db/collection.py:141-157 | The loop that pops and assigns keys of `son` computes exactly `DumpData`. |
| `Values.Iterate` | mongo_om/db/collection.py:166 | This is the iteration over a many-reference field here and at lines 150 and 202-207. A list iterates to its items and a `str` to its one-character strings. An empty dict or model iterates to nothing. `None`, booleans, integers and ids raise `TypeError`. Iteration succeeds exactly in these cases. |
| `Collections.ForeignKeysSpec` | mongo_om/db/collection.py:149-153 | The many-reference projection keeps length and order: entry `i` is the foreign key of referenced document `i`. It fails exactly when one of them fails. |
| `Collections.DumpRefsSpec` | mongo_om/db/collection.py:146-156 | The loop over references succeeds exactly when every reference field is present and projectable. Then each `field` is gone, each `local` holds the projection (`None` stays `None`), and every other key is untouched. |
| `Collections.DumpDataSpec` | mongo_om/db/collection.py:141-157 | The lemma assumes `Separate(c.refs)`: no reference's field is the local field of any reference (its own included), and no two references share a field or a local field. It also assumes that neither `_id` nor the aliased id key is a field or local of a reference. Under those assumptions, `_id` holds what the aliased id key held, and that key is gone. Reference fields are moved to their local fields, and every other key is unchanged. It fails exactly when the id field is undeclared, the aliased id or a reference field is missing, or a projection fails; the first two raise `KeyError`. |
| `Collections.DbSaveOp` | mongo_om/db/collection.py:159-180 | The outer loop of `_db_save_op` computes exactly `SaveOps`. |
| `Collections.DbSaveRefs` | mongo_om/db/collection.py:163-167 | The inner loop over `self.refs` computes exactly the ops of the referenced objects of one object. |
| `Collections.DbOwnSaveOp` | mongo_om/db/collection.py:168-179 | The object's own op is the upsert `ReplaceOne({_id: id}, dump, collation, upsert=True)` that `OwnSaveOp` defines. |
| `Collections.SaveOpsSpec` | mongo_om/db/collection.py:159-180 | Empty input plans nothing. The save succeeds exactly when every object's ops can be built, and then returns the objects' ops one after the other, in input order. |
| `Collections.SaveObjectSpec` | mongo_om/db/collection.py:161-179 | An object's ops are one block per reference, in declaration order, followed by its own upsert. |
| `Collections.SaveTopLevelOrder` | mongo_om/db/collection.py:160-180 | Every top-level object's own upsert is in the plan, and for `i < j` the upsert of object `i` comes before that of object `j`. |
| `Collections.ReferencedFirst` | mongo_om/db/collection.py:163-179 | All the ops of an object that `d` references form one contiguous run inside `d`'s ops, before `d`'s own upsert, which is last. |
| `Collections.SaveChain` | mongo_om/db/collection.py:163-178 | For a chain X→Y→Z, Z's upsert precedes Y's, which precedes X's. |
| `Collections.SavePlanShape` | mongo_om/db/collection.py:159-180 | Every planned op is an upsert by `_id`. There is exactly one per object reached: the objects themselves plus, recursively, their non-null references. |
| `Collections.NullRefsSaveNothing` | mongo_om/db/collection.py:164-166 | A single reference holding `None` plans nothing. So does a many-reference holding an empty list, `str`, dict or model. A many-reference that `Values.Iterate` cannot iterate raises that error. The objects saved through a reference are exactly the non-null ones it holds or iterates to. |
| `Collections.Fetch` | mongo_om/db/collection.py:239-257 | The appends of `fetch` compute exactly `FetchPipeline`. |
| `Collections.FetchSpec` | mongo_om/db/collection.py:248-256 | The read pipeline is the dereference pipeline followed by the optional stages. It fails exactly when the dereference pipeline does. |
| `Collections.FetchTailSpec` | mongo_om/db/collection.py:249-256 | `$match` is present exactly for a non-empty filter, `$sort` for a non-empty sort, `$skip` for `skip > 0` and `$limit` for `limit > 0`. The tail has one stage per condition that holds. |
| `Collections.FetchTailOrder` | mongo_om/db/collection.py:249-256 | The optional stages come in the order `$match`, `$sort`, `$skip`, `$limit`, and are nothing else. |
| `Collections.AfetchOne` | mongo_om/db/collection.py:259-275 | A dereference error surfaces first. Otherwise the read raises `DatabaseError` exactly while the database is not connected. On success the pipeline ends in `{$limit: 1}`, and the result is the first document returned, or `None` when none is. |
| `Collections.Read` | mongo_om/db/cursor.py:28-56 | Iterating a cursor raises `DatabaseError("Database not connected")` exactly when the driver handle of the collection's database is unset, through `_db_coll` and `_db`. Callers pass `c.db.conn`. Otherwise it yields the stored documents. |
| `Collections.DbDeleteOp` | mongo_om/db/collection.py:182-223 | The outer loop of `_db_delete_op`, with its recursive calls, computes exactly `DeleteOps`. |
| `Collections.DbDeleteRelations` | mongo_om/db/collection.py:188-212 | The loop over the reverse references of one object computes exactly their ops, in order. |
| `Collections.DbRelation` | mongo_om/db/collection.py:189-212 | One reverse reference: read the dependents, failing when the dependent collection's database is not connected, then recurse under CASCADE, or prune and save under SET_NULL. |
| `Collections.PruneDependents` | mongo_om/db/collection.py:198-211 | The `setattr` loop gives exactly the pruned dependents, in order, or the first error. |
| `Collections.DeleteOpsSpec` | mongo_om/db/collection.py:185-223 | Empty input plans nothing. The delete succeeds exactly when every object's ops can be built, and then returns them in input order. |
| `Collections.DeleteObjectSpec` | mongo_om/db/collection.py:186-222 | An object's ops are one block per reverse reference, in scan order, followed by its own `DeleteOne({_id: id}, collation)`. That last op fails exactly when the object lacks its id attribute. |
| `Collections.RelationBlockInDelete` | mongo_om/db/collection.py:188-222 | The ops of each reverse reference form one run of the object's ops, before the object's own delete. |
| `Collections.CascadeBlock` | mongo_om/db/collection.py:194-195 | Under CASCADE, the ops of each fetched dependent form one run inside that reverse reference's ops. |
| `Collections.CascadeDependentsFirst` | mongo_om/db/collection.py:194-222 | Under CASCADE, all the ops of each dependent come before the deleted object's own `DeleteOne`, which is last. |
| `Collections.CascadeDeleteOrder` | mongo_om/db/collection.py:194-222 | Under CASCADE, each dependent's `DeleteOne` precedes the `DeleteOne` of the object it depends on. |
| `Collections.SetNullSavesOnly` | mongo_om/db/collection.py:197-212 | Under SET_NULL, the block is exactly the save plan of the pruned dependents. It holds upserts only, one per object reached, and no `DeleteOne`. |
| `Collections.KeepOthersSpec` | mongo_om/db/collection.py:202-207 | The comprehension fails exactly when an entry, or the deleted object (given any entry), lacks the id attribute. It keeps exactly the entries whose id differs, and all of them when none matches. |
| `Collections.KeepOthersAppend` | mongo_om/db/collection.py:202-207 | The comprehension keeps order: on a concatenation it is the concatenation of the filtered parts, and a single entry is kept exactly when its id differs. |
| `Collections.PruneSpec` | mongo_om/db/collection.py:199-211 | Only the reference field changes. It becomes `None` for a single reference. For a many-reference it becomes the filtered list of what the field iterates to. It fails when the field is missing, when `Values.Iterate` cannot iterate it, or when the filter fails. |
| `Collections.PruneAllSpec` | mongo_om/db/collection.py:198-211 | Every dependent is pruned, in order, and the loop fails exactly when one of them cannot be pruned. |
| `Collections.DeleteAsWrittenFails` | mongo_om/db/collection.py:188-192 | As written, deleting any object of a collection that some other registered collection references raises `AttributeError("afetch")`. |
| `Collections.DeleteAsWrittenAgrees` | mongo_om/db/collection.py:182-223 | Where nothing references the collection, the code as written and the corrected planner produce the same plan. |
| `Collections.ASave` | mongo_om/db/collection.py:277-280 | A single object is wrapped in a list. A planning error surfaces before anything is submitted; otherwise the plan goes to `_apply`. |
| `Collections.ADelete` | mongo_om/db/collection.py:282-285 | The same as `ASave`, with the delete plan. |
| `Schema.Database.constructor` | mongo_om/db/database.py:25-41 | A new database is unconnected and has an empty registry. |
| `Schema.Database.Db` | mongo_om/db/database.py:43-47 | `_db` raises `DatabaseError("Database not connected")` exactly when no driver database is set, and returns it otherwise. |
| `Schema.Database.Connect` | mongo_om/db/database.py:53-67 | `aconnect` does nothing once connected. Otherwise it sets the handle, and the registry is untouched. |
| `Schema.Database.CreateCollection` | mongo_om/db/database.py:105-148 | The collection is built from the arguments and stored under its name. A new name goes last; an existing name is replaced in place. No other entry changes and the registry stays a dictionary. |
| `Schema.Database.Register` | mongo_om/db/database.py:147 | `__colls__[coll.name] = coll` keeps the registry invariant. The listing gains the collection at the end for a new name, or has it in place of the old entry. |
| `Schema.RegisterSpec` | mongo_om/db/database.py:147 | The same on the registry's values: the invariant is preserved, and the listing is appended to or updated in place. |
| `Schema.Database.TimeSeriesCollection` | mongo_om/db/database.py:150-166 | `field`, `meta_field`, `granularity` and `expire_after` become the `ts_*` options. The capped options forwarded through `**options` are kept as given, and settings are inherited. The collection is registered. |
| `Schema.Database.CappedCollection` | mongo_om/db/database.py:168-181 | `capped=True`, `size` and `max_docs` are passed on. The time-series options forwarded through `**options` are kept as given, and settings are inherited. The collection is registered. |
| `Grouping.GroupBy` | mongo_om/db/database.py:81-83 | The `defaultdict` loop gives each key's group as the key's requests in batch order. Its keys are listed in first-appearance order. |
| `Grouping.GroupingPartitions` | mongo_om/db/database.py:80-87 | Each collection of the batch is listed once, and exactly those of the batch are listed. The groups together hold every request exactly once. |
| `Schema.Database.Apply` | mongo_om/db/database.py:72-88 | `_apply` computes exactly `ApplyPlan`: one bulk write per distinct collection in first-appearance order, or `DatabaseError` when a collection's database is not connected. |
| `Schema.CollApply` | mongo_om/db/database.py:90-100 | Each submission is a bulk write of the group with `ordered=True`, `bypass_document_validation=True` and the session passed through. |
| `Schema.SubmissionsCover` | mongo_om/db/database.py:80-100 | Each distinct collection of the batch gets exactly one submission, and no other collection does. Its requests are the batch's requests for that collection, in batch order, and it is ordered and bypasses validation. |
| `Schema.SubmissionsTotal` | mongo_om/db/database.py:80-87 | The submissions carry as many requests as the batch. |
| `Expressions.AndConjuncts` | mongo_om/db/expresions.py:8-13 | The empty query is an identity of `&` on both sides. The conjuncts of `q & other` are those of `q` followed by those of `other`, so `&` never flattens or loses a conjunct. |
| `Expressions.OrDisjuncts` | mongo_om/db/expresions.py:15-20 | The empty query is an identity of `|` on both sides. The disjuncts of `q | other` are those of `q` followed by those of `other`. |
| `Expressions.ConjunctsNonEmpty` | mongo_om/db/expresions.py:8-13 | A query has no conjuncts exactly when it is empty, and no conjunct is empty. |
| `Expressions.NotWraps` | mongo_om/db/expresions.py:22-23 | `~q` is `{"$not": q}` even for the empty query. It is never empty, and `q` can be read back from it. |
| `Expressions.OperatorQueryShape` | mongo_om/db/expresions.py:25-59 | Each operator constructor gives the one-key query `{field: {"$op": value}}`. |
| `Expressions.LookupOperator` | mongo_om/db/expresions.py:67 | A name that `getattr(Query, "_" + name)` resolves gives the operator whose token is that name. A name that resolves to nothing raises `AttributeError("_" + name)`. |
| `Expressions.LookupToken` | mongo_om/db/expresions.py:25-59 | All nine operators `eq`, `ne`, `gt`, `gte`, `lt`, `lte`, `in`, `nin` and `regex` are found under their own tokens. |
| `Expressions.Split` | mongo_om/db/expresions.py:65 | `str.split` always gives at least one piece. |
| `Expressions.JoinSplit` | mongo_om/db/expresions.py:65-66 | Joining the pieces of a split with the separator gives back the key. |
| `Expressions.SplitPieces` | mongo_om/db/expresions.py:65 | `str.split` cuts at leftmost occurrences. No piece contains the separator, and no occurrence starts inside a piece followed by the separator. |
| `Expressions.SplitHead` | mongo_om/db/expresions.py:65 | The first piece is a prefix of the key, and when there is more than one piece, the separator follows it. |
| `Expressions.KeywordQueryParts` | mongo_om/db/expresions.py:65-68 | A keyword `a__b__op` gives `{"a.b": {"$op": value}}`. An unknown last token raises `AttributeError`. |
| `Expressions.QErrors` | mongo_om/db/expresions.py:62-69 | `Q` fails exactly when some keyword names an unknown operator. |
| `Expressions.QFirstError` | mongo_om/db/expresions.py:64-69 | When `Q` fails, it fails with the error of the first such keyword. |
| `Expressions.QStep` | mongo_om/db/expresions.py:64-68 | Each keyword more is `q & op(field, val)` on the query so far, and errors propagate. |
| `Expressions.QConjuncts` | mongo_om/db/expresions.py:62-69 | The conjuncts of `Q(...)` are the keywords' operator queries, one per keyword, in call order. |
| `Expressions.PutSpec` | mongo_om/db/expresions.py:79 | `d[k] = v` keeps a dictionary a dictionary. It appends `k` to the keys when `k` is new and changes only the value under `k`. |
| `Expressions.PutAllSpec` | mongo_om/db/expresions.py:79 | `{**s, **other}` lists the keys of `s` and then the new keys of `other` in its order. A key of `other` takes `other`'s value. |
| `Expressions.UnionSpec` | mongo_om/db/expresions.py:74-79 | Sort union has the empty sort as identity on both sides. Otherwise it merges, and the right operand's values win. |
| `Expressions.DirectedSpec` | mongo_om/db/expresions.py:90-101 | The `asc`/`desc` fold maps each given field to the direction and nothing else, with keys in first-occurrence order. |
| `Expressions.AscDesc` | mongo_om/db/expresions.py:81-101 | `asc()` and `desc()` are empty. `asc` maps every field to 1 and `desc` to -1, keeping first-occurrence order. |
| `Expressions.DedupSpec` | mongo_om/db/expresions.py:90-101 | The reference key order lists every given field exactly once. |
| `Values.NonNullSpec` | mongo_om/db/collection.py:166 | `[i for i in ref_d if i is not None]` keeps exactly the non-null entries, and all of them when none is null. |
| `Values.NonNullAppend` | mongo_om/db/collection.py:166 | The comprehension keeps order: on a concatenation it gives the concatenation of the filtered parts. |
| `Values.NonNullSingle` | mongo_om/db/collection.py:166 | A single entry is kept exactly when it is not `None`. |

## Left out

- Driver I/O is not modelled:
  - `_db_coll`, which creates the collection with its time-series, capped and index options, and the `__coll__` memo (mongo_om/db/collection.py:74-130). Only its `_db` guard is kept, in `Collections.Read`. A database never disconnects in the model, so an unconnected database has no memo to bypass the guard;
  - the client and the ping in `aconnect`;
  - `bulk_write` itself;
  - `aggregate` and the cursor's asynchronous iteration, batching and `cursor_options`.

  A submission is the value `BulkWrite`. A read is `Collections.Read`, whose result on a connected database is the parameter `store`.
- `model_dump`, `model_validate` and `_db_parse_data` are the opaque parameters `dump` and `store`.
- The synchronous wrappers `connect`, `fetch_one`, `save` and `delete` are left out. They run the asynchronous operation through an event-loop shim (mongo_om/sync.py).
- Sessions and transactions are the opaque `SessionRef`, passed through to the bulk writes. `adelete` does not pass its session to `_db_delete_op`, so the dependents' reads are sessionless; `store` therefore takes no session.
- Schema.Database.Apply: `asyncio.gather` runs the group submissions concurrently. The model returns them as a list in first-appearance order and makes no claim about the order between groups. A group whose database is unconnected makes the whole result `DatabaseError`, whereas the source may already have submitted other groups.
- Exceptions are approximated by an `Error` datatype: `KeyError`, `AttributeError`, `TypeError` and `DatabaseError`, each with a message. `getattr` on something that is not a typed object, or a missing attribute, is modelled as `AttributeError`.
- Values.Iterate, Collections.RefItems, Collections.LocalValue, Collections.Pruned: a non-empty dict or model in a many-reference field is not iterated. Python yields its keys, or its `(name, value)` pairs, in insertion order. A map does not record that order, so `Iterate` raises a `TypeError` of its own. In Python the first key or pair would raise instead: `AttributeError` in a save or a SET_NULL prune, `TypeError` in the `local` projection. Lists, strings and empty dicts or models are iterated as Python does.
- Schema.DefaultCollectionName: lower-casing is ASCII only (`str.lower` on other letters is not modelled).
- `setattr` on a fetched dependent is modelled as building a new value. The fetched objects are fresh, so no other object sees the change.
- Query documents are maps, so their key order is not modelled. This is unobservable for the one-key documents the builders produce. Sorts are lists of `(field, direction)` pairs, because their key order matters.
- Collections.DbDumpData: the stored document (`son`, then `bson.SON`, mongo_om/db/collection.py:142-157) is a map. The field order of the replacement document sent to the server is not modelled; only which keys it holds and their values are.
- Cyclic object graphs are out of scope: a save walks finite object trees, and the source has no cycle guard. Cyclic collection-reference graphs are also out of scope: every collection ranks above the targets of its references.
- Indexes (mongo_om/db/indexes.py) and the `indexes` argument, the pydantic metaclass registration (mongo_om/document.py), the annotated types (mongo_om/types.py) and the geojson patch (mongo_om/geo.py) are not part of this model.
- Driver settings (collation, codec options, read preference, write and read concern) are opaque optional strings. A set setting is taken to be truthy, so `or` falls back to the database's setting only when the setting is unset.
- Aggregation semantics are not evaluated: pipelines are stage values.

## Findings

| source | as written | input that shows it | evidently intended | confidence | as-written member | corrected member |
|---|---|---|---|---|---|---|
| mongo_om/db/collection.py:189 | `_db_delete_op` reads the dependents with `coll.afetch(...)`, but `Collection` defines only `fetch` and `afetch_one`, so the call raises `AttributeError` | deleting any object of a collection that another registered collection references, e.g. a `users` collection referenced by `posts` through a CASCADE `Ref` | read the dependents with `coll.fetch({ref.local: getattr(d, ref.ref)})`, then cascade or prune them | not executed | `Collections.DeleteAsWrittenFails` | `Collections.DeleteOps`, `Collections.DeleteObjectSpec` |
