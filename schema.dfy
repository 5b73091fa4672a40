/** The entities of the object-document mapper: reference metadata (`Ref`,
    `RefMany`), the `Collection` binding a model to a named MongoDB
    collection, and the `Database` that owns the collection registry and
    submits batches of write requests. A `Collection` refers to its
    `Database` and the database's registry holds collections, so the three
    live in one module. */
module Schema {
  import opened Values
  import opened Mongo
  import opened Grouping

  // ---------------------------------------------------------------------
  // References (mongo_om/db/references.py)

  /** What deleting a referenced document does to the documents that refer
      to it. */
  datatype OnDelete = Cascade | SetNull

  /** A reference from the model field `field` to documents of `coll`,
      matched on the target's attribute `ref` and stored locally under the
      foreign-key field `local`. */
  datatype Ref = Ref(field: string, coll: Collection, ref: string, local: string, many: bool, onDelete: OnDelete)

  /** `local or f"{field}_{ref}"` */
  function LocalField(field: string, ref: string, local: Option<string>): string
  {
    if local.Some? && local.value != "" then local.value else field + "_" + ref
  }

  /** `Ref(field, coll, ref="id", local=None, many=False, on_delete=CASCADE)` */
  function NewRef(field: string, coll: Collection, ref: string := "id", local: Option<string> := None,
                  many: bool := false, onDelete: OnDelete := Cascade): Ref
  {
    Ref(field, coll, ref, LocalField(field, ref, local), many, onDelete)
  }

  /** `RefMany(field, coll, ref="id", local=None, on_delete=SET_NULL)` */
  function NewRefMany(field: string, coll: Collection, ref: string := "id", local: Option<string> := None,
                      onDelete: OnDelete := SetNull): Ref
  {
    NewRef(field, coll, ref, local, true, onDelete)
  }

  /** A `Ref` defaults to the target's `id`, one referenced document and
      cascading deletes, with local field `field + "_" + ref`; a non-empty
      explicit local field is kept verbatim. */
  lemma RefDefaults(field: string, coll: Collection, ref: string, local: string, many: bool, onDelete: OnDelete)
    ensures NewRef(field, coll) == Ref(field, coll, "id", field + "_id", false, Cascade)
    ensures NewRef(field, coll, ref, None, many, onDelete) == Ref(field, coll, ref, field + "_" + ref, many, onDelete)
    ensures local != "" ==> NewRef(field, coll, ref, Some(local), many, onDelete) == Ref(field, coll, ref, local, many, onDelete)
    ensures NewRef(field, coll, ref, Some(""), many, onDelete).local == field + "_" + ref
  {
  }

  /** A `RefMany` always refers to many documents and defaults to SET_NULL;
      everything else is passed on to `Ref` unchanged. */
  lemma RefManyDefaults(field: string, coll: Collection, ref: string, local: Option<string>, onDelete: OnDelete)
    ensures NewRefMany(field, coll) == Ref(field, coll, "id", field + "_id", true, SetNull)
    ensures NewRefMany(field, coll, ref, local, onDelete) == NewRef(field, coll, ref, local, true, onDelete)
    ensures NewRefMany(field, coll, ref, local, onDelete).many
  {
  }

  // ---------------------------------------------------------------------
  // Settings and models

  /** The driver settings a collection takes from its database unless it
      sets its own; each is an opaque driver object, `None` when unset. */
  datatype Settings = Settings(
    collation: Option<string>,
    codecOptions: Option<string>,
    readPreference: Option<string>,
    writeConcern: Option<string>,
    readConcern: Option<string>)

  const NoSettings := Settings(None, None, None, None, None)

  function Or(own: Option<string>, inherited: Option<string>): Option<string>
  {
    if own.Some? then own else inherited
  }

  /** `x or db.x` for each setting. */
  function Inherit(own: Settings, db: Settings): Settings
  {
    Settings(
      Or(own.collation, db.collation),
      Or(own.codecOptions, db.codecOptions),
      Or(own.readPreference, db.readPreference),
      Or(own.writeConcern, db.writeConcern),
      Or(own.readConcern, db.readConcern))
  }

  /** An unset setting is the database's, a set one is the collection's. */
  lemma InheritSettings(own: Settings, db: Settings)
    ensures Inherit(NoSettings, db) == db
    ensures Inherit(own, NoSettings) == own
    ensures Inherit(Inherit(own, db), db) == Inherit(own, db)
    ensures own.collation.Some? ==> Inherit(own, db).collation == own.collation
    ensures own.collation.None? ==> Inherit(own, db).collation == db.collation
    ensures own.codecOptions.Some? ==> Inherit(own, db).codecOptions == own.codecOptions
    ensures own.codecOptions.None? ==> Inherit(own, db).codecOptions == db.codecOptions
    ensures own.readPreference.Some? ==> Inherit(own, db).readPreference == own.readPreference
    ensures own.readPreference.None? ==> Inherit(own, db).readPreference == db.readPreference
    ensures own.writeConcern.Some? ==> Inherit(own, db).writeConcern == own.writeConcern
    ensures own.writeConcern.None? ==> Inherit(own, db).writeConcern == db.writeConcern
    ensures own.readConcern.Some? ==> Inherit(own, db).readConcern == own.readConcern
    ensures own.readConcern.None? ==> Inherit(own, db).readConcern == db.readConcern
  {
  }

  /** A typed model: its class name and, for each declared field, the
      field's alias (`model_fields[f].alias`). */
  datatype Model = Model(name: string, fields: map<string, Option<string>>)

  /** The time-series options `ts_field`, `ts_meta_field`, `ts_granularity`
      and `ts_expire_after`. */
  datatype TimeSeries = TimeSeries(field: Option<string>, metaField: Option<string>, granularity: string, expireAfter: int)

  const NoTimeSeries := TimeSeries(None, None, "seconds", -1)

  /** The capped-collection options `capped`, `capped_size` and
      `capped_max_docs`. */
  datatype Capped = Capped(capped: bool, size: int, maxDocs: int)

  /** Not capped; the size default is 16 MiB. */
  const NotCapped := Capped(false, 16 * 0x10_0000, -1)

  /** `name or f"{model.__name__.lower()}s"` */
  function CollectionName(name: Option<string>, model: Model): string
  {
    if name.Some? && name.value != "" then name.value else Lower(model.name) + "s"
  }

  /** Without an explicit non-empty name a collection is named after its
      model, lower-cased, with an "s" appended. */
  lemma DefaultCollectionName(name: Option<string>, model: Model)
    ensures name.Some? && name.value != "" ==> CollectionName(name, model) == name.value
    ensures !(name.Some? && name.value != "") ==> |CollectionName(name, model)| == |model.name| + 1
    ensures !(name.Some? && name.value != "") ==> CollectionName(name, model)[|model.name|] == 's'
    ensures !(name.Some? && name.value != "") ==> CollectionName(name, model)[..|model.name|] == Lower(model.name)
    ensures CollectionName(None, Model("User", map[])) == "users"
    ensures CollectionName(Some(""), Model("User", map[])) == "users"
  {
    assert Lower("User") == "user";
  }

  /** The largest rank among the targets of `refs` (0 for none). */
  ghost function MaxRank(refs: seq<Ref>): nat
  {
    if refs == [] then 0
    else
      var h := refs[0].coll.rank;
      var t := MaxRank(refs[1..]);
      if h < t then t else h
  }

  lemma {:induction false} MaxRankAbove(refs: seq<Ref>)
    ensures forall r <- refs :: r.coll.rank <= MaxRank(refs)
  {
    if refs != [] {
      MaxRankAbove(refs[1..]);
      assert forall r <- refs :: r == refs[0] || r in refs[1..];
    }
  }

  // ---------------------------------------------------------------------
  // Collection (mongo_om/db/collection.py)

  /** A MongoDB collection bound to a model. */
  class Collection {
    const db: Database
    const model: Model
    const name: string
    const idField: string
    const refs: seq<Ref>
    /** The settings in force: the collection's own, else the database's. */
    const settings: Settings
    const timeSeries: TimeSeries
    const capped: Capped
    /** The extra keyword options, passed on when the collection is created. */
    const options: map<string, Value>
    /** One more than the rank of every referenced collection. A `Ref` needs
        an existing collection, so references always point to collections
        built earlier and the reference graph has no cycles. */
    ghost const rank: nat

    /** Every collection reachable through references has a smaller rank. */
    ghost predicate Acyclic()
      decreases rank
    {
      forall r <- refs :: r.coll.rank < rank && r.coll.Acyclic()
    }

    constructor (db: Database, model: Model, name: Option<string> := None, idField: string := "id",
                 refs: seq<Ref> := [], settings: Settings := NoSettings, timeSeries: TimeSeries := NoTimeSeries,
                 capped: Capped := NotCapped, options: map<string, Value> := map[])
      requires forall r <- refs :: r.coll.Acyclic()
      ensures this.db == db && this.model == model && this.name == CollectionName(name, model)
      ensures this.idField == idField && this.refs == refs
      ensures this.settings == Inherit(settings, db.settings)
      ensures this.timeSeries == timeSeries && this.capped == capped && this.options == options
      ensures Acyclic()
    {
      this.db := db;
      this.model := model;
      this.name := CollectionName(name, model);
      this.idField := idField;
      this.refs := refs;
      this.settings := Inherit(settings, db.settings);
      this.timeSeries := timeSeries;
      this.capped := capped;
      this.options := options;
      rank := 1 + MaxRank(refs);
      new;
      MaxRankAbove(refs);
    }

    /** `_db_field(field)`: the name a model field is stored under. */
    function DbField(field: string): (r: Result<string>)
      ensures r.Err? <==> field !in model.fields
      ensures r.Err? ==> r.error == KeyError(field)
      ensures r.Ok? ==> r.value == field || model.fields[field] == Some(r.value)
      ensures r.Ok? && model.fields[field].Some? && model.fields[field].value != "" ==> r.value == model.fields[field].value
      ensures r.Ok? && (model.fields[field].None? || model.fields[field].value == "") ==> r.value == field
      ensures r.Ok? && r.value == "" ==> field == ""
    {
      if field !in model.fields then Err(KeyError(field))
      else if model.fields[field].Some? && model.fields[field].value != "" then Ok(model.fields[field].value)
      else Ok(field)
    }

    /** `_db_id_field()` */
    function DbIdField(): (r: Result<string>)
      ensures r == DbField(idField)
    {
      DbField(idField)
    }
  }

  // ---------------------------------------------------------------------
  // Database (mongo_om/db/database.py)

  /** The driver's database handle, obtained by connecting to `uri`. */
  datatype Handle = Handle(uri: string)

  /** A client session, passed through to the driver. */
  datatype SessionRef = SessionRef(id: nat)

  /** One `bulk_write` call on a collection. */
  datatype BulkWrite = BulkWrite(
    coll: Collection,
    ops: seq<WriteOp>,
    ordered: bool,
    bypassDocumentValidation: bool,
    session: Option<SessionRef>)

  /** The registered collections under `names`, in that order. */
  function InOrder(names: seq<string>, colls: map<string, Collection>): (r: seq<Collection>)
    requires forall n <- names :: n in colls
    ensures |r| == |names|
    ensures forall i :: 0 <= i < |names| ==> r[i] == colls[names[i]]
  {
    if names == [] then [] else [colls[names[0]]] + InOrder(names[1..], colls)
  }

  /** The registry invariant of `Database.Valid`, on the registry's parts. */
  ghost predicate Registry(db: Database, names: seq<string>, colls: map<string, Collection>)
  {
    && (forall i, j :: 0 <= i < j < |names| ==> names[i] != names[j])
    && (forall n :: n in colls <==> n in names)
    && (forall n <- colls :: colls[n].name == n && colls[n].db == db && colls[n].Acyclic())
  }

  /** Storing `c` under its name keeps the registry invariant; the listing
      gains `c` at the end for a new name and has it in place of the old
      entry otherwise. */
  lemma RegisterSpec(db: Database, names: seq<string>, colls: map<string, Collection>, c: Collection)
    requires Registry(db, names, colls) && c.db == db && c.Acyclic()
    ensures var names' := if c.name in colls then names else names + [c.name];
      var colls' := colls[c.name := c];
      && Registry(db, names', colls')
      && (c.name in colls ==>
            |InOrder(names', colls')| == |InOrder(names, colls)| &&
            forall i :: 0 <= i < |names| ==> InOrder(names', colls')[i] == if names[i] == c.name then c else InOrder(names, colls)[i])
      && (c.name !in colls ==> InOrder(names', colls') == InOrder(names, colls) + [c])
  {
    RegisterValid(db, names, colls, c);
    if c.name !in colls {
      InOrderAppend(names, colls, c);
    } else {
      InOrderReplace(names, colls, c);
    }
  }

  lemma InOrderAppend(names: seq<string>, colls: map<string, Collection>, c: Collection)
    requires forall n <- names :: n in colls
    requires c.name !in colls
    ensures forall n <- names + [c.name] :: n in colls[c.name := c]
    ensures InOrder(names + [c.name], colls[c.name := c]) == InOrder(names, colls) + [c]
  {
    var names', colls' := names + [c.name], colls[c.name := c];
    var r, r' := InOrder(names, colls), InOrder(names', colls');
    forall i | 0 <= i < |names| ensures r'[i] == r[i] {
      assert names'[i] == names[i] && names[i] in colls;
    }
  }

  lemma InOrderReplace(names: seq<string>, colls: map<string, Collection>, c: Collection)
    requires forall n <- names :: n in colls
    ensures forall n <- names :: n in colls[c.name := c]
    ensures forall i :: 0 <= i < |names| ==>
      InOrder(names, colls[c.name := c])[i] == if names[i] == c.name then c else InOrder(names, colls)[i]
  {
  }

  lemma RegisterValid(db: Database, names: seq<string>, colls: map<string, Collection>, c: Collection)
    requires Registry(db, names, colls) && c.db == db && c.Acyclic()
    ensures Registry(db, if c.name in colls then names else names + [c.name], colls[c.name := c])
  {
    if c.name !in colls {
      var names' := names + [c.name];
      forall i, j | 0 <= i < j < |names'| ensures names'[i] != names'[j] {
        if j == |names| {
          assert names[i] in colls;
        }
      }
    }
  }

  /** A database and its collection registry `__colls__`. */
  class Database {
    const name: string
    const settings: Settings
    /** `__db__`: the driver's database once connected. */
    var conn: Option<Handle>
    /** The keys of `__colls__`, in insertion order. */
    var names: seq<string>
    /** `__colls__` */
    var colls: map<string, Collection>

    /** The registry is a dictionary: `names` lists its keys once each, and
        every collection is registered under its own name in its own
        database. */
    ghost predicate Valid()
      reads this
    {
      Registry(this, names, colls)
    }

    constructor (name: string, settings: Settings := NoSettings)
      ensures this.name == name && this.settings == settings
      ensures conn == None && names == [] && colls == map[]
      ensures Valid()
    {
      this.name := name;
      this.settings := settings;
      conn := None;
      names := [];
      colls := map[];
    }

    /** `__colls__.values()`, in insertion order. */
    function Registered(): seq<Collection>
      requires Valid()
      reads this
    {
      InOrder(names, colls)
    }

    /** The `_db` property. */
    function Db(): (r: Result<Handle>)
      reads this
      ensures r.Err? <==> conn.None?
      ensures r.Err? ==> r.error == DatabaseError("Database not connected")
      ensures r.Ok? ==> conn == Some(r.value)
    {
      if conn.None? then Err(DatabaseError("Database not connected")) else Ok(conn.value)
    }

    /** `aconnect(uri)`: nothing happens once connected; otherwise the handle
        of the database on `uri` becomes `__db__`. */
    method Connect(uri: string := "mongodb://localhost:27017")
      modifies this
      ensures old(conn).Some? ==> conn == old(conn)
      ensures old(conn).None? ==> conn == Some(Handle(uri))
      ensures names == old(names) && colls == old(colls)
    {
      if conn.Some? {
        return;
      }
      conn := Some(Handle(uri));
    }

    /** `Collection(model, ...)`: build a collection of this database and
        store it under its name. */
    method CreateCollection(model: Model, name: Option<string> := None, idField: string := "id",
                            refs: seq<Ref> := [], settings: Settings := NoSettings,
                            timeSeries: TimeSeries := NoTimeSeries, capped: Capped := NotCapped,
                            options: map<string, Value> := map[]) returns (c: Collection)
      requires Valid()
      requires forall r <- refs :: r.coll.Acyclic()
      modifies this
      ensures Valid()
      ensures fresh(c) && c.db == this && c.model == model && c.name == CollectionName(name, model)
      ensures c.idField == idField && c.refs == refs && c.settings == Inherit(settings, this.settings)
      ensures c.timeSeries == timeSeries && c.capped == capped && c.options == options
      ensures colls == old(colls)[c.name := c]
      ensures names == if c.name in old(colls) then old(names) else old(names) + [c.name]
      ensures c.name in old(colls) ==>
        |Registered()| == |old(Registered())| &&
        forall i :: 0 <= i < |names| ==> Registered()[i] == if names[i] == c.name then c else old(Registered())[i]
      ensures c.name !in old(colls) ==> Registered() == old(Registered()) + [c]
      ensures conn == old(conn)
    {
      c := new Collection(this, model, name, idField, refs, settings, timeSeries, capped, options);
      Register(c);
    }

    /** `__colls__[c.name] = c`: a collection already registered under that
        name is replaced in place, a new name goes last, and no other entry
        changes. */
    method Register(c: Collection)
      requires Valid() && c.db == this && c.Acyclic()
      modifies this
      ensures Valid()
      ensures colls == old(colls)[c.name := c]
      ensures names == if c.name in old(colls) then old(names) else old(names) + [c.name]
      ensures c.name in old(colls) ==>
        |Registered()| == |old(Registered())| &&
        forall i :: 0 <= i < |names| ==> Registered()[i] == if names[i] == c.name then c else old(Registered())[i]
      ensures c.name !in old(colls) ==> Registered() == old(Registered()) + [c]
      ensures conn == old(conn)
    {
      var names' := if c.name in colls then names else names + [c.name];
      var colls' := colls[c.name := c];
      RegisterSpec(this, names, colls, c);
      names, colls := names', colls';
    }

    /** `TimeSeriesCollection(model, field, meta_field, ...)`; every other
        keyword of `Collection`, the capped options included, is forwarded
        through `**options`. */
    method TimeSeriesCollection(model: Model, field: string, metaField: Option<string>,
                                granularity: string := "seconds", expireAfter: int := -1,
                                name: Option<string> := None, idField: string := "id",
                                refs: seq<Ref> := [], settings: Settings := NoSettings,
                                capped: Capped := NotCapped,
                                options: map<string, Value> := map[]) returns (c: Collection)
      requires Valid()
      requires forall r <- refs :: r.coll.Acyclic()
      modifies this
      ensures Valid()
      ensures fresh(c) && c.db == this && c.model == model && c.name == CollectionName(name, model)
      ensures c.idField == idField && c.refs == refs && c.options == options
      ensures c.settings == Inherit(settings, this.settings)
      ensures c.timeSeries == TimeSeries(Some(field), metaField, granularity, expireAfter)
      ensures c.capped == capped
      ensures colls == old(colls)[c.name := c]
      ensures names == if c.name in old(colls) then old(names) else old(names) + [c.name]
      ensures conn == old(conn)
    {
      c := CreateCollection(model, name, idField, refs, settings,
                            TimeSeries(Some(field), metaField, granularity, expireAfter), capped, options);
    }

    /** `CappedCollection(model, size, max_docs, ...)`; every other keyword
        of `Collection`, the time-series options included, is forwarded
        through `**options`. */
    method CappedCollection(model: Model, size: int, maxDocs: int := -1,
                            name: Option<string> := None, idField: string := "id",
                            refs: seq<Ref> := [], settings: Settings := NoSettings,
                            timeSeries: TimeSeries := NoTimeSeries,
                            options: map<string, Value> := map[]) returns (c: Collection)
      requires Valid()
      requires forall r <- refs :: r.coll.Acyclic()
      modifies this
      ensures Valid()
      ensures fresh(c) && c.db == this && c.model == model && c.name == CollectionName(name, model)
      ensures c.idField == idField && c.refs == refs && c.options == options
      ensures c.settings == Inherit(settings, this.settings)
      ensures c.capped == Capped(true, size, maxDocs)
      ensures c.timeSeries == timeSeries
      ensures colls == old(colls)[c.name := c]
      ensures names == if c.name in old(colls) then old(names) else old(names) + [c.name]
      ensures conn == old(conn)
    {
      c := CreateCollection(model, name, idField, refs, settings, timeSeries, Capped(true, size, maxDocs), options);
    }

    /** `_apply(ops, session)`: group the requests by collection and submit
        each group with `_coll_apply`. */
    method Apply(ops: seq<(Collection, WriteOp)>, session: Option<SessionRef> := None) returns (r: Result<seq<BulkWrite>>)
      ensures r == ApplyPlan(ops, session)
    {
      var keys, groups := GroupBy(ops);
      var writes: seq<BulkWrite> := [];
      var connected := true;
      for i := 0 to |keys|
        invariant |writes| == i
        invariant forall j :: 0 <= j < i ==> writes[j] == CollApply(keys[j], Group(ops, keys[j]), session)
        invariant connected <==> forall j :: 0 <= j < i ==> keys[j].db.conn.Some?
      {
        var c := keys[i];
        // `coll._db_coll` reaches the driver through `coll.db._db`
        if c.db.conn.None? {
          connected := false;
        }
        writes := writes + [CollApply(c, groups[c], session)];
      }
      if !connected {
        r := Err(DatabaseError("Database not connected"));
      } else {
        assert writes == Submissions(ops, session);
        r := Ok(writes);
      }
    }
  }

  /** `_coll_apply(coll, ops, session)`: an ordered bulk write that bypasses
      document validation. */
  function CollApply(coll: Collection, ops: seq<WriteOp>, session: Option<SessionRef>): (w: BulkWrite)
    ensures w.coll == coll && w.ops == ops && w.session == session
    ensures w.ordered && w.bypassDocumentValidation
  {
    BulkWrite(coll, ops, true, true, session)
  }

  /** The bulk writes `_apply` submits, one per distinct collection of the
      batch in order of first appearance, each with that collection's
      requests. */
  function Submissions(ops: seq<(Collection, WriteOp)>, session: Option<SessionRef>): (ws: seq<BulkWrite>)
    ensures |ws| == |FirstKeys(ops)|
    ensures forall i :: 0 <= i < |ws| ==> ws[i] == CollApply(FirstKeys(ops)[i], Group(ops, FirstKeys(ops)[i]), session)
  {
    var ks := FirstKeys(ops);
    seq(|ks|, j requires 0 <= j < |ks| => CollApply(ks[j], Group(ops, ks[j]), session))
  }

  /** What `_apply` does: the submissions, or `DatabaseError` when the
      database of one of the batch's collections is not connected. */
  function ApplyPlan(ops: seq<(Collection, WriteOp)>, session: Option<SessionRef>): Result<seq<BulkWrite>>
    reads set c | c in FirstKeys(ops) :: c.db
  {
    var ks := FirstKeys(ops);
    if exists j :: 0 <= j < |ks| && ks[j].db.conn.None? then Err(DatabaseError("Database not connected"))
    else Ok(Submissions(ops, session))
  }

  /** Every distinct collection of a batch gets exactly one ordered,
      validation-bypassing bulk write, and its requests are those of the
      batch for that collection, in batch order. */
  lemma SubmissionsCover(ops: seq<(Collection, WriteOp)>, session: Option<SessionRef>)
    ensures var ws := Submissions(ops, session);
      && (forall i, j :: 0 <= i < j < |ws| ==> ws[i].coll != ws[j].coll)
      && (forall i :: 0 <= i < |ws| ==> exists k :: 0 <= k < |ops| && ops[k].0 == ws[i].coll)
      && (forall k :: 0 <= k < |ops| ==> exists i :: 0 <= i < |ws| && ws[i].coll == ops[k].0)
      && (forall i :: 0 <= i < |ws| ==> ws[i].ops == Group(ops, ws[i].coll) && ws[i].ordered && ws[i].bypassDocumentValidation)
  {
    var ws := Submissions(ops, session);
    var ks := FirstKeys(ops);
    FirstKeysDistinct(ops);
    forall i | 0 <= i < |ws| ensures exists k :: 0 <= k < |ops| && ops[k].0 == ws[i].coll {
      assert ws[i].coll == ks[i] && ks[i] in ks;
      GroupAbsent(ops, ks[i]);
    }
    forall k | 0 <= k < |ops| ensures exists i :: 0 <= i < |ws| && ws[i].coll == ops[k].0 {
      var c := ops[k].0;
      GroupAbsent(ops, c);
      assert c in ks;
      var i :| 0 <= i < |ks| && ks[i] == c;
      assert ws[i].coll == c;
    }
  }

  /** Together the bulk writes carry every request of the batch once. */
  lemma SubmissionsTotal(ops: seq<(Collection, WriteOp)>, session: Option<SessionRef>)
    ensures TotalOps(Submissions(ops, session)) == |ops|
  {
    var ks := FirstKeys(ops);
    var groups := map k | k in ks :: Group(ops, k);
    GroupingPartitions(ops, groups);
    TotalOpsAgrees(ks, groups, ops, session);
  }

  /** The number of requests in a sequence of bulk writes. */
  function TotalOps(ws: seq<BulkWrite>): nat
  {
    if ws == [] then 0 else |ws[0].ops| + TotalOps(ws[1..])
  }

  lemma {:induction false} TotalOpsAgrees(ks: seq<Collection>, groups: map<Collection, seq<WriteOp>>,
                                          ops: seq<(Collection, WriteOp)>, session: Option<SessionRef>)
    requires forall k <- ks :: k in groups && groups[k] == Group(ops, k)
    ensures TotalOps(seq(|ks|, j requires 0 <= j < |ks| => CollApply(ks[j], Group(ops, ks[j]), session))) == TotalSize(ks, groups)
  {
    if ks != [] {
      TotalOpsAgrees(ks[1..], groups, ops, session);
      var ws := seq(|ks|, j requires 0 <= j < |ks| => CollApply(ks[j], Group(ops, ks[j]), session));
      assert ws[1..] == seq(|ks[1..]|, j requires 0 <= j < |ks[1..]| => CollApply(ks[1..][j], Group(ops, ks[1..][j]), session));
    }
  }
}
