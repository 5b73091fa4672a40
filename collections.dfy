/** The planners of `Collection` (mongo_om/db/collection.py): serialising a
    typed object into a stored document, flattening a save or a delete of an
    object graph into `(collection, write)` pairs, and assembling the read
    pipeline of `fetch`.

    `model_dump` is the parameter `dump`, which turns a typed object into
    the dictionary of its fields by alias. The documents a read pipeline
    returns come from the parameter `store`; it plays the part of the
    server running the pipeline and of `model_validate` on each result. */
module Collections {
  import opened Values
  import opened Expressions
  import opened Mongo
  import opened Schema
  import opened References

  /** `model_dump(by_alias=True)` of a typed object. */
  type Dump = Value -> map<string, Value>

  /** The typed objects a read pipeline on a collection returns. */
  type Store = (Collection, seq<Stage>) -> seq<Value>

  /** Iterating the cursor of a read pipeline on `c`, whose database has the
      driver handle `conn`: the cursor opens the collection through
      `c.db._db`, which raises while the database is not connected, and then
      yields what `store` returns. */
  function Read(c: Collection, conn: Option<Handle>, p: seq<Stage>, store: Store): (r: Result<seq<Value>>)
    ensures r.Err? <==> conn.None?
    ensures r.Err? ==> r.error == DatabaseError("Database not connected")
    ensures r.Ok? ==> r.value == store(c, p)
  {
    if conn.None? then Err(DatabaseError("Database not connected")) else Ok(store(c, p))
  }

  // ---------------------------------------------------------------------
  // _db_dump_data

  /** `v[key]`, where only a dictionary can be subscripted by a string. */
  function Subscript(v: Value, key: string): (r: Result<Value>)
    ensures r.Ok? <==> v.Dict? && key in v.entries
    ensures r.Ok? ==> r.value == v.entries[key]
    ensures v.Dict? && r.Err? ==> r.error == KeyError(key)
  {
    if !v.Dict? then Err(TypeError("not subscriptable"))
    else if key in v.entries then Ok(v.entries[key])
    else Err(KeyError(key))
  }

  /** `d[ref.coll._db_field(ref.ref)]` for one serialised referenced document;
      the alias is looked up before the subscript. */
  function ForeignKey(r: Ref, d: Value): Result<Value>
  {
    var key :- r.coll.DbField(r.ref);
    Subscript(d, key)
  }

  /** The foreign keys of a list of referenced documents, in order. */
  function ForeignKeys(r: Ref, ds: seq<Value>): Result<seq<Value>>
  {
    if ds == [] then Ok([])
    else
      var k :- ForeignKey(r, ds[0]);
      var ks :- ForeignKeys(r, ds[1..]);
      Ok([k] + ks)
  }

  /** What a reference field's serialised value becomes under `ref.local`:
      `None` stays `None`, a single document its foreign key, and a
      many-reference the list of the foreign keys of what it iterates to. */
  function LocalValue(r: Ref, val: Value): Result<Value>
  {
    if val == Null then Ok(Null)
    else if !r.many then ForeignKey(r, val)
    else
      var ds :- Iterate(val);
      var ks :- ForeignKeys(r, ds);
      Ok(List(ks))
  }

  /** One turn of the loop over `refs`: pop `ref.field`, set `ref.local`. */
  function DumpRef(son: map<string, Value>, r: Ref): Result<map<string, Value>>
  {
    if r.field !in son then Err(KeyError(r.field))
    else
      var v :- LocalValue(r, son[r.field]);
      Ok((son - {r.field})[r.local := v])
  }

  function DumpRefs(son: map<string, Value>, refs: seq<Ref>): Result<map<string, Value>>
    decreases refs
  {
    if refs == [] then Ok(son)
    else
      var next :- DumpRef(son, refs[0]);
      DumpRefs(next, refs[1..])
  }

  /** `_db_dump_data` on the dictionary `son` that `model_dump` produced. */
  function DumpData(c: Collection, son: map<string, Value>): Result<map<string, Value>>
  {
    var idKey :- c.DbIdField();
    if idKey !in son then Err(KeyError(idKey))
    else DumpRefs((son - {idKey})[MONGO_ID := son[idKey]], c.refs)
  }

  /** `_db_dump_data`, popping from and assigning into `son` in a loop. */
  method DbDumpData(c: Collection, data: map<string, Value>) returns (r: Result<map<string, Value>>)
    ensures r == DumpData(c, data)
  {
    var idKey := c.DbIdField();
    if idKey.Err? {
      return Err(idKey.error);
    }
    if idKey.value !in data {
      return Err(KeyError(idKey.value));
    }
    var son := (data - {idKey.value})[MONGO_ID := data[idKey.value]];
    assert c.refs[0..] == c.refs;
    for i := 0 to |c.refs|
      invariant DumpData(c, data) == DumpRefs(son, c.refs[i..])
    {
      var ref := c.refs[i];
      assert c.refs[i..][0] == ref && c.refs[i..][1..] == c.refs[i + 1..];
      if ref.field !in son {
        return Err(KeyError(ref.field));
      }
      var val := son[ref.field];
      son := son - {ref.field};
      var local := LocalValue(ref, val);
      if local.Err? {
        return Err(local.error);
      }
      son := son[ref.local := local.value];
    }
    return Ok(son);
  }

  /** The keys the references of a collection move: out of each `field`,
      into each `local`. */
  function Moved(refs: seq<Ref>): set<string>
  {
    (set r | r in refs :: r.field) + (set r | r in refs :: r.local)
  }

  /** No reference reads a key another one writes or reads, and no two
      write the same key. */
  ghost predicate Separate(refs: seq<Ref>)
  {
    && (forall i, j :: 0 <= i < |refs| && 0 <= j < |refs| ==> refs[i].field != refs[j].local)
    && (forall i, j :: 0 <= i < j < |refs| ==> refs[i].field != refs[j].field && refs[i].local != refs[j].local)
  }

  /** The many-reference projection keeps the order and the length: entry
      `i` is the foreign key of referenced document `i`. */
  lemma {:induction false} ForeignKeysSpec(r: Ref, ds: seq<Value>)
    ensures ForeignKeys(r, ds).Ok? <==> forall i :: 0 <= i < |ds| ==> ForeignKey(r, ds[i]).Ok?
    ensures ForeignKeys(r, ds).Ok? ==>
      |ForeignKeys(r, ds).value| == |ds| &&
      forall i :: 0 <= i < |ds| ==> ForeignKeys(r, ds).value[i] == ForeignKey(r, ds[i]).value
  {
    if ds != [] {
      ForeignKeysSpec(r, ds[1..]);
      assert forall i :: 1 <= i < |ds| ==> ds[1..][i - 1] == ds[i];
    }
  }

  /** The facts about `refs[0]` and `refs[1..]` that one turn of the loop
      needs. */
  lemma SeparateTail(refs: seq<Ref>)
    requires Separate(refs) && refs != []
    ensures Separate(refs[1..])
    ensures refs[0].field != refs[0].local
    ensures refs[0].field !in Moved(refs[1..]) && refs[0].local !in Moved(refs[1..])
    ensures forall r <- refs[1..] :: r.field != refs[0].field && r.field != refs[0].local
  {
    var r0, tail := refs[0], refs[1..];
    assert forall i :: 0 <= i < |tail| ==> tail[i] == refs[i + 1];
    forall r | r in tail
      ensures r.field != r0.field && r.field != r0.local && r.local != r0.field && r.local != r0.local
    {
      var j :| 0 <= j < |tail| && tail[j] == r;
      assert refs[j + 1] == r;
    }
  }

  lemma {:induction false} DumpRefsOk(s: map<string, Value>, refs: seq<Ref>)
    requires Separate(refs)
    decreases refs
    ensures DumpRefs(s, refs).Ok? <==> forall r <- refs :: r.field in s && LocalValue(r, s[r.field]).Ok?
  {
    if refs != [] {
      var r0, tail := refs[0], refs[1..];
      SeparateTail(refs);
      assert forall r <- refs :: r == r0 || r in tail;
      if r0.field in s && LocalValue(r0, s[r0.field]).Ok? {
        var s1 := (s - {r0.field})[r0.local := LocalValue(r0, s[r0.field]).value];
        assert DumpRef(s, r0) == Ok(s1);
        DumpRefsOk(s1, tail);
        assert forall r <- tail :: (r.field in s1 <==> r.field in s) && (r.field in s ==> s1[r.field] == s[r.field]);
      }
    }
  }

  lemma {:induction false} DumpRefsKept(s: map<string, Value>, refs: seq<Ref>, k: string)
    requires DumpRefs(s, refs).Ok? && k !in Moved(refs)
    decreases refs
    ensures k in DumpRefs(s, refs).value <==> k in s
    ensures k in s ==> DumpRefs(s, refs).value[k] == s[k]
  {
    if refs != [] {
      var r0, tail := refs[0], refs[1..];
      assert forall r <- tail :: r in refs;
      assert k != r0.field && k != r0.local && k !in Moved(tail);
      DumpRefsKept(DumpRef(s, r0).value, tail, k);
    }
  }

  lemma {:induction false} DumpRefsMoved(s: map<string, Value>, refs: seq<Ref>)
    requires Separate(refs) && DumpRefs(s, refs).Ok?
    decreases refs
    ensures forall r <- refs :: (
      && r.field in s && LocalValue(r, s[r.field]).Ok? && r.field !in DumpRefs(s, refs).value
      && r.local in DumpRefs(s, refs).value && DumpRefs(s, refs).value[r.local] == LocalValue(r, s[r.field]).value)
  {
    if refs != [] {
      var r0, tail := refs[0], refs[1..];
      SeparateTail(refs);
      var s1 := DumpRef(s, r0).value;
      DumpRefsMoved(s1, tail);
      DumpRefsKept(s1, tail, r0.field);
      DumpRefsKept(s1, tail, r0.local);
      assert forall r <- tail :: (r.field in s1 <==> r.field in s) && (r.field in s ==> s1[r.field] == s[r.field]);
      assert forall r <- refs :: r == r0 || r in tail;
    }
  }

  /** With references that keep out of each other's way, the loop over
      `refs` succeeds exactly when every reference field is present and its
      value can be projected; then each `field` is gone, each `local` holds
      the projection, and every other key is untouched. */
  lemma DumpRefsSpec(s: map<string, Value>, refs: seq<Ref>)
    requires Separate(refs)
    ensures DumpRefs(s, refs).Ok? <==> forall r <- refs :: r.field in s && LocalValue(r, s[r.field]).Ok?
    ensures DumpRefs(s, refs).Ok? ==>
      forall r <- refs :: (
        && r.field in s && LocalValue(r, s[r.field]).Ok? && r.field !in DumpRefs(s, refs).value
        && r.local in DumpRefs(s, refs).value && DumpRefs(s, refs).value[r.local] == LocalValue(r, s[r.field]).value)
    ensures DumpRefs(s, refs).Ok? ==>
      forall k :: k !in Moved(refs) ==>
        (k in DumpRefs(s, refs).value <==> k in s) &&
        (k in s ==> DumpRefs(s, refs).value[k] == s[k])
  {
    DumpRefsOk(s, refs);
    if DumpRefs(s, refs).Ok? {
      DumpRefsMoved(s, refs);
      forall k | k !in Moved(refs)
        ensures (k in DumpRefs(s, refs).value <==> k in s) && (k in s ==> DumpRefs(s, refs).value[k] == s[k])
      {
        DumpRefsKept(s, refs, k);
      }
    }
  }

  /** `_db_dump_data`: the document has `_id` holding what was stored under
      the id field's alias, that alias is gone, each reference field has
      become its local field holding the projected foreign key(s), and
      every other key is untouched. It fails exactly when the id field has
      no model field, the alias or a reference field is missing, or a
      projection fails. */
  lemma DumpDataSpec(c: Collection, son: map<string, Value>)
    requires Separate(c.refs)
    requires c.DbIdField().Ok? ==> MONGO_ID !in Moved(c.refs) && c.DbIdField().value !in Moved(c.refs)
    ensures c.DbIdField().Err? ==> DumpData(c, son) == Err(KeyError(c.idField))
    ensures c.DbIdField().Ok? && c.DbIdField().value !in son ==> DumpData(c, son) == Err(KeyError(c.DbIdField().value))
    ensures DumpData(c, son).Ok? <==>
      c.DbIdField().Ok? && c.DbIdField().value in son &&
      forall r <- c.refs :: r.field in son && LocalValue(r, son[r.field]).Ok?
    ensures DumpData(c, son).Ok? ==>
      var idKey, out := c.DbIdField().value, DumpData(c, son).value;
      && MONGO_ID in out && out[MONGO_ID] == son[idKey]
      && (idKey != MONGO_ID ==> idKey !in out)
      && (forall r <- c.refs :: r.field !in out && r.local in out && out[r.local] == LocalValue(r, son[r.field]).value)
      && (forall k :: k !in Moved(c.refs) && k != idKey && k != MONGO_ID ==>
            (k in out <==> k in son) && (k in son ==> out[k] == son[k]))
  {
    if c.DbIdField().Ok? && c.DbIdField().value in son {
      var idKey := c.DbIdField().value;
      var s0 := (son - {idKey})[MONGO_ID := son[idKey]];
      DumpRefsSpec(s0, c.refs);
      assert forall r <- c.refs :: r.field in Moved(c.refs);
      assert forall r <- c.refs :: (r.field in s0 <==> r.field in son) && (r.field in son ==> s0[r.field] == son[r.field]);
    }
  }

  // ---------------------------------------------------------------------
  // _db_save_op

  /** A list of `(collection, write)` pairs, the unit `Database._apply`
      takes. */
  type Ops = seq<(Collection, WriteOp)>

  /** The referenced objects a reference field holds: a single value is put
      in a list, a many-reference is iterated, and `None`s are dropped. */
  function RefItems(r: Ref, v: Value): Result<seq<Value>>
  {
    if !r.many then Ok(NonNull([v]))
    else
      var xs :- Iterate(v);
      Ok(NonNull(xs))
  }

  /** The upsert of one object: `{_id: getattr(d, id_field)}` replaced by
      the serialised object, with the collection's collation. */
  function OwnSaveOp(c: Collection, d: Value, dump: Dump): Result<(Collection, WriteOp)>
  {
    var id :- GetAttr(d, c.idField);
    var doc :- DumpData(c, dump(d));
    Ok((c, ReplaceOne(ById(id), doc, c.settings.collation, true)))
  }

  /** `c._db_save_op(data)` */
  function SaveOps(c: Collection, data: seq<Value>, dump: Dump): Result<Ops>
    decreases MaxHeight(data), 3, |data|
  {
    if data == [] then Ok([])
    else
      MaxHeightAbove(data, 0);
      Then(SaveObject(c, data[0], dump), SaveOps(c, data[1..], dump))
  }

  /** The ops for one object: those of its references, then its own. */
  function SaveObject(c: Collection, d: Value, dump: Dump): Result<Ops>
    decreases Height(d), 2, 0
  {
    Then(RefsSaveOps(d, c.refs, dump), Singleton(OwnSaveOp(c, d, dump)))
  }

  /** The ops for the objects `d` references through `refs`, in order. */
  function RefsSaveOps(d: Value, refs: seq<Ref>, dump: Dump): Result<Ops>
    decreases Height(d), 1, |refs|
  {
    if refs == [] then Ok([])
    else Then(RefSaveOps(d, refs[0], dump), RefsSaveOps(d, refs[1..], dump))
  }

  /** `ref.coll._db_save_op(...)` on the non-null objects under `ref.field`. */
  function RefSaveOps(d: Value, r: Ref, dump: Dump): Result<Ops>
    decreases Height(d), 0, 0
  {
    var v :- GetAttr(d, r.field);
    var items :- RefItems(r, v);
    HeightOfAttr(d, r.field);
    RefItemsLower(r, v);
    SaveOps(r.coll, items, dump)
  }

  /** The referenced objects sit inside the value that holds them. */
  lemma RefItemsLower(r: Ref, v: Value)
    ensures RefItems(r, v).Ok? ==> MaxHeight(RefItems(r, v).value) <= Height(v)
  {
    if !r.many {
      MaxHeightNonNull([v]);
      assert MaxHeight([v]) == Height(v) by {
        assert [v][1..] == [];
      }
    } else if v.List? {
      MaxHeightNonNull(v.items);
    } else if v.Str? {
      MaxHeightBelow(Chars(v.s), 1);
      MaxHeightNonNull(Chars(v.s));
    }
  }

  /** `_db_save_op`: the outer loop over `data`. */
  method DbSaveOp(c: Collection, data: seq<Value>, dump: Dump) returns (r: Result<Ops>)
    ensures r == SaveOps(c, data, dump)
    decreases MaxHeight(data), 1
  {
    var ops := [];
    assert data[0..] == data;
    PrependNil(SaveOps(c, data, dump));
    for i := 0 to |data|
      invariant SaveOps(c, data, dump) == Prepend(ops, SaveOps(c, data[i..], dump))
    {
      var d := data[i];
      assert data[i..][0] == d && data[i..][1..] == data[i + 1..];
      ghost var rest := SaveOps(c, data[i + 1..], dump);
      assert SaveOps(c, data[i..], dump) == Then(SaveObject(c, d, dump), rest);
      MaxHeightAbove(data, i);
      var refOps := DbSaveRefs(c, d, dump);
      if refOps.Err? {
        return Err(refOps.error);
      }
      var own := DbOwnSaveOp(c, d, dump);
      if own.Err? {
        return Err(own.error);
      }
      assert SaveObject(c, d, dump) == Ok(refOps.value + [own.value]);
      assert Then(SaveObject(c, d, dump), rest) == Prepend(refOps.value + [own.value], rest);
      PrependPrepend(ops, refOps.value + [own.value], rest);
      ops := ops + (refOps.value + [own.value]);
    }
    assert data[|data|..] == [];
    assert ops + [] == ops;
    return Ok(ops);
  }

  /** The upsert `_db_save_op` appends for `d` itself. */
  method DbOwnSaveOp(c: Collection, d: Value, dump: Dump) returns (r: Result<(Collection, WriteOp)>)
    ensures r == OwnSaveOp(c, d, dump)
  {
    var id := GetAttr(d, c.idField);
    if id.Err? {
      return Err(id.error);
    }
    var doc := DbDumpData(c, dump(d));
    if doc.Err? {
      return Err(doc.error);
    }
    return Ok((c, ReplaceOne(ById(id.value), doc.value, c.settings.collation, true)));
  }

  /** `_db_save_op`: the inner loop over `c.refs` for one object `d`. */
  method DbSaveRefs(c: Collection, d: Value, dump: Dump) returns (r: Result<Ops>)
    ensures r == RefsSaveOps(d, c.refs, dump)
    decreases Height(d), 0
  {
    var ops := [];
    assert c.refs[0..] == c.refs;
    PrependNil(RefsSaveOps(d, c.refs, dump));
    for j := 0 to |c.refs|
      invariant RefsSaveOps(d, c.refs, dump) == Prepend(ops, RefsSaveOps(d, c.refs[j..], dump))
    {
      var ref := c.refs[j];
      assert c.refs[j..][0] == ref && c.refs[j..][1..] == c.refs[j + 1..];
      ghost var rest := RefsSaveOps(d, c.refs[j + 1..], dump);
      assert RefsSaveOps(d, c.refs[j..], dump) == Then(RefSaveOps(d, ref, dump), rest);
      var v := GetAttr(d, ref.field);
      if v.Err? {
        return Err(v.error);
      }
      var items := RefItems(ref, v.value);
      if items.Err? {
        return Err(items.error);
      }
      HeightOfAttr(d, ref.field);
      RefItemsLower(ref, v.value);
      var sub := DbSaveOp(ref.coll, items.value, dump);
      if sub.Err? {
        return Err(sub.error);
      }
      PrependPrepend(ops, sub.value, rest);
      ops := ops + sub.value;
    }
    assert c.refs[|c.refs|..] == [];
    assert ops + [] == ops;
    return Ok(ops);
  }

  // Save: properties

  /** One computation per object of `data`. */
  function SaveObjects(c: Collection, data: seq<Value>, dump: Dump): (rs: seq<Result<Ops>>)
    ensures |rs| == |data|
    ensures forall i :: 0 <= i < |data| ==> rs[i] == SaveObject(c, data[i], dump)
  {
    if data == [] then [] else [SaveObject(c, data[0], dump)] + SaveObjects(c, data[1..], dump)
  }

  /** One computation per reference of `d`. */
  function RefSaveOpsList(d: Value, refs: seq<Ref>, dump: Dump): (rs: seq<Result<Ops>>)
    ensures |rs| == |refs|
    ensures forall j :: 0 <= j < |refs| ==> rs[j] == RefSaveOps(d, refs[j], dump)
  {
    if refs == [] then [] else [RefSaveOps(d, refs[0], dump)] + RefSaveOpsList(d, refs[1..], dump)
  }

  lemma {:induction false} SaveOpsAsRun(c: Collection, data: seq<Value>, dump: Dump)
    ensures SaveOps(c, data, dump) == ThenAll(SaveObjects(c, data, dump))
    decreases data
  {
    if data != [] {
      SaveOpsAsRun(c, data[1..], dump);
      assert SaveObjects(c, data, dump)[1..] == SaveObjects(c, data[1..], dump);
    }
  }

  lemma {:induction false} RefsSaveOpsAsRun(d: Value, refs: seq<Ref>, dump: Dump)
    ensures RefsSaveOps(d, refs, dump) == ThenAll(RefSaveOpsList(d, refs, dump))
    decreases refs
  {
    if refs != [] {
      RefsSaveOpsAsRun(d, refs[1..], dump);
      assert RefSaveOpsList(d, refs, dump)[1..] == RefSaveOpsList(d, refs[1..], dump);
    }
  }

  /** `_db_save_op` on an empty list plans nothing; otherwise it succeeds
      exactly when the ops of every object can be built, and then returns
      those of each object in turn, in input order. */
  lemma SaveOpsSpec(c: Collection, data: seq<Value>, dump: Dump)
    ensures data == [] ==> SaveOps(c, data, dump) == Ok([])
    ensures SaveOps(c, data, dump).Ok? <==> forall i :: 0 <= i < |data| ==> SaveObject(c, data[i], dump).Ok?
    ensures SaveOps(c, data, dump).Ok? ==> SaveOps(c, data, dump).value == Concat(Outcomes(SaveObjects(c, data, dump)))
  {
    SaveOpsAsRun(c, data, dump);
    ThenAllSpec(SaveObjects(c, data, dump));
  }

  /** The ops of one object end with its own upsert; before it come, one
      block per reference in declaration order, those of the objects it
      references. */
  lemma SaveObjectSpec(c: Collection, d: Value, dump: Dump)
    ensures SaveObject(c, d, dump).Ok? <==>
      OwnSaveOp(c, d, dump).Ok? && forall j :: 0 <= j < |c.refs| ==> RefSaveOps(d, c.refs[j], dump).Ok?
    ensures SaveObject(c, d, dump).Ok? ==>
      SaveObject(c, d, dump).value ==
        Concat(Outcomes(RefSaveOpsList(d, c.refs, dump))) + [OwnSaveOp(c, d, dump).value]
  {
    RefsSaveOpsAsRun(d, c.refs, dump);
    ThenAllSpec(RefSaveOpsList(d, c.refs, dump));
  }

  /** Top-level objects have their own upserts planned in input order. */
  lemma SaveTopLevelOrder(c: Collection, data: seq<Value>, dump: Dump)
    requires SaveOps(c, data, dump).Ok?
    ensures forall i :: 0 <= i < |data| ==>
      OwnSaveOp(c, data[i], dump).Ok? && OwnSaveOp(c, data[i], dump).value in SaveOps(c, data, dump).value
    ensures forall i, j :: 0 <= i < j < |data| ==>
      OwnSaveOp(c, data[i], dump).Ok? && OwnSaveOp(c, data[j], dump).Ok? &&
      Precedes(OwnSaveOp(c, data[i], dump).value, OwnSaveOp(c, data[j], dump).value, SaveOps(c, data, dump).value)
  {
    assert forall i :: 0 <= i < |data| ==> SaveObject(c, data[i], dump).Ok? by {
      SaveOpsSpec(c, data, dump);
    }
    var ops := SaveOps(c, data, dump).value;
    var blocks := Outcomes(SaveObjects(c, data, dump));
    forall i | 0 <= i < |data|
      ensures OwnSaveOp(c, data[i], dump).Ok? && OwnSaveOp(c, data[i], dump).value in ops
    {
      OwnSaveOpAt(c, data, dump, i);
    }
    forall i, j | 0 <= i < j < |data|
      ensures Precedes(OwnSaveOp(c, data[i], dump).value, OwnSaveOp(c, data[j], dump).value, ops)
    {
      OwnSaveOpsOrdered(c, data, dump, i, j);
    }
  }

  lemma OwnSaveOpsOrdered(c: Collection, data: seq<Value>, dump: Dump, i: nat, j: nat)
    requires SaveOps(c, data, dump).Ok? && i < j < |data|
    requires forall i :: 0 <= i < |data| ==> SaveObject(c, data[i], dump).Ok?
    ensures OwnSaveOp(c, data[i], dump).Ok? && OwnSaveOp(c, data[j], dump).Ok?
    ensures Precedes(OwnSaveOp(c, data[i], dump).value, OwnSaveOp(c, data[j], dump).value, SaveOps(c, data, dump).value)
  {
    var ops, blocks := SaveOps(c, data, dump).value, Outcomes(SaveObjects(c, data, dump));
    var p, q := BlockStart(blocks, i + 1) - 1, BlockStart(blocks, j + 1) - 1;
    assert OwnSaveOp(c, data[i], dump).Ok? && 0 <= p < |ops| && ops[p] == OwnSaveOp(c, data[i], dump).value by {
      OwnSaveOpAt(c, data, dump, i);
    }
    assert OwnSaveOp(c, data[j], dump).Ok? && BlockStart(blocks, j) <= q < |ops| && ops[q] == OwnSaveOp(c, data[j], dump).value by {
      OwnSaveOpAt(c, data, dump, j);
    }
    assert p < q by {
      BlockStartMono(blocks, i + 1, j);
    }
  }

  /** The upsert of `data[i]` ends the block of `data[i]`. */
  lemma OwnSaveOpAt(c: Collection, data: seq<Value>, dump: Dump, i: nat)
    requires SaveOps(c, data, dump).Ok? && i < |data|
    requires forall i :: 0 <= i < |data| ==> SaveObject(c, data[i], dump).Ok?
    ensures OwnSaveOp(c, data[i], dump).Ok?
    ensures
      var ops, blocks := SaveOps(c, data, dump).value, Outcomes(SaveObjects(c, data, dump));
      && BlockStart(blocks, i) < BlockStart(blocks, i + 1) <= |ops|
      && ops[BlockStart(blocks, i + 1) - 1] == OwnSaveOp(c, data[i], dump).value
  {
    var blocks := Outcomes(SaveObjects(c, data, dump));
    var own := OwnSaveOp(c, data[i], dump).value;
    assert SaveOps(c, data, dump).value == Concat(blocks) by {
      SaveOpsSpec(c, data, dump);
    }
    assert blocks[i] != [] && blocks[i][|blocks[i]| - 1] == own by {
      SaveObjectSpec(c, data[i], dump);
      assert blocks[i] == SaveObject(c, data[i], dump).value;
    }
    ConcatBlockLast(blocks, i);
  }

  /** The objects `d` holds under its `j`-th reference. */
  function Referenced(c: Collection, d: Value, j: nat): Result<seq<Value>>
    requires j < |c.refs|
  {
    var v :- GetAttr(d, c.refs[j].field);
    RefItems(c.refs[j], v)
  }

  /** Referenced objects first: all the ops planned for an object that `d`
      references form one run inside the ops of `d`, and that run comes
      before the upsert of `d` itself, which is last. */
  lemma ReferencedFirst(c: Collection, d: Value, dump: Dump, j: nat, k: nat)
    requires SaveObject(c, d, dump).Ok?
    requires j < |c.refs| && Referenced(c, d, j).Ok? && k < |Referenced(c, d, j).value|
    ensures OwnSaveOp(c, d, dump).Ok?
    ensures SaveObject(c, d, dump).value[|SaveObject(c, d, dump).value| - 1] == OwnSaveOp(c, d, dump).value
    ensures SaveObject(c.refs[j].coll, Referenced(c, d, j).value[k], dump).Ok?
    ensures BlockBeforeLast(SaveObject(c.refs[j].coll, Referenced(c, d, j).value[k], dump).value, SaveObject(c, d, dump).value)
  {
    var r := c.refs[j];
    var items := Referenced(c, d, j).value;
    SaveObjectSpec(c, d, dump);
    var refBlocks := Outcomes(RefSaveOpsList(d, c.refs, dump));
    var sub := RefSaveOps(d, r, dump).value;
    assert sub == SaveOps(r.coll, items, dump).value;
    SaveOpsSpec(r.coll, items, dump);
    var inner := SaveObject(r.coll, items[k], dump).value;
    assert inner == Outcomes(SaveObjects(r.coll, items, dump))[k];
    ConcatHasBlock(Outcomes(SaveObjects(r.coll, items, dump)), k);
    ConcatHasBlock(refBlocks, j);
    BlockTrans(inner, sub, Concat(refBlocks));
    BlockBeforeLastOfPrefix(inner, Concat(refBlocks), OwnSaveOp(c, d, dump).value);
  }

  /** A chain of references X -> Y -> Z: the upsert of Z precedes that of Y,
      which precedes that of X. */
  lemma SaveChain(cx: Collection, x: Value, dump: Dump, jx: nat, kx: nat, jy: nat, ky: nat)
    requires SaveObject(cx, x, dump).Ok?
    requires jx < |cx.refs| && Referenced(cx, x, jx).Ok? && kx < |Referenced(cx, x, jx).value|
    requires jy < |cx.refs[jx].coll.refs|
    requires Referenced(cx.refs[jx].coll, Referenced(cx, x, jx).value[kx], jy).Ok?
    requires ky < |Referenced(cx.refs[jx].coll, Referenced(cx, x, jx).value[kx], jy).value|
    ensures
      var cy, y := cx.refs[jx].coll, Referenced(cx, x, jx).value[kx];
      var cz, z := cy.refs[jy].coll, Referenced(cy, y, jy).value[ky];
      && OwnSaveOp(cx, x, dump).Ok? && OwnSaveOp(cy, y, dump).Ok? && OwnSaveOp(cz, z, dump).Ok?
      && Precedes(OwnSaveOp(cz, z, dump).value, OwnSaveOp(cy, y, dump).value, SaveObject(cx, x, dump).value)
      && Precedes(OwnSaveOp(cy, y, dump).value, OwnSaveOp(cx, x, dump).value, SaveObject(cx, x, dump).value)
  {
    var cy, y := cx.refs[jx].coll, Referenced(cx, x, jx).value[kx];
    var cz, z := cy.refs[jy].coll, Referenced(cy, y, jy).value[ky];
    ReferencedFirst(cx, x, dump, jx, kx);
    ReferencedFirst(cy, y, dump, jy, ky);
    SaveObjectSpec(cz, z, dump);
    var X, Y, Z := SaveObject(cx, x, dump).value, SaveObject(cy, y, dump).value, SaveObject(cz, z, dump).value;
    PrecedesLast(Y, X);
    PrecedesLast(Z, Y);
    BeforeLastIsBlock(Y, X);
    PrecedesLift(OwnSaveOp(cz, z, dump).value, OwnSaveOp(cy, y, dump).value, Y, X);
  }

  /** An upsert that selects one document by `_id`, under the collation of
      the collection it is sent to. */
  predicate Upsert(p: (Collection, WriteOp))
  {
    p.1.ReplaceOne? && p.1.upsert && p.1.filter.Keys == {MONGO_ID} && p.1.collation == p.0.settings.collation
  }

  ghost predicate AllUpserts(ops: Ops)
  {
    forall i :: 0 <= i < |ops| ==> Upsert(ops[i])
  }

  /** The number of objects a save reaches: each object of `data` and,
      through each reference that can be read, every non-null object it
      holds, counted once per occurrence. */
  ghost function ObjectCount(c: Collection, data: seq<Value>): nat
    decreases MaxHeight(data), 2, |data|
  {
    if data == [] then 0
    else
      MaxHeightAbove(data, 0);
      1 + RefsCount(data[0], c.refs) + ObjectCount(c, data[1..])
  }

  ghost function RefsCount(d: Value, refs: seq<Ref>): nat
    decreases Height(d), 1, |refs|
  {
    if refs == [] then 0 else RefCount(d, refs[0]) + RefsCount(d, refs[1..])
  }

  ghost function RefCount(d: Value, r: Ref): nat
    decreases Height(d), 0, 0
  {
    if GetAttr(d, r.field).Err? || RefItems(r, GetAttr(d, r.field).value).Err? then 0
    else
      HeightOfAttr(d, r.field);
      RefItemsLower(r, d.attrs[r.field]);
      ObjectCount(r.coll, RefItems(r, d.attrs[r.field]).value)
  }

  /** Every op a save plans is an upsert by `_id`, and there is exactly one
      per object the save reaches. */
  lemma {:induction false} SavePlanShape(c: Collection, data: seq<Value>, dump: Dump)
    ensures SaveOps(c, data, dump).Ok? ==>
      AllUpserts(SaveOps(c, data, dump).value) && |SaveOps(c, data, dump).value| == ObjectCount(c, data)
    decreases MaxHeight(data), 3, |data|
  {
    if data != [] {
      MaxHeightAbove(data, 0);
      SaveObjectShape(c, data[0], dump);
      SavePlanShape(c, data[1..], dump);
    }
  }

  lemma {:induction false} SaveObjectShape(c: Collection, d: Value, dump: Dump)
    ensures SaveObject(c, d, dump).Ok? ==>
      AllUpserts(SaveObject(c, d, dump).value) && |SaveObject(c, d, dump).value| == 1 + RefsCount(d, c.refs)
    decreases Height(d), 2, 0
  {
    RefsSaveShape(d, c.refs, dump);
  }

  lemma {:induction false} RefsSaveShape(d: Value, refs: seq<Ref>, dump: Dump)
    ensures RefsSaveOps(d, refs, dump).Ok? ==>
      AllUpserts(RefsSaveOps(d, refs, dump).value) && |RefsSaveOps(d, refs, dump).value| == RefsCount(d, refs)
    decreases Height(d), 1, |refs|
  {
    if refs != [] {
      RefSaveShape(d, refs[0], dump);
      RefsSaveShape(d, refs[1..], dump);
    }
  }

  lemma {:induction false} RefSaveShape(d: Value, r: Ref, dump: Dump)
    ensures RefSaveOps(d, r, dump).Ok? ==>
      AllUpserts(RefSaveOps(d, r, dump).value) && |RefSaveOps(d, r, dump).value| == RefCount(d, r)
    decreases Height(d), 0, 0
  {
    if GetAttr(d, r.field).Ok? && RefItems(r, GetAttr(d, r.field).value).Ok? {
      HeightOfAttr(d, r.field);
      RefItemsLower(r, d.attrs[r.field]);
      SavePlanShape(r.coll, RefItems(r, d.attrs[r.field]).value, dump);
    }
  }

  /** A reference field holding `None` plans nothing, nor does a
      many-reference holding an empty list, string, dict or model; a
      many-reference that is not iterable raises, and the objects saved through a reference are
      exactly the non-null ones it holds or iterates to. */
  lemma NullRefsSaveNothing(d: Value, r: Ref, dump: Dump)
    requires GetAttr(d, r.field).Ok?
    ensures !r.many && GetAttr(d, r.field).value == Null ==> RefSaveOps(d, r, dump) == Ok([])
    ensures r.many && GetAttr(d, r.field).value in {List([]), Str(""), Dict(map[]), Object(map[])} ==>
      RefSaveOps(d, r, dump) == Ok([])
    ensures r.many && Iterate(GetAttr(d, r.field).value).Err? ==>
      RefSaveOps(d, r, dump) == Err(Iterate(GetAttr(d, r.field).value).error)
    ensures
      var v := GetAttr(d, r.field).value;
      RefItems(r, v).Ok? ==> forall x :: x in RefItems(r, v).value <==> x != Null && if r.many then x in Iterate(v).value else x == v
  {
    var v := GetAttr(d, r.field).value;
    if r.many && Iterate(v).Ok? {
      NonNullSpec(Iterate(v).value);
    } else if !r.many {
      NonNullSpec([v]);
    }
  }

  // ---------------------------------------------------------------------
  // fetch and afetch_one

  /** The stages `fetch` appends after the dereference pipeline. */
  function FetchTail(filter: Query, sort: Sort, skip: int, limit: int): seq<Stage>
  {
    var t1 := Opt([], filter != map[], Match(filter));
    var t2 := Opt(t1, sort.items != [], SortBy(sort));
    var t3 := Opt(t2, skip > 0, Skip(skip));
    Opt(t3, limit > 0, Limit(limit))
  }

  /** `pipeline.append(x)` when `b` holds. */
  function Opt(s: seq<Stage>, b: bool, x: Stage): seq<Stage>
  {
    if b then s + [x] else s
  }

  /** The read pipeline of `fetch(filter, sort, skip, limit)`. */
  function FetchPipeline(c: Collection, filter: Query, sort: Sort, skip: int, limit: int): Result<seq<Stage>>
    requires c.Acyclic()
  {
    var p :- DereferencePipeline(c.refs);
    Ok(p + FetchTail(filter, sort, skip, limit))
  }

  /** `fetch`: build the dereference pipeline, then append the optional
      stages. */
  method Fetch(c: Collection, filter: Query := map[], sort: Sort := Sort([]), skip: int := 0, limit: int := -1)
    returns (r: Result<seq<Stage>>)
    requires c.Acyclic()
    ensures r == FetchPipeline(c, filter, sort, skip, limit)
  {
    var p := BuildDereferencePipeline(c.refs);
    if p.Err? {
      return Err(p.error);
    }
    var pipeline := p.value;
    ghost var tail: seq<Stage> := [];
    assert pipeline == p.value + tail;
    if filter != map[] {
      AppendAssoc(p.value, tail, [Match(filter)]);
      pipeline := pipeline + [Match(filter)];
    }
    tail := Opt(tail, filter != map[], Match(filter));
    assert pipeline == p.value + tail;
    if sort.items != [] {
      AppendAssoc(p.value, tail, [SortBy(sort)]);
      pipeline := pipeline + [SortBy(sort)];
    }
    tail := Opt(tail, sort.items != [], SortBy(sort));
    assert pipeline == p.value + tail;
    if skip > 0 {
      AppendAssoc(p.value, tail, [Skip(skip)]);
      pipeline := pipeline + [Skip(skip)];
    }
    tail := Opt(tail, skip > 0, Skip(skip));
    assert pipeline == p.value + tail;
    if limit > 0 {
      AppendAssoc(p.value, tail, [Limit(limit)]);
      pipeline := pipeline + [Limit(limit)];
    }
    tail := Opt(tail, limit > 0, Limit(limit));
    return Ok(pipeline);
  }

  lemma AppendAssoc<T>(a: seq<T>, b: seq<T>, c: seq<T>)
    ensures (a + b) + c == a + (b + c)
  {
  }

  /** The position of a stage among those `fetch` may append. */
  function TailRank(s: Stage): nat
  {
    match s
    case Match(_) => 0
    case SortBy(_) => 1
    case Skip(_) => 2
    case Limit(_) => 3
    case _ => 4
  }

  /** The appended stages: `$match` exactly when the filter is non-empty,
      `$sort` exactly when the sort is non-empty, `$skip` exactly when
      `skip > 0` and `$limit` exactly when `limit > 0`. */
  lemma FetchTailSpec(filter: Query, sort: Sort, skip: int, limit: int)
    ensures var t := FetchTail(filter, sort, skip, limit);
      && |t| == (if filter != map[] then 1 else 0) + (if sort.items != [] then 1 else 0)
           + (if skip > 0 then 1 else 0) + (if limit > 0 then 1 else 0)
      && (Match(filter) in t <==> filter != map[])
      && (SortBy(sort) in t <==> sort.items != [])
      && (Skip(skip) in t <==> skip > 0)
      && (Limit(limit) in t <==> limit > 0)
  {
    var t1 := Opt([], filter != map[], Match(filter));
    var t2 := Opt(t1, sort.items != [], SortBy(sort));
    var t3 := Opt(t2, skip > 0, Skip(skip));
    OptMembers([], filter != map[], Match(filter));
    OptMembers(t1, sort.items != [], SortBy(sort));
    OptMembers(t2, skip > 0, Skip(skip));
    OptMembers(t3, limit > 0, Limit(limit));
  }

  /** An optional append adds one stage exactly when `b` holds, and that
      stage is `x`. */
  lemma OptMembers(s: seq<Stage>, b: bool, x: Stage)
    ensures |Opt(s, b, x)| == |s| + (if b then 1 else 0)
    ensures forall y :: y in Opt(s, b, x) <==> (b && y == x) || y in s
  {
  }

  /** The stages `fetch` may append for these arguments. */
  predicate FetchStage(s: Stage, filter: Query, sort: Sort, skip: int, limit: int)
  {
    s == Match(filter) || s == SortBy(sort) || s == Skip(skip) || s == Limit(limit)
  }

  /** The appended stages come in the order `$match`, `$sort`, `$skip`,
      `$limit`, and are nothing else. */
  lemma FetchTailOrder(filter: Query, sort: Sort, skip: int, limit: int)
    ensures var t := FetchTail(filter, sort, skip, limit);
      && (forall j :: 0 <= j < |t| ==> FetchStage(t[j], filter, sort, skip, limit))
      && (forall j, k :: 0 <= j < k < |t| ==> TailRank(t[j]) < TailRank(t[k]))
  {
    FetchTailIncreasing(filter, sort, skip, limit);
  }

  lemma FetchTailIncreasing(filter: Query, sort: Sort, skip: int, limit: int)
    ensures Increasing(FetchTail(filter, sort, skip, limit), 4, filter, sort, skip, limit)
  {
    var t2 := PrefixIncreasing(filter, sort, skip, limit);
    var t3 := Opt(t2, skip > 0, Skip(skip));
    OptIncreasing(t2, skip > 0, Skip(skip), filter, sort, skip, limit);
    OptIncreasing(t3, limit > 0, Limit(limit), filter, sort, skip, limit);
  }

  /** The first two optional stages. */
  lemma PrefixIncreasing(filter: Query, sort: Sort, skip: int, limit: int) returns (t2: seq<Stage>)
    ensures t2 == Opt(Opt([], filter != map[], Match(filter)), sort.items != [], SortBy(sort))
    ensures Increasing(t2, 2, filter, sort, skip, limit)
  {
    var t1 := Opt([], filter != map[], Match(filter));
    OptIncreasing([], filter != map[], Match(filter), filter, sort, skip, limit);
    OptIncreasing(t1, sort.items != [], SortBy(sort), filter, sort, skip, limit);
    t2 := Opt(t1, sort.items != [], SortBy(sort));
  }

  /** The stages of `t` may be appended by `fetch` and their ranks increase
      strictly along `t`, staying below `bound`. */
  ghost predicate Increasing(t: seq<Stage>, bound: nat, filter: Query, sort: Sort, skip: int, limit: int)
  {
    && (forall j :: 0 <= j < |t| ==> FetchStage(t[j], filter, sort, skip, limit) && TailRank(t[j]) < bound)
    && (forall j, k :: 0 <= j < k < |t| ==> TailRank(t[j]) < TailRank(t[k]))
  }

  lemma OptIncreasing(t: seq<Stage>, b: bool, x: Stage, filter: Query, sort: Sort, skip: int, limit: int)
    requires Increasing(t, TailRank(x), filter, sort, skip, limit) && FetchStage(x, filter, sort, skip, limit)
    ensures Increasing(Opt(t, b, x), TailRank(x) + 1, filter, sort, skip, limit)
  {
    if b {
      var u := t + [x];
      forall j | 0 <= j < |u|
        ensures FetchStage(u[j], filter, sort, skip, limit) && TailRank(u[j]) < TailRank(x) + 1
      {
        if j < |t| {
          assert u[j] == t[j];
        }
      }
      forall j, k | 0 <= j < k < |u| ensures TailRank(u[j]) < TailRank(u[k]) {
        assert u[j] == t[j];
        if k < |t| {
          assert u[k] == t[k];
        }
      }
    }
  }

  /** `fetch` keeps the dereference pipeline as its prefix and then appends
      the optional stages and nothing else; it fails exactly when the
      dereference pipeline does. */
  lemma FetchSpec(c: Collection, filter: Query, sort: Sort, skip: int, limit: int)
    requires c.Acyclic()
    ensures FetchPipeline(c, filter, sort, skip, limit).Ok? <==> DereferencePipeline(c.refs).Ok?
    ensures FetchPipeline(c, filter, sort, skip, limit).Ok? ==>
      var p, d := FetchPipeline(c, filter, sort, skip, limit).value, DereferencePipeline(c.refs).value;
      && p[..|d|] == d
      && p[|d|..] == FetchTail(filter, sort, skip, limit)
      && |p| == |d| + |FetchTail(filter, sort, skip, limit)|
  {
    if DereferencePipeline(c.refs).Ok? {
      var d := DereferencePipeline(c.refs).value;
      var p := FetchPipeline(c, filter, sort, skip, limit).value;
      assert p == d + FetchTail(filter, sort, skip, limit);
    }
  }

  /** `afetch_one`: the first document of `fetch(filter, sort, limit=1)`, or
      `None` when there is none. */
  function AfetchOne(c: Collection, filter: Query, sort: Sort, store: Store): (r: Result<Option<Value>>)
    requires c.Acyclic()
    reads c.db
    ensures r.Ok? <==> DereferencePipeline(c.refs).Ok? && c.db.conn.Some?
    ensures DereferencePipeline(c.refs).Err? ==> r == Err(DereferencePipeline(c.refs).error)
    ensures DereferencePipeline(c.refs).Ok? && c.db.conn.None? ==> r == Err(DatabaseError("Database not connected"))
    ensures r.Ok? ==>
      var p := FetchPipeline(c, filter, sort, 0, 1).value;
      && |p| > 0 && p[|p| - 1] == Limit(1)
      && (r.value == None <==> store(c, p) == [])
      && (r.value.Some? ==> r.value.value == store(c, p)[0])
  {
    var p :- FetchPipeline(c, filter, sort, 0, 1);
    var data :- Read(c, c.db.conn, p, store);
    if data != [] then Ok(Some(data[0])) else Ok(None)
  }

  // ---------------------------------------------------------------------
  // _db_delete_op

  /** The names of the collections registered in `db` that rank above `k`:
      the termination measure of the delete recursion, which walks from a
      collection to the collections that reference it. */
  ghost function Above(db: Database, k: nat): set<string>
    reads db
  {
    set n | n in db.colls && db.colls[n].rank > k
  }

  lemma AboveShrinks(c: Collection, p: (Collection, Ref))
    requires c.db.Valid() && p in ReverseReferences(c)
    ensures p.0.db == c.db && |Above(c.db, p.0.rank)| < |Above(c.db, c.rank)|
  {
    assert p.0.name in c.db.colls && c.db.colls[p.0.name] == p.0 && c.rank < p.0.rank && p.0.db == c.db by {
      ReverseReferenceRanks(c, p);
    }
    var small, big := Above(c.db, p.0.rank), Above(c.db, c.rank);
    assert p.0.name in big && p.0.name !in small;
    forall n | n in small ensures n in big {
    }
    var part := small + {p.0.name};
    assert |part| == |small| + 1;
    assert big == part + (big - part);
    assert |big| == |part| + |big - part|;
  }

  /** The documents of `dc` whose `ref.local` is `v`, read through
      `dc.fetch({ref.local: v})`. */
  function Dependents(dc: Collection, r: Ref, v: Value, store: Store): Result<seq<Value>>
    requires dc.Acyclic()
    reads dc.db
  {
    var p :- FetchPipeline(dc, map[r.local := v], Sort([]), 0, -1);
    Read(dc, dc.db.conn, p, store)
  }

  /** `[j for j in refs if getattr(j, idField) != getattr(d, idField)]` */
  function KeepOthers(js: seq<Value>, idField: string, d: Value): Result<seq<Value>>
  {
    if js == [] then Ok([])
    else
      var a :- GetAttr(js[0], idField);
      var b :- GetAttr(d, idField);
      var rest :- KeepOthers(js[1..], idField, d);
      Ok((if a != b then [js[0]] else []) + rest)
  }

  /** The new value of a dependent's reference field under SET_NULL: for a
      many-reference, the list without the deleted object; else `None`. */
  function Pruned(refF: Value, r: Ref, idField: string, d: Value): Result<Value>
  {
    if !r.many then Ok(Null)
    else
      var js :- Iterate(refF);
      var kept :- KeepOthers(js, idField, d);
      Ok(List(kept))
  }

  /** SET_NULL on one fetched dependent `i` of `dc`. */
  function Prune(i: Value, r: Ref, dc: Collection, d: Value): Result<Value>
  {
    var refF :- GetAttr(i, r.field);
    var pruned :- Pruned(refF, r, dc.idField, d);
    Ok(SetAttr(i, r.field, pruned))
  }

  function PruneAll(deps: seq<Value>, r: Ref, dc: Collection, d: Value): Result<seq<Value>>
  {
    if deps == [] then Ok([])
    else
      var i :- Prune(deps[0], r, dc, d);
      var rest :- PruneAll(deps[1..], r, dc, d);
      Ok([i] + rest)
  }

  /** The delete of one object: `{_id: getattr(d, id_field)}` with the
      collection's collation. */
  function OwnDeleteOp(c: Collection, d: Value): Result<(Collection, WriteOp)>
  {
    var id :- GetAttr(d, c.idField);
    Ok((c, DeleteOne(ById(id), c.settings.collation)))
  }

  /** `c._db_delete_op(data)`, reading dependents with `fetch`. */
  function DeleteOps(c: Collection, data: seq<Value>, dump: Dump, store: Store): Result<Ops>
    requires c.db.Valid()
    reads c.db
    decreases |Above(c.db, c.rank)|, 2, |data|
  {
    if data == [] then Ok([])
    else Then(DeleteObject(c, data[0], dump, store), DeleteOps(c, data[1..], dump, store))
  }

  /** The ops for one object: those of each reverse reference, then its own
      delete. */
  function DeleteObject(c: Collection, d: Value, dump: Dump, store: Store): Result<Ops>
    requires c.db.Valid()
    reads c.db
    decreases |Above(c.db, c.rank)|, 1, 0
  {
    Then(RelationsOps(c, d, ReverseReferences(c), dump, store), Singleton(OwnDeleteOp(c, d)))
  }

  function RelationsOps(c: Collection, d: Value, rev: seq<(Collection, Ref)>, dump: Dump, store: Store): Result<Ops>
    requires c.db.Valid() && forall p <- rev :: p in ReverseReferences(c)
    reads c.db
    decreases |Above(c.db, c.rank)|, 0, |rev|
  {
    if rev == [] then Ok([])
    else Then(RelationOps(c, d, rev[0], dump, store), RelationsOps(c, d, rev[1..], dump, store))
  }

  /** The ops for the dependents of `d` through one reverse reference
      `(dc, ref)`: their deletes under CASCADE, the saves of the pruned
      dependents under SET_NULL. */
  function RelationOps(c: Collection, d: Value, p: (Collection, Ref), dump: Dump, store: Store): Result<Ops>
    requires c.db.Valid() && p in ReverseReferences(c)
    reads c.db
    decreases |Above(c.db, c.rank)|, 0, 0
  {
    ReverseReferenceRanks(c, p);
    AboveShrinks(c, p);
    var dc, r := p.0, p.1;
    var deps :- DependentsOf(c, d, p, store);
    if r.onDelete == Cascade then DeleteOps(dc, deps, dump, store)
    else
      var pruned :- PruneAll(deps, r, dc, d);
      SaveOps(dc, pruned, dump)
  }

  /** The dependents of `d` through the reverse reference `(dc, ref)`:
      `dc.fetch({ref.local: getattr(d, ref.ref)})`. */
  function DependentsOf(c: Collection, d: Value, p: (Collection, Ref), store: Store): Result<seq<Value>>
    requires c.db.Valid() && p in ReverseReferences(c)
    reads c.db
  {
    ReverseReferenceRanks(c, p);
    var v :- GetAttr(d, p.1.ref);
    Dependents(p.0, p.1, v, store)
  }

  /** `_db_delete_op` as written: it calls `coll.afetch`, which `Collection`
      does not define, so the first reverse reference of a deleted object
      raises `AttributeError` before its filter is built. */
  function DeleteOpsAsWritten(c: Collection, data: seq<Value>): Result<Ops>
    requires c.db.Valid()
    reads c.db
  {
    if data == [] then Ok([])
    else Then(DeleteObjectAsWritten(c, data[0]), DeleteOpsAsWritten(c, data[1..]))
  }

  function DeleteObjectAsWritten(c: Collection, d: Value): Result<Ops>
    requires c.db.Valid()
    reads c.db
  {
    if ReverseReferences(c) != [] then Err(AttributeError("afetch"))
    else Singleton(OwnDeleteOp(c, d))
  }

  /** `_db_delete_op`: the outer loop over `data`. */
  method DbDeleteOp(c: Collection, data: seq<Value>, dump: Dump, store: Store) returns (r: Result<Ops>)
    requires c.db.Valid()
    ensures r == DeleteOps(c, data, dump, store)
    decreases |Above(c.db, c.rank)|, 2
  {
    var ops := [];
    assert data[0..] == data;
    PrependNil(DeleteOps(c, data, dump, store));
    for i := 0 to |data|
      invariant DeleteOps(c, data, dump, store) == Prepend(ops, DeleteOps(c, data[i..], dump, store))
    {
      var d := data[i];
      assert data[i..][0] == d && data[i..][1..] == data[i + 1..];
      ghost var rest := DeleteOps(c, data[i + 1..], dump, store);
      assert DeleteOps(c, data[i..], dump, store) == Then(DeleteObject(c, d, dump, store), rest);
      var relOps := DbDeleteRelations(c, d, dump, store);
      if relOps.Err? {
        return Err(relOps.error);
      }
      var id := GetAttr(d, c.idField);
      if id.Err? {
        return Err(id.error);
      }
      var own := (c, DeleteOne(ById(id.value), c.settings.collation));
      assert Then(DeleteObject(c, d, dump, store), rest) == Prepend(relOps.value + [own], rest);
      PrependPrepend(ops, relOps.value + [own], rest);
      ops := ops + (relOps.value + [own]);
    }
    assert data[|data|..] == [];
    assert ops + [] == ops;
    return Ok(ops);
  }

  /** `_db_delete_op`: the inner loop over the reverse references of `c`
      for one object `d`. */
  method DbDeleteRelations(c: Collection, d: Value, dump: Dump, store: Store) returns (r: Result<Ops>)
    requires c.db.Valid()
    ensures r == RelationsOps(c, d, ReverseReferences(c), dump, store)
    decreases |Above(c.db, c.rank)|, 1
  {
    var rev := GetReverseReferences(c);
    var ops := [];
    assert rev[0..] == rev;
    PrependNil(RelationsOps(c, d, rev, dump, store));
    for j := 0 to |rev|
      invariant RelationsOps(c, d, rev, dump, store) == Prepend(ops, RelationsOps(c, d, rev[j..], dump, store))
    {
      ghost var rest := RelationsStep(c, d, rev, j, dump, store);
      var sub := DbRelation(c, d, rev[j], dump, store);
      if sub.Err? {
        return Err(sub.error);
      }
      PrependPrepend(ops, sub.value, rest);
      ops := ops + sub.value;
    }
    assert rev[|rev|..] == [];
    assert ops + [] == ops;
    return Ok(ops);
  }

  /** One step of the inner loop: the suffix from `j` is the relation of
      `rev[j]` followed by the suffix from `j + 1`. */
  lemma RelationsStep(c: Collection, d: Value, rev: seq<(Collection, Ref)>, j: nat, dump: Dump, store: Store)
      returns (rest: Result<Ops>)
    requires c.db.Valid() && rev == ReverseReferences(c) && j < |rev|
    ensures rev[j] in ReverseReferences(c)
    ensures rest == RelationsOps(c, d, rev[j + 1..], dump, store)
    ensures RelationsOps(c, d, rev[j..], dump, store) == Then(RelationOps(c, d, rev[j], dump, store), rest)
  {
    assert rev[j..][0] == rev[j] && rev[j..][1..] == rev[j + 1..];
    rest := RelationsOps(c, d, rev[j + 1..], dump, store);
  }

  /** The body of the inner loop for one reverse reference `(dc, ref)`. */
  method DbRelation(c: Collection, d: Value, p: (Collection, Ref), dump: Dump, store: Store) returns (r: Result<Ops>)
    requires c.db.Valid() && p in ReverseReferences(c)
    ensures r == RelationOps(c, d, p, dump, store)
    decreases |Above(c.db, c.rank)|, 0
  {
    ReverseReferenceRanks(c, p);
    AboveShrinks(c, p);
    var dc, ref := p.0, p.1;
    var v := GetAttr(d, ref.ref);
    if v.Err? {
      return Err(v.error);
    }
    var pipeline := Fetch(dc, map[ref.local := v.value]);
    if pipeline.Err? {
      return Err(pipeline.error);
    }
    var deps := Read(dc, dc.db.conn, pipeline.value, store);
    if deps.Err? {
      return Err(deps.error);
    }
    if ref.onDelete == Cascade {
      r := DbDeleteOp(dc, deps.value, dump, store);
    } else {
      var pruned := PruneDependents(deps.value, ref, dc, d);
      if pruned.Err? {
        return Err(pruned.error);
      }
      r := DbSaveOp(dc, pruned.value, dump);
    }
  }

  /** The SET_NULL loop: `setattr` on each fetched dependent in turn. */
  method PruneDependents(deps: seq<Value>, r: Ref, dc: Collection, d: Value) returns (res: Result<seq<Value>>)
    ensures res == PruneAll(deps, r, dc, d)
  {
    var out := [];
    assert deps[0..] == deps;
    PrependNil(PruneAll(deps, r, dc, d));
    for k := 0 to |deps|
      invariant PruneAll(deps, r, dc, d) == Prepend(out, PruneAll(deps[k..], r, dc, d))
    {
      var i := deps[k];
      assert deps[k..][0] == i && deps[k..][1..] == deps[k + 1..];
      var refF := GetAttr(i, r.field);
      if refF.Err? {
        return Err(refF.error);
      }
      var pruned := Pruned(refF.value, r, dc.idField, d);
      if pruned.Err? {
        return Err(pruned.error);
      }
      PrependPrepend(out, [SetAttr(i, r.field, pruned.value)], PruneAll(deps[k + 1..], r, dc, d));
      out := out + [SetAttr(i, r.field, pruned.value)];
    }
    assert deps[|deps|..] == [];
    assert out + [] == out;
    return Ok(out);
  }

  // ---------------------------------------------------------------------
  // Properties of the delete planner

  /** One computation per object of `data`. */
  function DeleteObjects(c: Collection, data: seq<Value>, dump: Dump, store: Store): (rs: seq<Result<Ops>>)
    requires c.db.Valid()
    reads c.db
    ensures |rs| == |data|
    ensures forall i :: 0 <= i < |data| ==> rs[i] == DeleteObject(c, data[i], dump, store)
  {
    if data == [] then [] else [DeleteObject(c, data[0], dump, store)] + DeleteObjects(c, data[1..], dump, store)
  }

  /** One computation per reverse reference in `rev`. */
  function RelationOpsList(c: Collection, d: Value, rev: seq<(Collection, Ref)>, dump: Dump, store: Store): (rs: seq<Result<Ops>>)
    requires c.db.Valid() && forall p <- rev :: p in ReverseReferences(c)
    reads c.db
    ensures |rs| == |rev|
    ensures forall j :: 0 <= j < |rev| ==> rs[j] == RelationOps(c, d, rev[j], dump, store)
  {
    if rev == [] then []
    else
      assert rev[0] in ReverseReferences(c);
      assert forall p <- rev[1..] :: p in ReverseReferences(c);
      var rest := RelationOpsList(c, d, rev[1..], dump, store);
      [RelationOps(c, d, rev[0], dump, store)] + rest
  }

  lemma {:induction false} DeleteOpsAsRun(c: Collection, data: seq<Value>, dump: Dump, store: Store)
    requires c.db.Valid()
    ensures DeleteOps(c, data, dump, store) == ThenAll(DeleteObjects(c, data, dump, store))
    decreases data
  {
    if data != [] {
      DeleteOpsAsRun(c, data[1..], dump, store);
      assert DeleteObjects(c, data, dump, store)[1..] == DeleteObjects(c, data[1..], dump, store);
    }
  }

  lemma {:induction false} RelationsOpsAsRun(c: Collection, d: Value, rev: seq<(Collection, Ref)>, dump: Dump, store: Store)
    requires c.db.Valid() && forall p <- rev :: p in ReverseReferences(c)
    ensures RelationsOps(c, d, rev, dump, store) == ThenAll(RelationOpsList(c, d, rev, dump, store))
    decreases rev
  {
    if rev != [] {
      assert forall p <- rev[1..] :: p in rev;
      RelationsOpsAsRun(c, d, rev[1..], dump, store);
      assert RelationOpsList(c, d, rev, dump, store)[1..] == RelationOpsList(c, d, rev[1..], dump, store);
    }
  }

  /** `_db_delete_op` on an empty list plans nothing; otherwise it succeeds
      exactly when the ops of every object can be built, and then returns
      those of each object in turn, in input order. */
  lemma DeleteOpsSpec(c: Collection, data: seq<Value>, dump: Dump, store: Store)
    requires c.db.Valid()
    ensures data == [] ==> DeleteOps(c, data, dump, store) == Ok([])
    ensures DeleteOps(c, data, dump, store).Ok? <==>
      forall i :: 0 <= i < |data| ==> DeleteObject(c, data[i], dump, store).Ok?
    ensures DeleteOps(c, data, dump, store).Ok? ==>
      DeleteOps(c, data, dump, store).value == Concat(Outcomes(DeleteObjects(c, data, dump, store)))
  {
    DeleteOpsAsRun(c, data, dump, store);
    ThenAllSpec(DeleteObjects(c, data, dump, store));
  }

  /** A delete that selects one document by `_id`, under the collation of
      the collection it is sent to. */
  predicate DeleteById(p: (Collection, WriteOp))
  {
    p.1.DeleteOne? && p.1.filter.Keys == {MONGO_ID} && p.1.collation == p.0.settings.collation
  }

  /** The ops of one object: one block per reverse reference of its
      collection, in registry order, then its own delete by `_id`, which
      fails exactly when the object has no id attribute. */
  lemma DeleteObjectSpec(c: Collection, d: Value, dump: Dump, store: Store)
    requires c.db.Valid()
    ensures OwnDeleteOp(c, d).Ok? <==> d.Object? && c.idField in d.attrs
    ensures OwnDeleteOp(c, d).Ok? ==>
      DeleteById(OwnDeleteOp(c, d).value) && OwnDeleteOp(c, d).value.0 == c &&
      OwnDeleteOp(c, d).value.1.filter[MONGO_ID] == d.attrs[c.idField]
    ensures var rs := RelationOpsList(c, d, ReverseReferences(c), dump, store);
      DeleteObject(c, d, dump, store).Ok? <==> OwnDeleteOp(c, d).Ok? && forall j :: 0 <= j < |rs| ==> rs[j].Ok?
    ensures DeleteObject(c, d, dump, store).Ok? ==>
      DeleteObject(c, d, dump, store).value ==
        Concat(Outcomes(RelationOpsList(c, d, ReverseReferences(c), dump, store))) + [OwnDeleteOp(c, d).value]
  {
    var rev := ReverseReferences(c);
    RelationsOpsAsRun(c, d, rev, dump, store);
    ThenAllSpec(RelationOpsList(c, d, rev, dump, store));
  }

  /** Dependents first: under CASCADE, all the ops planned for a dependent
      of `d` form one run inside the ops of `d`, before the delete of `d`
      itself, which is last. */
  lemma CascadeDependentsFirst(c: Collection, d: Value, dump: Dump, store: Store, p: (Collection, Ref), k: nat)
    requires c.db.Valid() && DeleteObject(c, d, dump, store).Ok?
    requires p in ReverseReferences(c) && p.1.onDelete == Cascade
    requires DependentsOf(c, d, p, store).Ok? && k < |DependentsOf(c, d, p, store).value|
    ensures p.0.db.Valid() && OwnDeleteOp(c, d).Ok?
    ensures DeleteObject(c, d, dump, store).value[|DeleteObject(c, d, dump, store).value| - 1] == OwnDeleteOp(c, d).value
    ensures DeleteObject(p.0, DependentsOf(c, d, p, store).value[k], dump, store).Ok?
    ensures BlockBeforeLast(DeleteObject(p.0, DependentsOf(c, d, p, store).value[k], dump, store).value,
                            DeleteObject(c, d, dump, store).value)
  {
    var pre := RelationBlockInDelete(c, d, dump, store, p);
    var sub := RelationOps(c, d, p, dump, store).value;
    var dep := DependentsOf(c, d, p, store).value[k];
    assert DeleteObject(p.0, dep, dump, store).Ok? && Block(DeleteObject(p.0, dep, dump, store).value, sub) by {
      CascadeBlock(c, d, dump, store, p, k);
    }
    var Y := DeleteObject(p.0, dep, dump, store).value;
    BlockTrans(Y, sub, pre);
    BlockBeforeLastOfPrefix(Y, pre, OwnDeleteOp(c, d).value);
  }

  /** The ops of each reverse reference form one run of the ops of `d`,
      which end with the delete of `d`. */
  lemma RelationBlockInDelete(c: Collection, d: Value, dump: Dump, store: Store, p: (Collection, Ref))
    returns (pre: seq<(Collection, WriteOp)>)
    requires c.db.Valid() && DeleteObject(c, d, dump, store).Ok?
    requires p in ReverseReferences(c)
    ensures p.0.db.Valid() && OwnDeleteOp(c, d).Ok? && RelationOps(c, d, p, dump, store).Ok?
    ensures DeleteObject(c, d, dump, store).value == pre + [OwnDeleteOp(c, d).value]
    ensures Block(RelationOps(c, d, p, dump, store).value, pre)
  {
    var rev := ReverseReferences(c);
    var j :| 0 <= j < |rev| && rev[j] == p;
    ReverseReferenceRanks(c, p);
    var rs := RelationOpsList(c, d, rev, dump, store);
    assert OwnDeleteOp(c, d).Ok? && (forall j :: 0 <= j < |rs| ==> rs[j].Ok?) &&
           DeleteObject(c, d, dump, store).value == Concat(Outcomes(rs)) + [OwnDeleteOp(c, d).value] by {
      DeleteObjectSpec(c, d, dump, store);
    }
    var relBlocks := Outcomes(rs);
    pre := Concat(relBlocks);
    assert rs[j] == RelationOps(c, d, p, dump, store);
    assert Block(RelationOps(c, d, p, dump, store).value, pre) by {
      assert relBlocks[j] == RelationOps(c, d, p, dump, store).value;
      ConcatHasBlock(relBlocks, j);
    }
  }

  /** In particular, under CASCADE the delete of each dependent of `d` comes
      before the delete of `d`. */
  lemma CascadeDeleteOrder(c: Collection, d: Value, dump: Dump, store: Store, p: (Collection, Ref), k: nat)
    requires c.db.Valid() && DeleteObject(c, d, dump, store).Ok?
    requires p in ReverseReferences(c) && p.1.onDelete == Cascade
    requires DependentsOf(c, d, p, store).Ok? && k < |DependentsOf(c, d, p, store).value|
    ensures p.0.db.Valid() && OwnDeleteOp(c, d).Ok? && OwnDeleteOp(p.0, DependentsOf(c, d, p, store).value[k]).Ok?
    ensures Precedes(OwnDeleteOp(p.0, DependentsOf(c, d, p, store).value[k]).value, OwnDeleteOp(c, d).value,
                     DeleteObject(c, d, dump, store).value)
  {
    var dep := DependentsOf(c, d, p, store).value[k];
    CascadeDependentsFirst(c, d, dump, store, p, k);
    var Y := DeleteObject(p.0, dep, dump, store).value;
    assert OwnDeleteOp(p.0, dep).Ok? && Y != [] && Y[|Y| - 1] == OwnDeleteOp(p.0, dep).value by {
      DeleteObjectSpec(p.0, dep, dump, store);
    }
    PrecedesLast(Y, DeleteObject(c, d, dump, store).value);
  }

  /** Under CASCADE the ops of each dependent form one run inside those of
      the reverse reference. */
  lemma CascadeBlock(c: Collection, d: Value, dump: Dump, store: Store, p: (Collection, Ref), k: nat)
    requires c.db.Valid() && p in ReverseReferences(c) && p.1.onDelete == Cascade
    requires RelationOps(c, d, p, dump, store).Ok?
    requires DependentsOf(c, d, p, store).Ok? && k < |DependentsOf(c, d, p, store).value|
    ensures p.0.db.Valid()
    ensures DeleteObject(p.0, DependentsOf(c, d, p, store).value[k], dump, store).Ok?
    ensures Block(DeleteObject(p.0, DependentsOf(c, d, p, store).value[k], dump, store).value, RelationOps(c, d, p, dump, store).value)
  {
    ReverseReferenceRanks(c, p);
    var deps := DependentsOf(c, d, p, store).value;
    assert RelationOps(c, d, p, dump, store) == DeleteOps(p.0, deps, dump, store);
    DeleteOpsSpec(p.0, deps, dump, store);
    var blocks := Outcomes(DeleteObjects(p.0, deps, dump, store));
    assert DeleteObject(p.0, deps[k], dump, store).value == blocks[k];
    ConcatHasBlock(blocks, k);
  }

  /** Under SET_NULL nothing is deleted: the dependents are only saved, each
      with its reference field pruned, so the block of that reverse
      reference is made of upserts, one per object the save reaches. */
  lemma SetNullSavesOnly(c: Collection, d: Value, dump: Dump, store: Store, p: (Collection, Ref))
    requires c.db.Valid() && p in ReverseReferences(c) && p.1.onDelete == SetNull
    requires RelationOps(c, d, p, dump, store).Ok?
    ensures DependentsOf(c, d, p, store).Ok?
    ensures PruneAll(DependentsOf(c, d, p, store).value, p.1, p.0, d).Ok?
    ensures
      var pruned := PruneAll(DependentsOf(c, d, p, store).value, p.1, p.0, d).value;
      && RelationOps(c, d, p, dump, store) == SaveOps(p.0, pruned, dump)
      && AllUpserts(RelationOps(c, d, p, dump, store).value)
      && |RelationOps(c, d, p, dump, store).value| == ObjectCount(p.0, pruned)
  {
    var pruned := PruneAll(DependentsOf(c, d, p, store).value, p.1, p.0, d).value;
    SavePlanShape(p.0, pruned, dump);
  }

  /** `[j for j in js if getattr(j, f) != getattr(d, f)]`: it fails exactly
      when some entry, or `d` itself when there is an entry, lacks `f`; it
      keeps exactly the entries whose `f` differs from that of `d`, in
      order, and all of them when none matches. */
  lemma KeepOthersSpec(js: seq<Value>, f: string, d: Value)
    ensures KeepOthers(js, f, d).Ok? <==>
      (forall j <- js :: GetAttr(j, f).Ok?) && (js != [] ==> GetAttr(d, f).Ok?)
    ensures KeepOthers(js, f, d).Ok? ==>
      var kept := KeepOthers(js, f, d).value;
      && |kept| <= |js|
      && (forall x :: x in kept <==> x in js && GetAttr(x, f).value != GetAttr(d, f).value)
      && ((forall j <- js :: GetAttr(j, f).value != GetAttr(d, f).value) ==> kept == js)
  {
    KeepOthersOk(js, f, d);
    if KeepOthers(js, f, d).Ok? {
      KeepOthersKept(js, f, d);
      if forall j <- js :: GetAttr(j, f).value != GetAttr(d, f).value {
        KeepOthersAll(js, f, d);
      }
    }
  }

  lemma {:induction false} KeepOthersOk(js: seq<Value>, f: string, d: Value)
    ensures KeepOthers(js, f, d).Ok? <==>
      (forall j <- js :: GetAttr(j, f).Ok?) && (js != [] ==> GetAttr(d, f).Ok?)
  {
    if js != [] {
      KeepOthersOk(js[1..], f, d);
      assert forall j <- js :: j == js[0] || j in js[1..];
    }
  }

  lemma {:induction false} KeepOthersKept(js: seq<Value>, f: string, d: Value)
    requires KeepOthers(js, f, d).Ok?
    ensures (forall j <- js :: GetAttr(j, f).Ok?) && (js != [] ==> GetAttr(d, f).Ok?)
    ensures var kept := KeepOthers(js, f, d).value;
      && |kept| <= |js|
      && (forall x :: x in kept <==> x in js && GetAttr(x, f).value != GetAttr(d, f).value)
  {
    if js != [] {
      assert KeepOthers(js[1..], f, d).Ok?;
      KeepOthersKept(js[1..], f, d);
      assert forall j <- js :: j == js[0] || j in js[1..];
    }
  }

  lemma {:induction false} KeepOthersAll(js: seq<Value>, f: string, d: Value)
    requires KeepOthers(js, f, d).Ok?
    requires js != [] ==> GetAttr(d, f).Ok?
    requires forall j <- js :: GetAttr(j, f).Ok? && GetAttr(j, f).value != GetAttr(d, f).value
    ensures KeepOthers(js, f, d).value == js
  {
    if js != [] {
      assert KeepOthers(js[1..], f, d).Ok?;
      assert forall j <- js[1..] :: j in js;
      KeepOthersAll(js[1..], f, d);
      assert js == [js[0]] + js[1..];
    }
  }

  /** The filter keeps the order of `js`: on a concatenation it is the
      concatenation of the filtered parts, and a single entry is kept
      exactly when its `f` differs from that of `d`. */
  lemma {:induction false} KeepOthersAppend(a: seq<Value>, b: seq<Value>, f: string, d: Value)
    ensures KeepOthers(a + b, f, d).Ok? <==> KeepOthers(a, f, d).Ok? && KeepOthers(b, f, d).Ok?
    ensures KeepOthers(a + b, f, d).Ok? ==>
      KeepOthers(a + b, f, d).value == KeepOthers(a, f, d).value + KeepOthers(b, f, d).value
    ensures forall j :: KeepOthers([j], f, d).Ok? ==>
      KeepOthers([j], f, d).value == if GetAttr(j, f).value != GetAttr(d, f).value then [j] else []
  {
    forall j | KeepOthers([j], f, d).Ok?
      ensures KeepOthers([j], f, d).value == if GetAttr(j, f).value != GetAttr(d, f).value then [j] else []
    {
      assert [j][1..] == [];
    }
    if a == [] {
      assert a + b == b;
    } else {
      assert (a + b)[0] == a[0] && (a + b)[1..] == a[1..] + b;
      KeepOthersAppend(a[1..], b, f, d);
      if KeepOthers(a + b, f, d).Ok? {
        var x := if GetAttr(a[0], f).value != GetAttr(d, f).value then [a[0]] else [];
        AppendAssoc(x, KeepOthers(a[1..], f, d).value, KeepOthers(b, f, d).value);
      }
    }
  }

  /** SET_NULL on one dependent `i`: it fails when `i` has no reference
      field, when a many-reference cannot be iterated, or when what it
      iterates to cannot be filtered; otherwise only the reference field changes, to `None`
      for a single reference and to the list without the deleted object for
      a many-reference. */
  lemma PruneSpec(i: Value, r: Ref, dc: Collection, d: Value)
    ensures Prune(i, r, dc, d).Ok? <==>
      i.Object? && r.field in i.attrs &&
      (r.many ==> Iterate(i.attrs[r.field]).Ok? && KeepOthers(Iterate(i.attrs[r.field]).value, dc.idField, d).Ok?)
    ensures Prune(i, r, dc, d).Ok? ==>
      var out := Prune(i, r, dc, d).value;
      && out.Object? && out.attrs.Keys == i.attrs.Keys
      && (forall k <- i.attrs :: k != r.field ==> out.attrs[k] == i.attrs[k])
      && (!r.many ==> out.attrs[r.field] == Null)
      && (r.many ==> out.attrs[r.field] == List(KeepOthers(Iterate(i.attrs[r.field]).value, dc.idField, d).value))
  {
  }

  /** The SET_NULL loop prunes every dependent, in order, or fails with the
      first dependent that cannot be pruned. */
  lemma {:induction false} PruneAllSpec(deps: seq<Value>, r: Ref, dc: Collection, d: Value)
    ensures PruneAll(deps, r, dc, d).Ok? <==> forall k :: 0 <= k < |deps| ==> Prune(deps[k], r, dc, d).Ok?
    ensures PruneAll(deps, r, dc, d).Ok? ==>
      |PruneAll(deps, r, dc, d).value| == |deps| &&
      forall k :: 0 <= k < |deps| ==> PruneAll(deps, r, dc, d).value[k] == Prune(deps[k], r, dc, d).value
  {
    if deps != [] {
      PruneAllSpec(deps[1..], r, dc, d);
      assert forall k :: 1 <= k < |deps| ==> deps[k] == deps[1..][k - 1];
    }
  }

  /** As written, deleting any object of a collection that another
      registered collection references raises `AttributeError`. */
  lemma DeleteAsWrittenFails(c: Collection, data: seq<Value>)
    requires c.db.Valid() && data != [] && ReverseReferences(c) != []
    ensures DeleteOpsAsWritten(c, data) == Err(AttributeError("afetch"))
  {
  }

  /** Where nothing references the collection, the written and the
      corrected planner agree: one delete by `_id` per object. */
  lemma {:induction false} DeleteAsWrittenAgrees(c: Collection, data: seq<Value>, dump: Dump, store: Store)
    requires c.db.Valid() && ReverseReferences(c) == []
    ensures DeleteOpsAsWritten(c, data) == DeleteOps(c, data, dump, store)
    decreases data
  {
    if data != [] {
      DeleteAsWrittenAgrees(c, data[1..], dump, store);
      PrependNil(Singleton(OwnDeleteOp(c, data[0])));
      assert RelationsOps(c, data[0], ReverseReferences(c), dump, store) == Ok([]);
      assert DeleteObject(c, data[0], dump, store) == DeleteObjectAsWritten(c, data[0]);
    }
  }

  // ---------------------------------------------------------------------
  // asave / adelete

  /** `[data] if not isinstance(data, list) else data` */
  function AsList(data: Value): seq<Value>
  {
    if data.List? then data.items else [data]
  }

  /** `asave(data, session)`: plan the upserts of `data` and of everything
      it references, then submit them grouped by collection. An error while
      planning surfaces before anything is submitted. */
  method ASave(c: Collection, data: Value, dump: Dump, session: Option<SessionRef> := None) returns (r: Result<seq<BulkWrite>>)
    ensures SaveOps(c, AsList(data), dump).Err? ==> r == Err(SaveOps(c, AsList(data), dump).error)
    ensures SaveOps(c, AsList(data), dump).Ok? ==> r == ApplyPlan(SaveOps(c, AsList(data), dump).value, session)
  {
    var ops := DbSaveOp(c, AsList(data), dump);
    if ops.Err? {
      return Err(ops.error);
    }
    r := c.db.Apply(ops.value, session);
  }

  /** `adelete(data, session)`: plan the deletes of `data` with their
      cascades and prunes, then submit them grouped by collection. An error
      while planning surfaces before anything is submitted. */
  method ADelete(c: Collection, data: Value, dump: Dump, store: Store, session: Option<SessionRef> := None)
      returns (r: Result<seq<BulkWrite>>)
    requires c.db.Valid()
    ensures DeleteOps(c, AsList(data), dump, store).Err? ==> r == Err(DeleteOps(c, AsList(data), dump, store).error)
    ensures DeleteOps(c, AsList(data), dump, store).Ok? ==>
      r == ApplyPlan(DeleteOps(c, AsList(data), dump, store).value, session)
  {
    var ops := DbDeleteOp(c, AsList(data), dump, store);
    if ops.Err? {
      return Err(ops.error);
    }
    r := c.db.Apply(ops.value, session);
  }
}
