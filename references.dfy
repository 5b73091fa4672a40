/** The reference engine of mongo_om/db/references.py: the compiler from
    reference metadata to the aggregation stages that join referenced
    documents in, and the lookup of the references that point at a
    collection. */
module References {
  import opened Values
  import opened Mongo
  import opened Schema

  // ---------------------------------------------------------------------
  // build_dereference_pipeline

  /** One more than the largest target rank among `refs`, the measure of the
      compiler's recursion. */
  ghost function RankBound(refs: seq<Ref>): nat
  {
    if refs == [] then 0
    else
      var h := refs[0].coll.rank + 1;
      var t := RankBound(refs[1..]);
      if h < t then t else h
  }

  lemma {:induction false} RankBoundOf(refs: seq<Ref>, k: nat)
    requires forall r <- refs :: r.coll.rank < k
    ensures RankBound(refs) <= k
  {
    if refs != [] {
      assert refs[0] in refs;
      assert forall r <- refs[1..] :: r in refs;
      RankBoundOf(refs[1..], k);
    }
  }

  /** The references of an acyclic collection have a lower bound than the
      collection's own rank. */
  lemma RankBoundBelow(c: Collection)
    requires c.Acyclic()
    ensures RankBound(c.refs) <= c.rank
  {
    RankBoundOf(c.refs, c.rank);
  }

  lemma {:induction false} RankBoundAbove(refs: seq<Ref>, i: nat)
    requires i < |refs|
    ensures refs[i].coll.rank < RankBound(refs)
    ensures RankBound(refs[i..]) <= RankBound(refs)
  {
    if i > 0 {
      RankBoundAbove(refs[1..], i - 1);
      assert refs[1..][i - 1..] == refs[i..];
    }
  }

  /** `foreing_f`: "_id" when the reference matches on the target's id
      field, otherwise the stored name of the matched field. */
  function ForeignField(r: Ref): Result<string>
  {
    if r.ref == r.coll.idField then Ok(MONGO_ID) else r.coll.DbField(r.ref)
  }

  /** The `$cond` of the SET_NULL `$addFields` stage: an empty join result
      becomes `[]` for a many-reference and `[None]` for a single one; any
      other result is kept. */
  function SetNullCond(r: Ref): Cond
  {
    Cond("$" + r.field, List([]), if r.many then List([]) else List([Null]), "$" + r.field)
  }

  /** The number of stages one reference contributes. */
  function BlockSize(r: Ref): nat
  {
    2 + (if r.onDelete == SetNull then 1 else 0) + (if r.many then 0 else 1)
  }

  /** The stages of one reference: `$lookup`, `$addFields` under SET_NULL,
      `$unwind` for a single reference, then `$set`. */
  function RefStages(r: Ref): Result<seq<Stage>>
    requires r.coll.Acyclic()
    decreases r.coll.rank + 1, 0, 0
  {
    var foreign :- ForeignField(r);
    RankBoundBelow(r.coll);
    var nested :- DereferencePipeline(r.coll.refs);
    Ok(RefBlock(r, foreign, nested))
  }

  /** The stages of `r` once its foreign field and nested pipeline are known. */
  function RefBlock(r: Ref, foreign: string, nested: seq<Stage>): seq<Stage>
  {
    [Lookup(r.coll.name, r.local, foreign, nested + (if r.many then [] else [Limit(1)]), r.field)]
      + (if r.onDelete == SetNull then [AddFields(r.field, SetNullCond(r))] else [])
      + (if r.many then [] else [Unwind("$" + r.field, true)])
      + [Set(r.coll.idField, "$" + MONGO_ID)]
  }

  /** The dereference pipeline of `refs`: the stages of each reference in
      declaration order. */
  function DereferencePipeline(refs: seq<Ref>): Result<seq<Stage>>
    requires forall r <- refs :: r.coll.Acyclic()
    decreases RankBound(refs), 1, |refs|
  {
    if refs == [] then Ok([])
    else
      var head :- RefStages(refs[0]);
      var tail :- DereferencePipeline(refs[1..]);
      Ok(head + tail)
  }

  /** `build_dereference_pipeline(refs)`. */
  method BuildDereferencePipeline(refs: seq<Ref>) returns (r: Result<seq<Stage>>)
    requires forall x <- refs :: x.coll.Acyclic()
    ensures r == DereferencePipeline(refs)
    decreases RankBound(refs)
  {
    var pipeline: seq<Stage> := [];
    assert refs[0..] == refs;
    PrependNil(DereferencePipeline(refs));
    for i := 0 to |refs|
      invariant DereferencePipeline(refs) == Prepend(pipeline, DereferencePipeline(refs[i..]))
    {
      var ref := refs[i];
      assert ref in refs;
      assert refs[i..][0] == ref && refs[i..][1..] == refs[i + 1..];
      var foreign: string;
      if ref.ref == ref.coll.idField {
        foreign := MONGO_ID;
      } else {
        var f := ref.coll.DbField(ref.ref);
        if f.Err? {
          assert DereferencePipeline(refs[i..]) == Err(f.error);
          return Err(f.error);
        }
        foreign := f.value;
      }
      RankBoundBelow(ref.coll);
      RankBoundAbove(refs, i);
      var nested := BuildDereferencePipeline(ref.coll.refs);
      if nested.Err? {
        assert DereferencePipeline(refs[i..]) == Err(nested.error);
        return Err(nested.error);
      }
      ghost var start := pipeline;
      pipeline := AppendRefBlock(pipeline, ref, foreign, nested.value);
      assert DereferencePipeline(refs[i..]) == Prepend(RefStages(ref).value, DereferencePipeline(refs[i + 1..]));
      PrependPrepend(start, RefStages(ref).value, DereferencePipeline(refs[i + 1..]));
    }
    assert refs[|refs|..] == [];
    assert pipeline + [] == pipeline;
    return Ok(pipeline);
  }

  /** The appends of one loop iteration of `build_dereference_pipeline`. */
  method AppendRefBlock(pipeline: seq<Stage>, ref: Ref, foreign: string, nested: seq<Stage>) returns (p: seq<Stage>)
    ensures p == pipeline + RefBlock(ref, foreign, nested)
  {
    p := pipeline + [Lookup(ref.coll.name, ref.local, foreign, nested + (if ref.many then [] else [Limit(1)]), ref.field)];
    ghost var t := [p[|p| - 1]];
    // set null to not-dereferenced values
    if ref.onDelete == SetNull {
      p := p + [AddFields(ref.field, SetNullCond(ref))];
    }
    t := t + if ref.onDelete == SetNull then [AddFields(ref.field, SetNullCond(ref))] else [];
    assert p == pipeline + t;
    // unwind reference values
    if !ref.many {
      p := p + [Unwind("$" + ref.field, true)];
    }
    t := t + if ref.many then [] else [Unwind("$" + ref.field, true)];
    assert p == pipeline + t;
    // map "_id" to the id field
    p := p + [Set(ref.coll.idField, "$" + MONGO_ID)];
  }

  /** The shape of one reference's stages: a `$lookup` from the target on
      `local`, joining into `field`, whose nested pipeline is the target's
      own dereference pipeline followed by `{$limit: 1}` exactly when the
      reference is single; then `$addFields` exactly under SET_NULL;
      then an `$unwind` that keeps empty results, exactly for a single
      reference; and last the `$set` of the target's id field from "_id". */
  lemma RefStagesShape(r: Ref)
    requires r.coll.Acyclic()
    requires RefStages(r).Ok?
    ensures var s := RefStages(r).value;
      var k := if r.onDelete == SetNull then 2 else 1;
      && |s| == BlockSize(r)
      && ForeignField(r).Ok? && DereferencePipeline(r.coll.refs).Ok?
      && s[0] == Lookup(r.coll.name, r.local, ForeignField(r).value,
                        DereferencePipeline(r.coll.refs).value + (if r.many then [] else [Limit(1)]), r.field)
      && (r.onDelete == SetNull <==> s[1].AddFields?)
      && (r.onDelete == SetNull ==> s[1] == AddFields(r.field, SetNullCond(r)))
      && (!r.many <==> s[k].Unwind?)
      && (!r.many ==> s[k] == Unwind("$" + r.field, true))
      && s[|s| - 1] == Set(r.coll.idField, "$" + MONGO_ID)
  {
  }

  /** The `$lookup` matches "_id" exactly for a reference on the target's id
      field, and otherwise the stored name of the referenced field. */
  lemma ForeignFieldSpec(r: Ref)
    ensures r.ref == r.coll.idField ==> ForeignField(r) == Ok(MONGO_ID)
    ensures r.ref != r.coll.idField ==> ForeignField(r) == r.coll.DbField(r.ref)
    ensures r.ref != r.coll.idField && r.ref in r.coll.model.fields && r.coll.model.fields[r.ref].None? ==>
              ForeignField(r) == Ok(r.ref)
    ensures ForeignField(r).Err? ==> ForeignField(r) == Err(KeyError(r.ref))
  {
  }

  /** Under SET_NULL an empty join result is replaced by `[]` for a
      many-reference and by `[None]` for a single one; otherwise the stage
      keeps the joined value. */
  lemma SetNullCondSpec(r: Ref)
    ensures SetNullCond(r).ifPath == "$" + r.field && SetNullCond(r).elsePath == "$" + r.field
    ensures SetNullCond(r).equals == List([])
    ensures SetNullCond(r).thenValue == if r.many then List([]) else List([Null])
  {
  }

  /** The sum of the block sizes of `refs`. */
  function TotalBlockSize(refs: seq<Ref>): nat
  {
    if refs == [] then 0 else BlockSize(refs[0]) + TotalBlockSize(refs[1..])
  }

  /** No references, no stages; otherwise the pipeline has
      2 + [SET_NULL] + [single] stages per reference. */
  lemma {:induction false} PipelineLength(refs: seq<Ref>)
    requires forall r <- refs :: r.coll.Acyclic()
    requires DereferencePipeline(refs).Ok?
    ensures |DereferencePipeline(refs).value| == TotalBlockSize(refs)
    ensures refs == [] ==> DereferencePipeline(refs).value == []
  {
    if refs != [] {
      assert forall r <- refs[1..] :: r in refs;
      RefStagesShape(refs[0]);
      PipelineLength(refs[1..]);
    }
  }

  /** The pipeline of a concatenation is the concatenation of the pipelines;
      an error in the first part wins. */
  lemma {:induction false} PipelineAppend(a: seq<Ref>, b: seq<Ref>)
    requires forall r <- a + b :: r.coll.Acyclic()
    ensures forall r <- a :: r.coll.Acyclic()
    ensures forall r <- b :: r.coll.Acyclic()
    ensures DereferencePipeline(a + b) ==
      match DereferencePipeline(a)
      case Err(e) => Err(e)
      case Ok(x) => Prepend(x, DereferencePipeline(b))
  {
    assert forall r <- a :: r in a + b;
    assert forall r <- b :: r in a + b;
    if a == [] {
      assert a + b == b;
      PrependNil(DereferencePipeline(b));
    } else {
      assert (a + b)[0] == a[0] && (a + b)[1..] == a[1..] + b;
      assert forall r <- a[1..] + b :: r in a + b;
      assert forall r <- a[1..] :: r in a;
      PipelineAppend(a[1..], b);
      if RefStages(a[0]).Ok? && DereferencePipeline(a[1..]).Ok? {
        PrependPrepend(RefStages(a[0]).value, DereferencePipeline(a[1..]).value, DereferencePipeline(b));
      }
    }
  }

  /** The first stage index of the block of `refs[i]`. */
  function Offset(refs: seq<Ref>, i: nat): nat
    requires i <= |refs|
  {
    if i == 0 then 0 else BlockSize(refs[0]) + Offset(refs[1..], i - 1)
  }

  /** One stage group per reference, in declaration order: the stages of
      `refs[i]` occupy the slice starting at `Offset(refs, i)`. */
  lemma {:induction false} PipelineBlocks(refs: seq<Ref>, i: nat)
    requires forall r <- refs :: r.coll.Acyclic()
    requires DereferencePipeline(refs).Ok?
    requires i < |refs|
    ensures RefStages(refs[i]).Ok?
    ensures Offset(refs, i) + BlockSize(refs[i]) <= |DereferencePipeline(refs).value|
    ensures DereferencePipeline(refs).value[Offset(refs, i)..Offset(refs, i) + BlockSize(refs[i])] == RefStages(refs[i]).value
  {
    var head, tail := PipelineHead(refs);
    if i == 0 {
      SliceOfAppend(head, tail, 0, 0);
    } else {
      PipelineBlocks(refs[1..], i - 1);
      assert refs[1..][i - 1] == refs[i];
      var o, n := Offset(refs[1..], i - 1), BlockSize(refs[i]);
      assert Offset(refs, i) == |head| + o;
      assert tail[o..o + n] == RefStages(refs[i]).value;
      SliceOfAppend(head, tail, o, n);
    }
  }

  /** A non-empty pipeline is the block of the first reference followed by
      the pipeline of the others. */
  lemma PipelineHead(refs: seq<Ref>) returns (head: seq<Stage>, tail: seq<Stage>)
    requires forall r <- refs :: r.coll.Acyclic()
    requires DereferencePipeline(refs).Ok? && refs != []
    ensures forall r <- refs[1..] :: r.coll.Acyclic()
    ensures RefStages(refs[0]) == Ok(head) && |head| == BlockSize(refs[0])
    ensures DereferencePipeline(refs[1..]) == Ok(tail)
    ensures DereferencePipeline(refs).value == head + tail
  {
    assert forall r <- refs[1..] :: r in refs;
    head, tail := RefStages(refs[0]).value, DereferencePipeline(refs[1..]).value;
    RefStagesShape(refs[0]);
  }

  lemma SliceOfAppend<T>(a: seq<T>, b: seq<T>, o: nat, n: nat)
    requires o + n <= |b|
    ensures (a + b)[|a| + o..|a| + o + n] == b[o..o + n]
    ensures (a + b)[..|a|] == a
  {
  }

  /** The top level of a dereference pipeline holds only `$lookup`,
      `$addFields`, `$unwind` and `$set` stages, with `$lookup` first. */
  lemma {:induction false} PipelineStageKinds(refs: seq<Ref>)
    requires forall r <- refs :: r.coll.Acyclic()
    requires DereferencePipeline(refs).Ok?
    ensures var p := DereferencePipeline(refs).value;
      forall j :: 0 <= j < |p| ==> p[j].Lookup? || p[j].AddFields? || p[j].Unwind? || p[j].Set?
    ensures refs != [] ==> |DereferencePipeline(refs).value| > 0 && DereferencePipeline(refs).value[0].Lookup?
  {
    if refs != [] {
      var head, tail := PipelineHead(refs);
      PipelineStageKinds(refs[1..]);
      assert head[0].Lookup? && forall j :: 0 <= j < |head| ==> head[j].Lookup? || head[j].AddFields? || head[j].Unwind? || head[j].Set? by {
        RefStagesShape(refs[0]);
      }
      assert forall j :: |head| <= j < |head + tail| ==> (head + tail)[j] == tail[j - |head|];
    }
  }

  // ---------------------------------------------------------------------
  // get_reverse_references

  /** The pairs `(c, r)` for the references `r` among `refs` that point at
      `target`, in order. */
  function RefsTo(c: Collection, refs: seq<Ref>, target: Collection): seq<(Collection, Ref)>
  {
    if refs == [] then []
    else (if refs[0].coll == target then [(c, refs[0])] else []) + RefsTo(c, refs[1..], target)
  }

  /** The references to `target` declared by the collections `cs` other than
      `target`, in collection order and then declaration order. */
  function ScanReverse(cs: seq<Collection>, target: Collection): seq<(Collection, Ref)>
  {
    if cs == [] then []
    else
      var c := cs[|cs| - 1];
      ScanReverse(cs[..|cs| - 1], target) + (if c == target then [] else RefsTo(c, c.refs, target))
  }

  /** `get_reverse_references(coll)` as a value. */
  function ReverseReferences(coll: Collection): seq<(Collection, Ref)>
    requires coll.db.Valid()
    reads coll.db
  {
    ScanReverse(coll.db.Registered(), coll)
  }

  /** `get_reverse_references(coll)`: scan the registry of `coll`'s
      database, skipping `coll` itself. */
  method GetReverseReferences(coll: Collection) returns (revRefs: seq<(Collection, Ref)>)
    requires coll.db.Valid()
    ensures revRefs == ReverseReferences(coll)
  {
    var colls := coll.db.Registered();
    revRefs := [];
    for i := 0 to |colls|
      invariant revRefs == ScanReverse(colls[..i], coll)
    {
      ScanReverseStep(colls, i, coll);
      var c := colls[i];
      if c != coll {
        revRefs := AppendRefsTo(revRefs, c, coll);
      }
    }
    assert colls[..|colls|] == colls;
  }

  /** The inner loop of `get_reverse_references`: append `(c, ref)` for each
      reference of `c` to `coll`. */
  lemma ScanReverseStep(cs: seq<Collection>, i: nat, target: Collection)
    requires i < |cs|
    ensures ScanReverse(cs[..i + 1], target) ==
      ScanReverse(cs[..i], target) + (if cs[i] == target then [] else RefsTo(cs[i], cs[i].refs, target))
  {
    assert cs[..i + 1][..i] == cs[..i];
  }

  method AppendRefsTo(acc: seq<(Collection, Ref)>, c: Collection, coll: Collection) returns (revRefs: seq<(Collection, Ref)>)
    ensures revRefs == acc + RefsTo(c, c.refs, coll)
  {
    revRefs := acc;
    assert c.refs[0..] == c.refs;
    for j := 0 to |c.refs|
      invariant acc + RefsTo(c, c.refs, coll) == revRefs + RefsTo(c, c.refs[j..], coll)
    {
      assert c.refs[j..][0] == c.refs[j] && c.refs[j..][1..] == c.refs[j + 1..];
      var ref := c.refs[j];
      if ref.coll == coll {
        revRefs := revRefs + [(c, ref)];
      }
    }
    assert c.refs[|c.refs|..] == [];
  }

  lemma {:induction false} RefsToIff(c: Collection, refs: seq<Ref>, target: Collection, p: (Collection, Ref))
    ensures p in RefsTo(c, refs, target) <==> p.0 == c && p.1 in refs && p.1.coll == target
  {
    if refs != [] {
      RefsToIff(c, refs[1..], target, p);
      assert p.1 in refs <==> p.1 == refs[0] || p.1 in refs[1..];
    }
  }

  lemma {:induction false} ScanReverseIff(cs: seq<Collection>, target: Collection, p: (Collection, Ref))
    ensures p in ScanReverse(cs, target) <==> p.0 in cs && p.0 != target && p.1 in p.0.refs && p.1.coll == target
  {
    if cs != [] {
      var init, c := cs[..|cs| - 1], cs[|cs| - 1];
      ScanReverseIff(init, target, p);
      RefsToIff(c, c.refs, target, p);
      assert cs == init + [c];
      assert p.0 in cs <==> p.0 == c || p.0 in init;
    }
  }

  /** The reverse references of `coll` are exactly the pairs `(c, r)` of a
      collection `c` registered in `coll`'s database other than `coll`
      itself and a reference `r` of `c` to `coll`; so self-references are
      never returned. */
  lemma ReverseReferencesIff(coll: Collection, c: Collection, r: Ref)
    requires coll.db.Valid()
    ensures (c, r) in ReverseReferences(coll) <==>
      c in coll.db.Registered() && c != coll && r in c.refs && r.coll == coll
    ensures (coll, r) !in ReverseReferences(coll)
  {
    ScanReverseIff(coll.db.Registered(), coll, (c, r));
    ScanReverseIff(coll.db.Registered(), coll, (coll, r));
  }

  /** A collection that refers to `coll` and is registered next to it ranks
      above `coll`, is registered under its own name, and is acyclic. */
  lemma ReverseReferenceRanks(coll: Collection, p: (Collection, Ref))
    requires coll.db.Valid()
    requires p in ReverseReferences(coll)
    ensures p.0.db == coll.db && p.0.name in coll.db.colls && coll.db.colls[p.0.name] == p.0
    ensures p.0.Acyclic() && coll.rank < p.0.rank
    ensures p.1 in p.0.refs && p.1.coll == coll
  {
    ScanReverseIff(coll.db.Registered(), coll, p);
    var cs := coll.db.Registered();
    var i :| 0 <= i < |cs| && cs[i] == p.0;
    assert coll.db.colls[coll.db.names[i]] == p.0;
  }
}
