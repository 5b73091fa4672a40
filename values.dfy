/** Python values as the object-document mapper handles them: the documents
    produced by serialising a typed object, the typed objects themselves, and
    the exceptions the core can raise. */
module Values {

  datatype Option<+T> = None | Some(value: T)

  /** The exceptions the modelled code raises (it never catches any). */
  datatype Error =
    | KeyError(key: string)          // dict or model-field lookup of a missing key
    | AttributeError(name: string)   // getattr of a missing attribute
    | TypeError(what: string)        // iterating or subscripting a value of the wrong kind
    | DatabaseError(message: string) // the database is not connected

  /** A computation that returns a value or raises. */
  datatype Result<+T> = Ok(value: T) | Err(error: Error) {
    predicate IsFailure() { Err? }
    function PropagateFailure<U>(): Result<U>
      requires Err?
    {
      Err(error)
    }
    function Extract(): T
      requires Ok?
    {
      value
    }
  }

  function Need(condition: bool, error: Error): Result<()>
  {
    if condition then Ok(()) else Err(error)
  }

  /** `acc` followed by what `rest` computes; an exception in `rest` wins. */
  function Prepend<T>(acc: seq<T>, rest: Result<seq<T>>): Result<seq<T>>
  {
    match rest
    case Ok(tail) => Ok(acc + tail)
    case Err(e) => Err(e)
  }

  lemma PrependNil<T>(rest: Result<seq<T>>)
    ensures Prepend([], rest) == rest
  {
    if rest.Ok? {
      assert [] + rest.value == rest.value;
    }
  }

  /** `acc` then `more` then what `rest` computes. */
  lemma PrependPrepend<T>(acc: seq<T>, more: seq<T>, rest: Result<seq<T>>)
    ensures Prepend(acc, Prepend(more, rest)) == Prepend(acc + more, rest)
  {
    if rest.Ok? {
      assert acc + (more + rest.value) == (acc + more) + rest.value;
    }
  }

  /** What `first` computes followed by what `rest` computes; the first
      exception wins. */
  function Then<T>(first: Result<seq<T>>, rest: Result<seq<T>>): Result<seq<T>>
  {
    match first
    case Ok(xs) => Prepend(xs, rest)
    case Err(e) => Err(e)
  }

  /** A computation of one element, seen as one of a list. */
  function Singleton<T>(r: Result<T>): Result<seq<T>>
  {
    match r
    case Ok(x) => Ok([x])
    case Err(e) => Err(e)
  }

  lemma ThenAssoc<T>(a: Result<seq<T>>, b: Result<seq<T>>, c: Result<seq<T>>)
    ensures Then(Then(a, b), c) == Then(a, Then(b, c))
  {
    if a.Ok? && b.Ok? {
      PrependPrepend(a.value, b.value, c);
    }
  }

  /** The computations `rs` run one after the other, their lists joined. */
  function ThenAll<T>(rs: seq<Result<seq<T>>>): Result<seq<T>>
  {
    if rs == [] then Ok([]) else Then(rs[0], ThenAll(rs[1..]))
  }

  function Concat<T>(xss: seq<seq<T>>): seq<T>
  {
    if xss == [] then [] else xss[0] + Concat(xss[1..])
  }

  /** The lists that successful computations return. */
  function Outcomes<T>(rs: seq<Result<seq<T>>>): (xss: seq<seq<T>>)
    requires forall i :: 0 <= i < |rs| ==> rs[i].Ok?
    ensures |xss| == |rs|
    ensures forall i :: 0 <= i < |rs| ==> xss[i] == rs[i].value
  {
    if rs == [] then [] else [rs[0].value] + Outcomes(rs[1..])
  }

  /** A run of computations succeeds exactly when each one does, and then
      returns their lists in order; otherwise it raises the exception of
      the first one that fails. */
  lemma {:induction false} ThenAllSpec<T>(rs: seq<Result<seq<T>>>)
    ensures ThenAll(rs).Ok? <==> forall i :: 0 <= i < |rs| ==> rs[i].Ok?
    ensures ThenAll(rs).Ok? ==> ThenAll(rs).value == Concat(Outcomes(rs))
    ensures ThenAll(rs).Err? ==>
      exists i :: 0 <= i < |rs| && rs[i].Err? && ThenAll(rs).error == rs[i].error &&
        forall j :: 0 <= j < i ==> rs[j].Ok?
  {
    if rs != [] {
      ThenAllSpec(rs[1..]);
      assert forall i :: 1 <= i < |rs| ==> rs[1..][i - 1] == rs[i];
      if rs[0].Ok? && ThenAll(rs[1..]).Ok? {
        assert Outcomes(rs)[1..] == Outcomes(rs[1..]);
      }
      if rs[0].Ok? && ThenAll(rs[1..]).Err? {
        var i :| 0 <= i < |rs[1..]| && rs[1..][i].Err? && ThenAll(rs[1..]).error == rs[1..][i].error &&
          forall j :: 0 <= j < i ==> rs[1..][j].Ok?;
        assert rs[i + 1].Err? && forall j :: 0 <= j < i + 1 ==> rs[j].Ok?;
      }
    }
  }

  /** Where the list `xss[i]` starts within `Concat(xss)`. */
  function BlockStart<T>(xss: seq<seq<T>>, i: nat): nat
    requires i <= |xss|
  {
    |Concat(xss[..i])|
  }

  lemma {:induction false} ConcatAppend<T>(a: seq<seq<T>>, b: seq<seq<T>>)
    ensures Concat(a + b) == Concat(a) + Concat(b)
  {
    if a != [] {
      assert (a + b)[0] == a[0] && (a + b)[1..] == a[1..] + b;
      ConcatAppend(a[1..], b);
    } else {
      assert a + b == b;
    }
  }

  /** `xss[i]` occurs in `Concat(xss)` at `BlockStart(xss, i)`, and the
      blocks follow each other in order. */
  lemma ConcatBlock<T>(xss: seq<seq<T>>, i: nat)
    requires i < |xss|
    ensures BlockStart(xss, i + 1) == BlockStart(xss, i) + |xss[i]|
    ensures BlockStart(xss, i + 1) <= |Concat(xss)|
    ensures Concat(xss)[BlockStart(xss, i)..BlockStart(xss, i + 1)] == xss[i]
  {
    assert xss == xss[..i] + xss[i..];
    ConcatAppend(xss[..i], xss[i..]);
    assert xss[..i + 1] == xss[..i] + [xss[i]];
    ConcatAppend(xss[..i], [xss[i]]);
    assert Concat([xss[i]]) == xss[i] + Concat([]);
    assert Concat(xss[i..]) == xss[i] + Concat(xss[i + 1..]) by {
      assert xss[i..][0] == xss[i] && xss[i..][1..] == xss[i + 1..];
    }
  }

  /** The last element of a non-empty `xss[i]` is at the end of its block. */
  lemma ConcatBlockLast<T>(xss: seq<seq<T>>, i: nat)
    requires i < |xss| && xss[i] != []
    ensures BlockStart(xss, i) < BlockStart(xss, i + 1) <= |Concat(xss)|
    ensures Concat(xss)[BlockStart(xss, i + 1) - 1] == xss[i][|xss[i]| - 1]
  {
    ConcatBlock(xss, i);
    var s, e := BlockStart(xss, i), BlockStart(xss, i + 1);
    assert Concat(xss)[s..e][|xss[i]| - 1] == Concat(xss)[e - 1];
  }

  lemma {:induction false} BlockStartMono<T>(xss: seq<seq<T>>, i: nat, j: nat)
    requires i <= j <= |xss|
    ensures BlockStart(xss, i) <= BlockStart(xss, j)
    decreases j - i
  {
    if i < j {
      ConcatBlock(xss, i);
      BlockStartMono(xss, i + 1, j);
    }
  }

  /** `inner` occurs in `outer` as a contiguous run. */
  ghost predicate Block<T>(inner: seq<T>, outer: seq<T>)
  {
    exists s :: 0 <= s <= |outer| && |inner| <= |outer[s..]| && outer[s..][..|inner|] == inner
  }

  /** `inner` occurs in `outer` as a contiguous run that ends before the
      last element of `outer`. */
  ghost predicate BlockBeforeLast<T>(inner: seq<T>, outer: seq<T>)
  {
    exists s :: 0 <= s <= |outer| && |inner| < |outer[s..]| && outer[s..][..|inner|] == inner
  }

  /** `a` occurs in `xs` at an earlier position than `b`. */
  ghost predicate Precedes<T>(a: T, b: T, xs: seq<T>)
  {
    exists p, q :: 0 <= p < q < |xs| && xs[p] == a && xs[q] == b
  }

  lemma ConcatHasBlock<T>(xss: seq<seq<T>>, i: nat)
    requires i < |xss|
    ensures Block(xss[i], Concat(xss))
  {
    ConcatBlock(xss, i);
    var s := BlockStart(xss, i);
    assert Concat(xss)[s..][..|xss[i]|] == Concat(xss)[s..BlockStart(xss, i + 1)];
  }

  lemma BlockTrans<T>(a: seq<T>, b: seq<T>, c: seq<T>)
    requires Block(a, b) && Block(b, c)
    ensures Block(a, c)
  {
    var s :| 0 <= s <= |b| && |a| <= |b[s..]| && b[s..][..|a|] == a;
    var t :| 0 <= t <= |c| && |b| <= |c[t..]| && c[t..][..|b|] == b;
    assert c[t + s..][..|a|] == a by {
      forall k | 0 <= k < |a| ensures c[t + s..][k] == a[k] {
        assert a[k] == b[s + k] == c[t..][s + k];
      }
    }
  }

  lemma BlockBeforeLastTrans<T>(a: seq<T>, b: seq<T>, c: seq<T>)
    requires Block(a, b) && BlockBeforeLast(b, c)
    ensures BlockBeforeLast(a, c)
  {
    var s :| 0 <= s <= |b| && |a| <= |b[s..]| && b[s..][..|a|] == a;
    var t :| 0 <= t <= |c| && |b| < |c[t..]| && c[t..][..|b|] == b;
    assert c[t + s..][..|a|] == a by {
      forall k | 0 <= k < |a| ensures c[t + s..][k] == a[k] {
        assert a[k] == b[s + k] == c[t..][s + k];
      }
    }
  }

  lemma BlockBeforeLastOfPrefix<T>(a: seq<T>, b: seq<T>, x: T)
    requires Block(a, b)
    ensures BlockBeforeLast(a, b + [x])
  {
    var s :| 0 <= s <= |b| && |a| <= |b[s..]| && b[s..][..|a|] == a;
    assert (b + [x])[s..][..|a|] == b[s..][..|a|];
  }

  /** The end of a run that sits before the last element of `outer`
      precedes that last element. */
  lemma PrecedesLast<T>(inner: seq<T>, outer: seq<T>)
    requires inner != [] && BlockBeforeLast(inner, outer)
    ensures Precedes(inner[|inner| - 1], outer[|outer| - 1], outer)
  {
    var s :| 0 <= s <= |outer| && |inner| < |outer[s..]| && outer[s..][..|inner|] == inner;
    assert outer[s + |inner| - 1] == inner[|inner| - 1];
  }

  lemma PrecedesLift<T>(a: T, b: T, inner: seq<T>, outer: seq<T>)
    requires Precedes(a, b, inner) && Block(inner, outer)
    ensures Precedes(a, b, outer)
  {
    var p, q :| 0 <= p < q < |inner| && inner[p] == a && inner[q] == b;
    var s :| 0 <= s <= |outer| && |inner| <= |outer[s..]| && outer[s..][..|inner|] == inner;
    assert outer[s + p] == a && outer[s + q] == b;
  }

  lemma BeforeLastIsBlock<T>(a: seq<T>, b: seq<T>)
    requires BlockBeforeLast(a, b)
    ensures Block(a, b)
  {
  }

  /** A Python value. `Dict` is a plain dictionary (a serialised document),
      `Object` an instance of a typed model, whose attributes are `attrs`. */
  datatype Value =
    | Null
    | Bool(b: bool)
    | Int(i: int)
    | Str(s: string)
    | ObjectId(n: nat)
    | List(items: seq<Value>)
    | Dict(entries: map<string, Value>)
    | Object(attrs: map<string, Value>)

  /** `getattr(v, name)` */
  function GetAttr(v: Value, name: string): Result<Value>
  {
    if v.Object? && name in v.attrs then Ok(v.attrs[name]) else Err(AttributeError(name))
  }

  /** `setattr(v, name, x)` on a typed object, seen as a new value. */
  function SetAttr(v: Value, name: string, x: Value): Value
    requires v.Object?
  {
    Object(v.attrs[name := x])
  }

  /** The entries of a list that are not `None`, in order. */
  function NonNull(xs: seq<Value>): seq<Value>
  {
    if xs == [] then [] else (if xs[0] == Null then [] else [xs[0]]) + NonNull(xs[1..])
  }

  /** `NonNull(xs)` keeps, in order, exactly the entries that are not `None`:
      the order is `NonNullAppend`. */
  lemma {:induction false} NonNullSpec(xs: seq<Value>)
    ensures forall x :: x in NonNull(xs) <==> x in xs && x != Null
    ensures |NonNull(xs)| <= |xs|
    ensures (forall i :: 0 <= i < |xs| ==> xs[i] != Null) ==> NonNull(xs) == xs
  {
    if xs != [] {
      NonNullSpec(xs[1..]);
      assert xs == [xs[0]] + xs[1..];
    }
  }

  /** The filter keeps order: it works part by part on a concatenation
      (and `NonNullSingle` says what it does to one entry). */
  lemma {:induction false} NonNullAppend(a: seq<Value>, b: seq<Value>)
    ensures NonNull(a + b) == NonNull(a) + NonNull(b)
    decreases |a|
  {
    if a == [] {
      assert a + b == b;
    } else {
      NonNullAppend(a[1..], b);
      var h := if a[0] == Null then [] else [a[0]];
      assert (a + b)[0] == a[0] && (a + b)[1..] == a[1..] + b;
      assert NonNull(a + b) == h + (NonNull(a[1..]) + NonNull(b));
      assert NonNull(a) == h + NonNull(a[1..]);
    }
  }

  /** A single entry is kept exactly when it is not `None`. */
  lemma NonNullSingle(x: Value)
    ensures NonNull([x]) == if x == Null then [] else [x]
  {
    assert [x][1..] == [];
  }

  /** The one-character strings of `s`, in order: what iterating a `str`
      yields. */
  function Chars(s: string): (r: seq<Value>)
    ensures |r| == |s|
    ensures forall k :: 0 <= k < |s| ==> r[k] == Str([s[k]])
  {
    if s == [] then [] else [Str([s[0]])] + Chars(s[1..])
  }

  /** `for x in v`: a list yields its items, a string its characters, and a
      dict or model without entries yields nothing; `None` and the scalars
      are not iterable.  A non-empty dict or model yields its keys (or its
      field pairs) in insertion order, which a map does not record, so the
      model stops there with an error of its own. */
  function Iterate(v: Value): (r: Result<seq<Value>>)
    ensures r.Ok? <==> v.List? || v.Str? || v == Dict(map[]) || v == Object(map[])
    ensures v.List? ==> r == Ok(v.items)
    ensures v.Str? ==> r == Ok(Chars(v.s))
    ensures v == Dict(map[]) || v == Object(map[]) ==> r == Ok([])
    ensures v.Null? || v.Bool? || v.Int? || v.ObjectId? ==> r == Err(TypeError("not iterable"))
  {
    match v
    case List(xs) => Ok(xs)
    case Str(s) => Ok(Chars(s))
    case Dict(m) => if m == map[] then Ok([]) else Err(TypeError("dict iteration order"))
    case Object(m) => if m == map[] then Ok([]) else Err(TypeError("model iteration order"))
    case _ => Err(TypeError("not iterable"))
  }

  // ---------------------------------------------------------------------
  // Height of a value: the termination measure for walking a finite object
  // graph (each referenced object sits strictly inside its referrer).

  ghost function Height(v: Value): nat
    decreases v, 1
  {
    match v
    case List(xs) => 1 + MaxHeight(xs)
    case Dict(m) => 1 + MaxHeightOf(v, m.Keys)
    case Object(m) => 1 + MaxHeightOf(v, m.Keys)
    case _ => 0
  }

  ghost function MaxHeight(xs: seq<Value>): nat
    decreases xs
  {
    if xs == [] then 0
    else
      var h := Height(xs[0]);
      var t := MaxHeight(xs[1..]);
      if h < t then t else h
  }

  /** The largest height among the entries of `v` under the keys `ks`. */
  ghost function MaxHeightOf(v: Value, ks: set<string>): nat
    requires v.Dict? || v.Object?
    requires ks <= (if v.Dict? then v.entries.Keys else v.attrs.Keys)
    decreases v, 0, ks
  {
    if ks == {} then 0
    else
      var k :| k in ks;
      var h := Height(if v.Dict? then v.entries[k] else v.attrs[k]);
      var t := MaxHeightOf(v, ks - {k});
      if h < t then t else h
  }

  lemma {:induction false} MaxHeightOfAbove(v: Value, ks: set<string>, k: string)
    requires v.Object? && ks <= v.attrs.Keys && k in ks
    ensures Height(v.attrs[k]) <= MaxHeightOf(v, ks)
    decreases ks
  {
    var k' :| k' in ks && MaxHeightOf(v, ks) == (
      var h := Height(v.attrs[k']);
      var t := MaxHeightOf(v, ks - {k'});
      if h < t then t else h);
    if k != k' {
      MaxHeightOfAbove(v, ks - {k'}, k);
    }
  }

  /** An attribute of a typed object is lower than the object. */
  lemma HeightOfAttr(v: Value, name: string)
    requires v.Object? && name in v.attrs
    ensures Height(v.attrs[name]) < Height(v)
  {
    MaxHeightOfAbove(v, v.attrs.Keys, name);
  }

  lemma {:induction false} MaxHeightAbove(xs: seq<Value>, i: nat)
    requires i < |xs|
    ensures Height(xs[i]) <= MaxHeight(xs)
  {
    if i > 0 {
      MaxHeightAbove(xs[1..], i - 1);
    }
  }

  lemma {:induction false} MaxHeightNonNull(xs: seq<Value>)
    ensures MaxHeight(NonNull(xs)) <= MaxHeight(xs)
  {
    if xs != [] {
      MaxHeightNonNull(xs[1..]);
      assert NonNull(xs) == (if xs[0] == Null then [] else [xs[0]]) + NonNull(xs[1..]);
      if xs[0] != Null {
        var ys := NonNull(xs);
        assert ys[0] == xs[0] && ys[1..] == NonNull(xs[1..]);
        assert MaxHeight(ys) == (var h := Height(ys[0]); var t := MaxHeight(ys[1..]); if h < t then t else h);
      } else {
        assert NonNull(xs) == NonNull(xs[1..]);
      }
      assert MaxHeight(xs[1..]) <= MaxHeight(xs);
    }
  }

  lemma {:induction false} MaxHeightBelow(xs: seq<Value>, bound: nat)
    requires forall i :: 0 <= i < |xs| ==> Height(xs[i]) < bound
    ensures MaxHeight(xs) < bound || (xs == [] && bound == 0)
  {
    if xs != [] {
      MaxHeightBelow(xs[1..], bound);
    }
  }

  // ---------------------------------------------------------------------
  // Dictionary literals used throughout.

  /** The filter `{"_id": id}` that selects a document by primary key. */
  const MONGO_ID := "_id"

  function ById(id: Value): map<string, Value>
  {
    map[MONGO_ID := id]
  }

  /** A Python string consisting of the ASCII lower-case of `s` (`str.lower`
      on ASCII text). */
  function Lower(s: string): (r: string)
    ensures |r| == |s|
    ensures forall i :: 0 <= i < |s| ==>
      r[i] == (if 'A' <= s[i] <= 'Z' then (s[i] as int + 32) as char else s[i])
  {
    if s == [] then []
    else [if 'A' <= s[0] <= 'Z' then (s[0] as int + 32) as char else s[0]] + Lower(s[1..])
  }
}
