/** The query and sort builders of mongo_om/db/expresions.py: `Query` with its
    `&`, `|` and `~` combinators and one constructor per comparison operator,
    the keyword parser `Q`, and `Sort` with `|`, `asc` and `desc`. */
module Expressions {
  import opened Values

  // ---------------------------------------------------------------------
  // Query

  /** A query document. `Query` is a `dict` subclass; the empty dict is the
      empty query, which is falsy and so acts as the identity of `&` and `|`. */
  type Query = map<string, Value>

  /** `q & other` */
  function And(q: Query, other: Query): Query
  {
    if other == map[] then q
    else if q == map[] then other
    else map["$and" := List([Dict(q), Dict(other)])]
  }

  /** `q | other` */
  function Or(q: Query, other: Query): Query
  {
    if other == map[] then q
    else if q == map[] then other
    else map["$or" := List([Dict(q), Dict(other)])]
  }

  /** `~q` */
  function Not(q: Query): Query
  {
    map["$not" := Dict(q)]
  }

  /** The conjuncts a query stands for: the query documents that a tree of
      `$and` nodes built by `And` combines, left to right. This is the
      reference reading of `And`. */
  function Conjuncts(q: Query): seq<Query>
    decreases Dict(q)
  {
    if q == map[] then []
    else if IsPair(q, "$and") then
      Conjuncts(q["$and"].items[0].entries) + Conjuncts(q["$and"].items[1].entries)
    else [q]
  }

  /** The disjuncts a query stands for (the reference reading of `Or`). */
  function Disjuncts(q: Query): seq<Query>
    decreases Dict(q)
  {
    if q == map[] then []
    else if IsPair(q, "$or") then
      Disjuncts(q["$or"].items[0].entries) + Disjuncts(q["$or"].items[1].entries)
    else [q]
  }

  /** `q` is `{key: [a, b]}` for two query documents `a` and `b`. */
  predicate IsPair(q: Query, key: string)
  {
    && q.Keys == {key}
    && q[key].List? && |q[key].items| == 2
    && q[key].items[0].Dict? && q[key].items[1].Dict?
    && q[key].items[0].entries != map[] && q[key].items[1].entries != map[]
  }

  /** `&` is concatenation of conjuncts, with the empty query as identity. */
  lemma AndConjuncts(a: Query, b: Query)
    ensures Conjuncts(And(a, b)) == Conjuncts(a) + Conjuncts(b)
    ensures And(a, map[]) == a && And(map[], b) == b
  {
  }

  /** `|` is concatenation of disjuncts, with the empty query as identity. */
  lemma OrDisjuncts(a: Query, b: Query)
    ensures Disjuncts(Or(a, b)) == Disjuncts(a) + Disjuncts(b)
    ensures Or(a, map[]) == a && Or(map[], b) == b
  {
  }

  /** A query has no conjuncts exactly when it is empty, and no conjunct is
      empty. */
  lemma {:induction false} ConjunctsNonEmpty(q: Query)
    ensures Conjuncts(q) == [] <==> q == map[]
    ensures forall i :: 0 <= i < |Conjuncts(q)| ==> Conjuncts(q)[i] != map[]
    decreases Dict(q)
  {
    if q != map[] && IsPair(q, "$and") {
      var a, b := q["$and"].items[0].entries, q["$and"].items[1].entries;
      ConjunctsNonEmpty(a);
      ConjunctsNonEmpty(b);
    }
  }

  /** `~q` wraps `q` even when `q` is empty, so it is never empty and `q` can
      be read back from it. */
  lemma NotWraps(q: Query, r: Query)
    ensures Not(q) != map[]
    ensures Not(q)["$not"].entries == q
    ensures Not(q) == Not(r) ==> q == r
  {
    assert "$not" in Not(q);
    if Not(q) == Not(r) {
      assert Not(q)["$not"] == Not(r)["$not"];
    }
  }

  // ---------------------------------------------------------------------
  // Operator constructors `Query._eq` .. `Query._regex`

  datatype Operator = Eq | Ne | Gt | Gte | Lt | Lte | In | Nin | Regex

  /** The name of the class method is "_" followed by this token; the
      query operator is "$" followed by it. */
  function Token(op: Operator): string
  {
    match op
    case Eq => "eq"
    case Ne => "ne"
    case Gt => "gt"
    case Gte => "gte"
    case Lt => "lt"
    case Lte => "lte"
    case In => "in"
    case Nin => "nin"
    case Regex => "regex"
  }

  /** `Query._<op>(field, value)`: `{field: {"$<op>": value}}` */
  function OperatorQuery(op: Operator, field: string, value: Value): Query
  {
    map[field := Dict(map["$" + Token(op) := value])]
  }

  /** `getattr(Query, f"_{name}")` for the comparison operators. */
  function LookupOperator(name: string): (r: Result<Operator>)
    ensures r.Ok? ==> Token(r.value) == name
    ensures r.Err? ==> r.error == AttributeError("_" + name)
  {
    match name
    case "eq" => Ok(Eq)
    case "ne" => Ok(Ne)
    case "gt" => Ok(Gt)
    case "gte" => Ok(Gte)
    case "lt" => Ok(Lt)
    case "lte" => Ok(Lte)
    case "in" => Ok(In)
    case "nin" => Ok(Nin)
    case "regex" => Ok(Regex)
    case _ => Err(AttributeError("_" + name))
  }

  /** Every operator is found under its own token, so the nine class methods
      are exactly the operators `Q` accepts. */
  lemma LookupToken(op: Operator)
    ensures LookupOperator(Token(op)) == Ok(op)
  {
  }

  /** Each operator constructor builds a one-key query whose only value is a
      one-key document naming the operator. */
  lemma OperatorQueryShape(op: Operator, field: string, value: Value)
    ensures OperatorQuery(op, field, value).Keys == {field}
    ensures OperatorQuery(op, field, value)[field].Dict?
    ensures OperatorQuery(op, field, value)[field].entries.Keys == {"$" + Token(op)}
    ensures OperatorQuery(op, field, value)[field].entries["$" + Token(op)] == value
    ensures Conjuncts(OperatorQuery(op, field, value)) == [OperatorQuery(op, field, value)]
  {
    var q := OperatorQuery(op, field, value);
    assert field in q;
    assert !IsPair(q, "$and");
  }

  // ---------------------------------------------------------------------
  // `str.split` and `str.join`

  /** `s.split(sep)`: cut at each leftmost, non-overlapping occurrence. */
  function Split(s: string, sep: string): (r: seq<string>)
    requires |sep| > 0
    ensures |r| >= 1
    decreases |s|
  {
    if |sep| <= |s| && s[..|sep|] == sep then [""] + Split(s[|sep|..], sep)
    else if s == [] then [""]
    else
      var rest := Split(s[1..], sep);
      [[s[0]] + rest[0]] + rest[1..]
  }

  /** `sep` occurs in `t` starting at index `i`. */
  predicate OccursAt(t: string, sep: string, i: int)
  {
    0 <= i && i + |sep| <= |t| && t[i..i + |sep|] == sep
  }

  /** The first piece of a split is where `s` starts, and when a cut follows
      it, the separator comes next. */
  lemma {:induction false} SplitHead(s: string, sep: string)
    requires |sep| > 0
    ensures var r := Split(s, sep);
      && |r[0]| <= |s| && r[0] == s[..|r[0]|]
      && (|r| > 1 ==> |r[0]| + |sep| <= |s| && s[|r[0]|..|r[0]| + |sep|] == sep)
    decreases |s|
  {
    if |sep| <= |s| && s[..|sep|] == sep {
    } else if s != [] {
      SplitHead(s[1..], sep);
      var rest := Split(s[1..], sep);
      assert Split(s, sep)[0] == [s[0]] + rest[0];
      if |rest| > 1 {
        assert s[1..][|rest[0]|..|rest[0]| + |sep|] == s[|rest[0]| + 1..|rest[0]| + 1 + |sep|];
      }
    }
  }

  /** `str.split` cuts at leftmost occurrences: no piece contains the
      separator, and none occurs in a piece followed by the separator before
      the cut. */
  lemma {:induction false} SplitPieces(s: string, sep: string)
    requires |sep| > 0
    ensures forall k, i :: 0 <= k < |Split(s, sep)| ==> !OccursAt(Split(s, sep)[k], sep, i)
    ensures forall k, i :: 0 <= k < |Split(s, sep)| - 1 && i < |Split(s, sep)[k]| ==>
      !OccursAt(Split(s, sep)[k] + sep, sep, i)
    decreases |s|
  {
    var r := Split(s, sep);
    if |sep| <= |s| && s[..|sep|] == sep {
      SplitPieces(s[|sep|..], sep);
      assert r[1..] == Split(s[|sep|..], sep);
    } else if s != [] {
      var rest := Split(s[1..], sep);
      SplitPieces(s[1..], sep);
      SplitHead(s, sep);
      assert r[0] == [s[0]] + rest[0] && r[0][1..] == rest[0];
      NoOccurCons(s, r[0], sep);
      if |r| > 1 {
        NoOccurConsSep(s, r[0], sep);
      }
      assert r[1..] == rest[1..];
    }
  }

  /** A prefix `t` of `s`, where `s` does not start with the separator,
      contains the separator only where its tail `t[1..]` does. */
  lemma NoOccurCons(s: string, t: string, sep: string)
    requires 0 < |sep| && t != [] && |t| <= |s| && t == s[..|t|]
    requires !(|sep| <= |s| && s[..|sep|] == sep)
    requires forall i :: !OccursAt(t[1..], sep, i)
    ensures forall i :: !OccursAt(t, sep, i)
  {
    forall i
      ensures !OccursAt(t, sep, i)
    {
      if i == 0 && |sep| <= |t| {
        assert t[..|sep|] == s[..|sep|];
      } else if 1 <= i && i + |sep| <= |t| {
        var u := t[1..];
        var x, y := t[i..i + |sep|], u[i - 1..i - 1 + |sep|];
        forall j | 0 <= j < |sep|
          ensures x[j] == y[j]
        {
          assert u[i - 1 + j] == t[i + j];
        }
        assert x == y;
        assert !OccursAt(u, sep, i - 1);
      }
    }
  }

  /** The same for a prefix `t` of `s` followed in `s` by the separator,
      looking at occurrences that start inside `t`. */
  lemma NoOccurConsSep(s: string, t: string, sep: string)
    requires 0 < |sep| && t != [] && |t| + |sep| <= |s| && t == s[..|t|] && s[|t|..|t| + |sep|] == sep
    requires !(|sep| <= |s| && s[..|sep|] == sep)
    requires forall i :: i < |t| - 1 ==> !OccursAt(t[1..] + sep, sep, i)
    ensures forall i :: i < |t| ==> !OccursAt(t + sep, sep, i)
  {
    forall i | i < |t|
      ensures !OccursAt(t + sep, sep, i)
    {
      if i == 0 {
        assert s[..|t| + |sep|] == t + sep;
        assert (t + sep)[..|sep|] == s[..|sep|];
      } else if 1 <= i {
        assert (t + sep)[i..i + |sep|] == (t[1..] + sep)[i - 1..i - 1 + |sep|];
        assert !OccursAt(t[1..] + sep, sep, i - 1);
      }
    }
  }

  /** `sep.join(parts)` */
  function Join(parts: seq<string>, sep: string): string
  {
    if parts == [] then ""
    else if |parts| == 1 then parts[0]
    else parts[0] + sep + Join(parts[1..], sep)
  }

  /** Joining the pieces of a split with the same separator gives back the
      string. */
  lemma {:induction false} JoinSplit(s: string, sep: string)
    requires |sep| > 0
    ensures Join(Split(s, sep), sep) == s
    decreases |s|
  {
    if |sep| <= |s| && s[..|sep|] == sep {
      JoinSplit(s[|sep|..], sep);
      JoinSplitSep(s, sep);
    } else if s != [] {
      JoinSplit(s[1..], sep);
      JoinSplitChar(s, sep);
    }
  }

  /** The step of `JoinSplit` where `s` starts with the separator. */
  lemma JoinSplitSep(s: string, sep: string)
    requires 0 < |sep| <= |s| && s[..|sep|] == sep
    requires Join(Split(s[|sep|..], sep), sep) == s[|sep|..]
    ensures Join(Split(s, sep), sep) == s
  {
    var t := s[|sep|..];
    var rest := Split(t, sep);
    assert Split(s, sep) == [""] + rest;
    JoinCons("", rest, sep);
    SliceSplit(s, |sep|);
    assert "" + sep == sep;
  }

  /** The step of `JoinSplit` where `s` starts with any other character. */
  lemma JoinSplitChar(s: string, sep: string)
    requires |sep| > 0 && s != [] && !(|sep| <= |s| && s[..|sep|] == sep)
    requires Join(Split(s[1..], sep), sep) == s[1..]
    ensures Join(Split(s, sep), sep) == s
  {
    var rest := Split(s[1..], sep);
    assert Split(s, sep) == [[s[0]] + rest[0]] + rest[1..];
    JoinHead(s[0], rest, sep);
    SliceSplit(s, 1);
    assert s[..1] == [s[0]];
  }

  lemma SliceSplit<T>(s: seq<T>, i: nat)
    requires i <= |s|
    ensures s == s[..i] + s[i..]
  {
  }

  lemma JoinCons(p: string, parts: seq<string>, sep: string)
    requires |parts| >= 1
    ensures Join([p] + parts, sep) == p + sep + Join(parts, sep)
  {
    assert ([p] + parts)[1..] == parts;
  }

  lemma JoinHead(c: char, parts: seq<string>, sep: string)
    requires |parts| >= 1
    ensures Join([[c] + parts[0]] + parts[1..], sep) == [c] + Join(parts, sep)
  {
    var ps := [[c] + parts[0]] + parts[1..];
    assert ps[1..] == parts[1..];
  }

  // ---------------------------------------------------------------------
  // Q

  /** The query for one keyword argument `key=value` of `Q`: the key is split
      on "__", the last token names the operator and the others, joined with
      ".", form the field path. */
  function KeywordQuery(key: string, value: Value): Result<Query>
  {
    var tokens := Split(key, "__");
    var op :- LookupOperator(tokens[|tokens| - 1]);
    Ok(OperatorQuery(op, Join(tokens[..|tokens| - 1], "."), value))
  }

  /** `Q(**kwargs)`, keywords in call order: `q = q & op(field, val)` for each
      keyword, starting from the empty query. */
  function Q(kwargs: seq<(string, Value)>): Result<Query>
  {
    if kwargs == [] then Ok(map[])
    else
      var q :- Q(kwargs[..|kwargs| - 1]);
      var last := kwargs[|kwargs| - 1];
      var p :- KeywordQuery(last.0, last.1);
      Ok(And(q, p))
  }

  /** A keyword's query is `{path: {"$" + token: value}}` for the key's own
      last token; an unknown token raises `AttributeError`. */
  lemma KeywordQueryParts(key: string, value: Value)
    ensures var tokens := Split(key, "__");
            var last := tokens[|tokens| - 1];
            KeywordQuery(key, value) ==
              if LookupOperator(last).Err? then Err(AttributeError("_" + last))
              else Ok(map[Join(tokens[..|tokens| - 1], ".") := Dict(map["$" + last := value])])
  {
  }

  /** `Q` fails exactly when some keyword names an unknown operator. */
  lemma {:induction false} QErrors(kwargs: seq<(string, Value)>)
    ensures Q(kwargs).Ok? <==> forall i :: 0 <= i < |kwargs| ==> KeywordQuery(kwargs[i].0, kwargs[i].1).Ok?
    decreases |kwargs|
  {
    if kwargs != [] {
      var n := |kwargs|;
      var init := kwargs[..n - 1];
      QErrors(init);
      assert forall i :: 0 <= i < n - 1 ==> init[i] == kwargs[i];
      var last := KeywordQuery(kwargs[n - 1].0, kwargs[n - 1].1);
      assert Q(kwargs).Ok? <==> Q(init).Ok? && last.Ok? by {
        QStep(kwargs);
      }
      if forall i :: 0 <= i < n ==> KeywordQuery(kwargs[i].0, kwargs[i].1).Ok? {
        assert forall i :: 0 <= i < n - 1 ==> KeywordQuery(init[i].0, init[i].1).Ok?;
      }
    }
  }

  /** One keyword more: `q & op(field, val)` once both sides exist. */
  lemma QStep(kwargs: seq<(string, Value)>)
    requires kwargs != []
    ensures
      var init, last := Q(kwargs[..|kwargs| - 1]), KeywordQuery(kwargs[|kwargs| - 1].0, kwargs[|kwargs| - 1].1);
      Q(kwargs) == if init.Err? then Err(init.error) else if last.Err? then Err(last.error) else Ok(And(init.value, last.value))
  {
  }

  /** When `Q` fails, it fails with the error of the first keyword that
      names an unknown operator. */
  lemma {:induction false} QFirstError(kwargs: seq<(string, Value)>) returns (i: nat)
    requires Q(kwargs).Err?
    ensures i < |kwargs| && Q(kwargs) == KeywordQuery(kwargs[i].0, kwargs[i].1)
    ensures forall j :: 0 <= j < i ==> KeywordQuery(kwargs[j].0, kwargs[j].1).Ok?
    decreases |kwargs|
  {
    var n := |kwargs|;
    var init := kwargs[..n - 1];
    assert forall j :: 0 <= j < n - 1 ==> init[j] == kwargs[j];
    QStep(kwargs);
    if Q(init).Err? {
      i := QFirstError(init);
      assert Q(kwargs) == Q(init);
    } else {
      assert Q(init).Ok? && Q(kwargs) == KeywordQuery(kwargs[n - 1].0, kwargs[n - 1].1);
      QErrors(init);
      i := n - 1;
    }
  }

  /** When `Q` succeeds its conjuncts are the keywords' operator queries in
      call order: none for no keyword, the bare operator query for one, a
      left-nested `$and` for several. */
  lemma {:induction false} QConjuncts(kwargs: seq<(string, Value)>)
    requires Q(kwargs).Ok?
    ensures |Conjuncts(Q(kwargs).value)| == |kwargs|
    ensures forall i :: 0 <= i < |kwargs| ==>
      KeywordQuery(kwargs[i].0, kwargs[i].1) == Ok(Conjuncts(Q(kwargs).value)[i])
    decreases |kwargs|
  {
    if kwargs != [] {
      var n := |kwargs|;
      var init := kwargs[..n - 1];
      var last := kwargs[n - 1];
      var q := Q(init).value;
      var p := KeywordQuery(last.0, last.1).value;
      assert Q(kwargs).value == And(q, p);
      QConjuncts(init);
      AndConjuncts(q, p);
      KeywordConjunct(last.0, last.1);
      var cs := Conjuncts(Q(kwargs).value);
      assert cs == Conjuncts(q) + [p];
      forall i | 0 <= i < n
        ensures KeywordQuery(kwargs[i].0, kwargs[i].1) == Ok(cs[i])
      {
        if i < n - 1 {
          assert init[i] == kwargs[i];
        }
      }
    }
  }

  lemma KeywordConjunct(key: string, value: Value)
    requires KeywordQuery(key, value).Ok?
    ensures Conjuncts(KeywordQuery(key, value).value) == [KeywordQuery(key, value).value]
  {
    var tokens := Split(key, "__");
    var op := LookupOperator(tokens[|tokens| - 1]).value;
    OperatorQueryShape(op, Join(tokens[..|tokens| - 1], "."), value);
  }

  // ---------------------------------------------------------------------
  // Sort

  /** A sort specification: a `dict` from field to 1 or -1, whose items keep
      their insertion order. */
  datatype Sort = Sort(items: seq<(string, int)>)

  function Keys(items: seq<(string, int)>): seq<string>
  {
    if items == [] then [] else [items[0].0] + Keys(items[1..])
  }

  /** The value stored under `k`, if any. */
  function Get(items: seq<(string, int)>, k: string): Option<int>
  {
    if items == [] then None
    else if items[0].0 == k then Some(items[0].1)
    else Get(items[1..], k)
  }

  /** The items of a Python dict: no key occurs twice. */
  ghost predicate WellFormed(items: seq<(string, int)>)
  {
    forall i, j :: 0 <= i < j < |items| ==> items[i].0 != items[j].0
  }

  /** `d[k] = v`: an existing key keeps its position, a new one goes last. */
  function Put(items: seq<(string, int)>, k: string, v: int): seq<(string, int)>
  {
    if items == [] then [(k, v)]
    else if items[0].0 == k then [(k, v)] + items[1..]
    else [items[0]] + Put(items[1..], k, v)
  }

  /** Insert `more` into `items`, one item after the other. */
  function PutAll(items: seq<(string, int)>, more: seq<(string, int)>): seq<(string, int)>
    decreases |more|
  {
    if more == [] then items else PutAll(Put(items, more[0].0, more[0].1), more[1..])
  }

  /** `s | other`: the empty sort is an identity on either side; otherwise
      `{**s, **other}`. */
  function Union(s: Sort, other: Sort): Sort
  {
    if other.items == [] then s
    else if s.items == [] then other
    else Sort(PutAll(PutAll([], s.items), other.items))
  }

  /** `Sort._asc(field)` (direction 1) and `Sort._desc(field)` (direction -1). */
  function One(field: string, direction: int): Sort
  {
    Sort([(field, direction)])
  }

  /** The loop shared by `asc` and `desc`: `s = s | One(f, direction)` for
      each field, starting from the empty sort. */
  function Directed(fields: seq<string>, direction: int): Sort
  {
    if fields == [] then Sort([])
    else Union(Directed(fields[..|fields| - 1], direction), One(fields[|fields| - 1], direction))
  }

  /** `asc(*fields)` */
  function Asc(fields: seq<string>): Sort
  {
    Directed(fields, 1)
  }

  /** `desc(*fields)` */
  function Desc(fields: seq<string>): Sort
  {
    Directed(fields, -1)
  }

  /** The fields in order of first occurrence (the reference key order). */
  function Dedup(fields: seq<string>): seq<string>
  {
    if fields == [] then []
    else
      var d := Dedup(fields[..|fields| - 1]);
      var f := fields[|fields| - 1];
      if f in d then d else d + [f]
  }

  /** The keys of `b` that are not in `a`, in `b`'s order. */
  function NewKeys(a: seq<string>, b: seq<string>): seq<string>
  {
    if b == [] then [] else (if b[0] in a then [] else [b[0]]) + NewKeys(a, b[1..])
  }

  lemma {:induction false} KeysIn(items: seq<(string, int)>, k: string)
    ensures k in Keys(items) <==> Get(items, k).Some?
    ensures |Keys(items)| == |items|
    ensures forall i :: 0 <= i < |items| ==> Keys(items)[i] == items[i].0
  {
    if items != [] {
      KeysIn(items[1..], k);
    }
  }

  /** In a dictionary the first key does not occur again. */
  lemma HeadNotInTail(items: seq<(string, int)>)
    requires items != [] && WellFormed(items)
    ensures WellFormed(items[1..])
    ensures items[0].0 !in Keys(items[1..])
    ensures Get(items[1..], items[0].0) == None
  {
    KeysIn(items[1..], items[0].0);
    forall m | 0 <= m < |items| - 1
      ensures Keys(items[1..])[m] != items[0].0
    {
      assert items[1..][m] == items[m + 1];
    }
  }

  /** `d[k] = v` keeps a dictionary a dictionary, appends `k` to the keys
      when it is new and changes only the value under `k`. */
  lemma PutSpec(items: seq<(string, int)>, k: string, v: int)
    requires WellFormed(items)
    ensures WellFormed(Put(items, k, v))
    ensures Keys(Put(items, k, v)) == Keys(items) + (if k in Keys(items) then [] else [k])
    ensures forall x :: Get(Put(items, k, v), x) == if x == k then Some(v) else Get(items, x)
  {
    PutKeys(items, k, v);
    PutGet(items, k, v);
    PutWellFormed(items, k, v);
  }

  lemma {:induction false} PutKeys(items: seq<(string, int)>, k: string, v: int)
    ensures Keys(Put(items, k, v)) == Keys(items) + (if k in Keys(items) then [] else [k])
  {
    if items != [] {
      var r := Put(items, k, v);
      if items[0].0 != k {
        PutKeys(items[1..], k, v);
        var t := Put(items[1..], k, v);
        assert r == [items[0]] + t && r[1..] == t;
        assert Keys(items) == [items[0].0] + Keys(items[1..]);
      } else {
        assert r[1..] == items[1..];
      }
    }
  }

  lemma {:induction false} PutGet(items: seq<(string, int)>, k: string, v: int)
    ensures forall x :: Get(Put(items, k, v), x) == if x == k then Some(v) else Get(items, x)
  {
    if items != [] {
      var r := Put(items, k, v);
      if items[0].0 != k {
        PutGet(items[1..], k, v);
        assert r[0] == items[0] && r[1..] == Put(items[1..], k, v);
      } else {
        assert r[0] == (k, v) && r[1..] == items[1..];
      }
    }
  }

  lemma {:induction false} PutWellFormed(items: seq<(string, int)>, k: string, v: int)
    requires WellFormed(items)
    ensures WellFormed(Put(items, k, v))
  {
    if items != [] {
      HeadNotInTail(items);
      var r := Put(items, k, v);
      if items[0].0 != k {
        PutWellFormed(items[1..], k, v);
        var t := Put(items[1..], k, v);
        assert r == [items[0]] + t;
        PutKeys(items[1..], k, v);
        KeysIn(t, items[0].0);
        assert items[0].0 !in Keys(t);
        forall i, j | 0 <= i < j < |r| ensures r[i].0 != r[j].0 {
          if i == 0 {
            assert r[j] == t[j - 1];
            assert Keys(t)[j - 1] == t[j - 1].0;
          } else {
            assert r[i] == t[i - 1] && r[j] == t[j - 1];
          }
        }
      } else {
        forall i, j | 0 <= i < j < |r| ensures r[i].0 != r[j].0 {
          assert r[j] == items[j];
          if i > 0 {
            assert r[i] == items[i];
          }
        }
      }
    }
  }

  lemma {:induction false} NewKeysExtend(a: seq<string>, k: string, b: seq<string>)
    requires k !in b
    ensures NewKeys(a + [k], b) == NewKeys(a, b)
  {
    if b != [] {
      NewKeysExtend(a, k, b[1..]);
    }
  }

  lemma {:induction false} NewKeysEmpty(b: seq<string>)
    ensures NewKeys([], b) == b
  {
    if b != [] {
      NewKeysEmpty(b[1..]);
    }
  }

  /** Inserting the items of a dictionary `more` one by one: the new keys
      come last in `more`'s order, and `more`'s values win. */
  lemma PutAllSpec(items: seq<(string, int)>, more: seq<(string, int)>)
    requires WellFormed(items) && WellFormed(more)
    ensures WellFormed(PutAll(items, more))
    ensures Keys(PutAll(items, more)) == Keys(items) + NewKeys(Keys(items), Keys(more))
    ensures forall x :: Get(PutAll(items, more), x) == if Get(more, x).Some? then Get(more, x) else Get(items, x)
  {
    PutAllWellFormed(items, more);
    PutAllKeys(items, more);
    PutAllGet(items, more);
  }

  lemma {:induction false} PutAllWellFormed(items: seq<(string, int)>, more: seq<(string, int)>)
    requires WellFormed(items)
    ensures WellFormed(PutAll(items, more))
    decreases |more|
  {
    if more != [] {
      PutWellFormed(items, more[0].0, more[0].1);
      PutAllWellFormed(Put(items, more[0].0, more[0].1), more[1..]);
    }
  }

  lemma {:induction false} PutAllKeys(items: seq<(string, int)>, more: seq<(string, int)>)
    requires WellFormed(more)
    ensures Keys(PutAll(items, more)) == Keys(items) + NewKeys(Keys(items), Keys(more))
    decreases |more|
  {
    if more != [] {
      var k, v := more[0].0, more[0].1;
      HeadNotInTail(more);
      KeysIn(more[1..], k);
      PutKeys(items, k, v);
      var p := Put(items, k, v);
      PutAllKeys(p, more[1..]);
      assert Keys(more) == [k] + Keys(more[1..]);
      assert NewKeys(Keys(items), Keys(more)) ==
        (if k in Keys(items) then [] else [k]) + NewKeys(Keys(items), Keys(more[1..]));
      var a, rest := Keys(items), Keys(more[1..]);
      if k !in a {
        NewKeysExtend(a, k, rest);
        assert Keys(PutAll(items, more)) == (a + [k]) + NewKeys(a, rest);
        assert (a + [k]) + NewKeys(a, rest) == a + ([k] + NewKeys(a, rest));
      } else {
        assert a + [] == a;
        assert Keys(PutAll(items, more)) == a + NewKeys(a, rest);
        assert [] + NewKeys(a, rest) == NewKeys(a, rest);
      }
    }
  }

  lemma {:induction false} PutAllGet(items: seq<(string, int)>, more: seq<(string, int)>)
    requires WellFormed(more)
    ensures forall x :: Get(PutAll(items, more), x) == if Get(more, x).Some? then Get(more, x) else Get(items, x)
    decreases |more|
  {
    if more != [] {
      var k, v := more[0].0, more[0].1;
      HeadNotInTail(more);
      PutGet(items, k, v);
      PutAllGet(Put(items, k, v), more[1..]);
    }
  }

  /** `s | other` on two dictionaries: the keys of `s`, then the new keys of
      `other` in its order; a key of `other` takes `other`'s value, any other
      key keeps the value in `s`. The empty sort is an identity on both
      sides. */
  lemma UnionSpec(s: Sort, other: Sort)
    requires WellFormed(s.items) && WellFormed(other.items)
    ensures WellFormed(Union(s, other).items)
    ensures Keys(Union(s, other).items) == Keys(s.items) + NewKeys(Keys(s.items), Keys(other.items))
    ensures forall x :: (Get(Union(s, other).items, x) ==
                          if Get(other.items, x).Some? then Get(other.items, x) else Get(s.items, x))
    ensures Union(s, Sort([])) == s && Union(Sort([]), other) == other
  {
    NewKeysEmpty(Keys(other.items));
    if other.items != [] && s.items != [] {
      PutAllSpec([], s.items);
      NewKeysEmpty(Keys(s.items));
      var p := PutAll([], s.items);
      assert Keys(p) == Keys(s.items);
      PutAllSpec(p, other.items);
    }
  }

  /** `asc`/`desc` map each given field, in order of first occurrence, to the
      direction, and nothing else. */
  lemma {:induction false} DirectedSpec(fields: seq<string>, direction: int)
    ensures WellFormed(Directed(fields, direction).items)
    ensures Keys(Directed(fields, direction).items) == Dedup(fields)
    ensures forall x :: Get(Directed(fields, direction).items, x) == if x in fields then Some(direction) else None
  {
    if fields != [] {
      var init, last := fields[..|fields| - 1], fields[|fields| - 1];
      DirectedSpec(init, direction);
      UnionSpec(Directed(init, direction), One(last, direction));
      assert fields == init + [last];
      assert NewKeys(Dedup(init), [last]) == if last in Dedup(init) then [] else [last];
      forall x
        ensures Get(Directed(fields, direction).items, x) == if x in fields then Some(direction) else None
      {
        assert Get(One(last, direction).items, x) == if x == last then Some(direction) else None;
      }
    }
  }

  /** `asc()` and `desc()` are the empty sort; `asc` maps every field to 1 and
      `desc` to -1, keeping first-occurrence order. */
  lemma AscDesc(fields: seq<string>)
    ensures Asc([]) == Sort([]) && Desc([]) == Sort([])
    ensures Keys(Asc(fields).items) == Dedup(fields) && Keys(Desc(fields).items) == Dedup(fields)
    ensures forall x :: Get(Asc(fields).items, x) == if x in fields then Some(1) else None
    ensures forall x :: Get(Desc(fields).items, x) == if x in fields then Some(-1) else None
  {
    DirectedSpec(fields, 1);
    DirectedSpec(fields, -1);
  }

  /** `Dedup` lists every field once, in order of first occurrence. */
  lemma {:induction false} DedupSpec(fields: seq<string>)
    ensures forall x :: x in Dedup(fields) <==> x in fields
    ensures forall i, j :: 0 <= i < j < |Dedup(fields)| ==> Dedup(fields)[i] != Dedup(fields)[j]
  {
    if fields != [] {
      DedupSpec(fields[..|fields| - 1]);
      assert fields == fields[..|fields| - 1] + [fields[|fields| - 1]];
    }
  }
}
