/** The segmentation step of `Database._apply`: a flat list of `(key, op)`
    pairs is split into one list per key with a `defaultdict(list)`, whose
    keys keep their first-insertion order. */
module Grouping {

  /** The distinct keys of `ps` in order of first appearance. */
  function FirstKeys<K(==), V>(ps: seq<(K, V)>): seq<K>
  {
    if ps == [] then []
    else
      var ks := FirstKeys(ps[..|ps| - 1]);
      var k := ps[|ps| - 1].0;
      if k in ks then ks else ks + [k]
  }

  /** The values paired with `k`, in the order of `ps` (the reference group). */
  function Group<K(==), V>(ps: seq<(K, V)>, k: K): seq<V>
  {
    if ps == [] then []
    else Group(ps[..|ps| - 1], k) + (if ps[|ps| - 1].0 == k then [ps[|ps| - 1].1] else [])
  }

  /** The total length of the groups of `ks`. */
  function TotalSize<K(==), V>(ks: seq<K>, groups: map<K, seq<V>>): nat
    requires forall k <- ks :: k in groups
  {
    if ks == [] then 0 else |groups[ks[0]]| + TotalSize(ks[1..], groups)
  }

  /** The grouping loop: `for k, op in ps: groups[k].append(op)`, with the
      map's keys listed in insertion order. */
  method GroupBy<K(==), V>(ps: seq<(K, V)>) returns (keys: seq<K>, groups: map<K, seq<V>>)
    ensures keys == FirstKeys(ps)
    ensures groups.Keys == set k | k in keys
    ensures forall k <- keys :: groups[k] == Group(ps, k)
  {
    keys, groups := [], map[];
    for i := 0 to |ps|
      invariant keys == FirstKeys(ps[..i])
      invariant groups.Keys == set k | k in keys
      invariant forall k <- keys :: groups[k] == Group(ps[..i], k)
    {
      assert ps[..i + 1][..i] == ps[..i];
      var (k, op) := ps[i];
      GroupAbsent(ps[..i], k);
      if k in groups {
        groups := groups[k := groups[k] + [op]];
      } else {
        keys := keys + [k];
        groups := groups[k := [op]];
      }
    }
    assert ps[..|ps|] == ps;
  }

  lemma {:induction false} GroupAbsent<K, V>(ps: seq<(K, V)>, k: K)
    ensures k !in FirstKeys(ps) ==> Group(ps, k) == []
    ensures k in FirstKeys(ps) <==> exists i :: 0 <= i < |ps| && ps[i].0 == k
  {
    if ps != [] {
      var init := ps[..|ps| - 1];
      GroupAbsent(init, k);
      if exists i :: 0 <= i < |init| && init[i].0 == k {
        var i :| 0 <= i < |init| && init[i].0 == k;
        assert ps[i].0 == k;
      }
      if exists i :: 0 <= i < |ps| && ps[i].0 == k {
        var i :| 0 <= i < |ps| && ps[i].0 == k;
        if i < |init| {
          assert init[i].0 == k;
        }
      }
    }
  }

  /** Each key is listed once, exactly the keys that occur are listed, and
      every pair lands in exactly one group: the groups of the listed keys
      together hold as many values as `ps`. */
  lemma {:induction false} GroupingPartitions<K, V>(ps: seq<(K, V)>, groups: map<K, seq<V>>)
    requires forall k <- FirstKeys(ps) :: k in groups && groups[k] == Group(ps, k)
    ensures forall i, j :: 0 <= i < j < |FirstKeys(ps)| ==> FirstKeys(ps)[i] != FirstKeys(ps)[j]
    ensures forall k :: k in FirstKeys(ps) <==> exists i :: 0 <= i < |ps| && ps[i].0 == k
    ensures TotalSize(FirstKeys(ps), groups) == |ps|
  {
    forall k ensures k in FirstKeys(ps) <==> exists i :: 0 <= i < |ps| && ps[i].0 == k {
      GroupAbsent(ps, k);
    }
    FirstKeysDistinct(ps);
    SizeOfGroups(ps);
    TotalSizeAgrees(FirstKeys(ps), groups, ps);
  }

  lemma {:induction false} FirstKeysDistinct<K, V>(ps: seq<(K, V)>)
    ensures forall i, j :: 0 <= i < j < |FirstKeys(ps)| ==> FirstKeys(ps)[i] != FirstKeys(ps)[j]
  {
    if ps != [] {
      FirstKeysDistinct(ps[..|ps| - 1]);
    }
  }

  /** The total, taken over the reference groups. */
  function GroupSizes<K(==), V>(ks: seq<K>, ps: seq<(K, V)>): nat
  {
    if ks == [] then 0 else |Group(ps, ks[0])| + GroupSizes(ks[1..], ps)
  }

  lemma {:induction false} TotalSizeAgrees<K, V>(ks: seq<K>, groups: map<K, seq<V>>, ps: seq<(K, V)>)
    requires forall k <- ks :: k in groups && groups[k] == Group(ps, k)
    ensures TotalSize(ks, groups) == GroupSizes(ks, ps)
  {
    if ks != [] {
      TotalSizeAgrees(ks[1..], groups, ps);
    }
  }

  /** Appending a pair adds one to the group of its key only. */
  lemma {:induction false} GroupSizesStep<K, V>(ks: seq<K>, ps: seq<(K, V)>, k: K, v: V)
    ensures GroupSizes(ks, ps + [(k, v)]) == GroupSizes(ks, ps) + Occurrences(ks, k)
  {
    var ps' := ps + [(k, v)];
    assert ps'[..|ps'| - 1] == ps;
    if ks != [] {
      GroupSizesStep(ks[1..], ps, k, v);
    }
  }

  function Occurrences<K(==)>(ks: seq<K>, k: K): nat
  {
    if ks == [] then 0 else (if ks[0] == k then 1 else 0) + Occurrences(ks[1..], k)
  }

  lemma {:induction false} OccurrencesAppend<K>(a: seq<K>, b: seq<K>, k: K)
    ensures Occurrences(a + b, k) == Occurrences(a, k) + Occurrences(b, k)
  {
    if a != [] {
      assert (a + b)[0] == a[0] && (a + b)[1..] == a[1..] + b;
      OccurrencesAppend(a[1..], b, k);
    } else {
      assert a + b == b;
    }
  }

  lemma {:induction false} GroupSizesAppend<K, V>(a: seq<K>, b: seq<K>, ps: seq<(K, V)>)
    ensures GroupSizes(a + b, ps) == GroupSizes(a, ps) + GroupSizes(b, ps)
  {
    if a != [] {
      assert (a + b)[0] == a[0] && (a + b)[1..] == a[1..] + b;
      GroupSizesAppend(a[1..], b, ps);
    } else {
      assert a + b == b;
    }
  }

  lemma {:induction false} OccurrencesIn<K>(ks: seq<K>, k: K)
    requires forall i, j :: 0 <= i < j < |ks| ==> ks[i] != ks[j]
    ensures Occurrences(ks, k) == if k in ks then 1 else 0
  {
    if ks != [] {
      OccurrencesIn(ks[1..], k);
      if ks[0] == k {
        assert k !in ks[1..] by {
          forall j | 0 <= j < |ks[1..]| ensures ks[1..][j] != k {
            assert ks[1..][j] == ks[j + 1];
          }
        }
      }
    }
  }

  /** The groups of the first-appearance keys hold every value once. */
  lemma {:induction false} SizeOfGroups<K, V>(ps: seq<(K, V)>)
    ensures GroupSizes(FirstKeys(ps), ps) == |ps|
  {
    if ps != [] {
      var init := ps[..|ps| - 1];
      var (k, v) := ps[|ps| - 1];
      assert ps == init + [(k, v)];
      SizeOfGroups(init);
      var ks := FirstKeys(init);
      FirstKeysDistinct(ps);
      FirstKeysDistinct(init);
      GroupSizesStep(FirstKeys(ps), init, k, v);
      OccurrencesIn(FirstKeys(ps), k);
      if k in ks {
        assert FirstKeys(ps) == ks;
      } else {
        assert FirstKeys(ps) == ks + [k];
        GroupSizesAppend(ks, [k], init);
        GroupAbsent(init, k);
        assert GroupSizes([k], init) == |Group(init, k)| + GroupSizes([], init);
      }
    }
  }
}
