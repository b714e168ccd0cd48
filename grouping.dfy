/** An insertion-ordered dictionary of lists: the value Python builds with
    repeated `d.setdefault(k, []).append(v)`. `keys` is the dictionary's
    iteration order (first insertion of each key). */
module Grouping {
  import opened Wrappers

  datatype Groups<K, V> = Groups(keys: seq<K>, members: map<K, seq<V>>)

  ghost predicate Distinct<K>(ks: seq<K>) {
    forall i, j :: 0 <= i < j < |ks| ==> ks[i] != ks[j]
  }

  /** Every key is listed once, the listed keys are the dictionary's keys,
      and no list is empty. */
  ghost predicate Valid<K(!new), V>(g: Groups<K, V>) {
    && Distinct(g.keys)
    && (forall k :: k in g.members <==> k in g.keys)
    && (forall k :: k in g.members ==> |g.members[k]| > 0)
  }

  function Empty<K(==), V>(): Groups<K, V> {
    Groups([], map[])
  }

  /** `d.setdefault(k, []).append(v)` */
  function Append<K(==), V>(g: Groups<K, V>, k: K, v: V): Groups<K, V> {
    if k in g.members then Groups(g.keys, g.members[k := g.members[k] + [v]])
    else Groups(g.keys + [k], g.members[k := [v]])
  }

  /** The dictionary after appending every pair of `kvs`, in order, to an
      empty one. */
  function Build<K(==), V>(kvs: seq<(K, V)>): Groups<K, V> {
    if kvs == [] then Empty()
    else Append(Build(kvs[..|kvs| - 1]), kvs[|kvs| - 1].0, kvs[|kvs| - 1].1)
  }

  /** The values paired with `k` in `kvs`, in order. */
  function Where<K(==), V>(kvs: seq<(K, V)>, k: K): seq<V> {
    if kvs == [] then []
    else Where(kvs[..|kvs| - 1], k) + (if kvs[|kvs| - 1].0 == k then [kvs[|kvs| - 1].1] else [])
  }

  function Values<K(==), V>(kvs: seq<(K, V)>): seq<V> {
    if kvs == [] then [] else Values(kvs[..|kvs| - 1]) + [kvs[|kvs| - 1].1]
  }

  /** The lists of the dictionary concatenated in key order. */
  function Flatten<K(==), V>(keys: seq<K>, members: map<K, seq<V>>): seq<V> {
    if keys == [] then []
    else Flatten(keys[..|keys| - 1], members)
         + (if keys[|keys| - 1] in members then members[keys[|keys| - 1]] else [])
  }

  /** Appending one more pair is one more `setdefault(...).append(...)`. */
  lemma BuildSnoc<K, V>(kvs: seq<(K, V)>, kv: (K, V))
    ensures Build(kvs + [kv]) == Append(Build(kvs), kv.0, kv.1)
  {
    assert (kvs + [kv])[..|kvs|] == kvs;
  }

  lemma {:induction false} ValuesIs<K, V>(kvs: seq<(K, V)>, xs: seq<V>)
    requires |kvs| == |xs|
    requires forall i :: 0 <= i < |kvs| ==> kvs[i].1 == xs[i]
    ensures Values(kvs) == xs
  {
    if kvs != [] {
      ValuesIs(kvs[..|kvs| - 1], xs[..|xs| - 1]);
    }
  }

  lemma WhereIn<K, V>(kvs: seq<(K, V)>, k: K, v: V)
    requires v in Where(kvs, k)
    ensures exists i :: 0 <= i < |kvs| && kvs[i] == (k, v)
  {
    if kvs != [] {
      var pre := kvs[..|kvs| - 1];
      if v in Where(pre, k) {
        WhereIn(pre, k, v);
        var i :| 0 <= i < |pre| && pre[i] == (k, v);
        assert kvs[i] == pre[i];
      } else {
        assert kvs[|kvs| - 1] == (k, v);
      }
    }
  }

  /** The dictionary built from `kvs` holds one list per key of `kvs`, and
      that list is exactly the values paired with the key, in order. */
  lemma {:induction false} BuildSpec<K(!new), V>(kvs: seq<(K, V)>)
    ensures Valid(Build(kvs))
    ensures forall k :: k in Build(kvs).members <==> exists i :: 0 <= i < |kvs| && kvs[i].0 == k
    ensures forall k :: k in Build(kvs).members ==> Build(kvs).members[k] == Where(kvs, k)
  {
    if kvs != [] {
      var pre := kvs[..|kvs| - 1];
      var (k0, v0) := kvs[|kvs| - 1];
      BuildSpec(pre);
      var g := Build(pre);
      assert Build(kvs) == Append(g, k0, v0);
      forall k ensures k in Build(kvs).members <==> exists i :: 0 <= i < |kvs| && kvs[i].0 == k {
        if k in g.members {
          var i :| 0 <= i < |pre| && pre[i].0 == k;
          assert kvs[i] == pre[i];
        }
        if exists i :: 0 <= i < |kvs| && kvs[i].0 == k {
          var i :| 0 <= i < |kvs| && kvs[i].0 == k;
          if i < |pre| {
            assert pre[i] == kvs[i];
          }
        }
      }
      forall k | k in Build(kvs).members ensures Build(kvs).members[k] == Where(kvs, k) {
        assert Where(kvs, k) == Where(pre, k) + (if k0 == k then [v0] else []);
        if k == k0 {
          if k0 in g.members {
            assert Build(kvs).members[k] == g.members[k] + [v0];
          } else {
            assert Where(pre, k) == [] by {
              if Where(pre, k) != [] {
                WhereIn(pre, k, Where(pre, k)[0]);
              }
            }
          }
        }
      }
    }
  }

  /** Every value of `kvs` lands in exactly one list: the lists together are
      a rearrangement of the values. */
  lemma {:induction false} BuildPartition<K(!new), V>(kvs: seq<(K, V)>)
    ensures multiset(Flatten(Build(kvs).keys, Build(kvs).members)) == multiset(Values(kvs))
  {
    if kvs != [] {
      var pre := kvs[..|kvs| - 1];
      var (k0, v0) := kvs[|kvs| - 1];
      BuildPartition(pre);
      BuildSpec(pre);
      var g := Build(pre);
      if k0 in g.members {
        FlattenUpdate(g.keys, g.members, k0, v0);
      } else {
        FlattenFresh(g.keys, g.members, k0, [v0]);
        assert (g.keys + [k0])[..|g.keys|] == g.keys;
      }
    }
  }

  lemma {:induction false} FlattenFresh<K, V>(keys: seq<K>, m: map<K, seq<V>>, k: K, s: seq<V>)
    requires k !in keys
    ensures Flatten(keys, m[k := s]) == Flatten(keys, m)
  {
    if keys != [] {
      FlattenFresh(keys[..|keys| - 1], m, k, s);
    }
  }

  lemma {:induction false} FlattenUpdate<K, V>(keys: seq<K>, m: map<K, seq<V>>, k: K, v: V)
    requires Distinct(keys) && k in keys && k in m
    ensures multiset(Flatten(keys, m[k := m[k] + [v]])) == multiset(Flatten(keys, m)) + multiset{v}
  {
    var pre := keys[..|keys| - 1];
    var last := keys[|keys| - 1];
    if last == k {
      assert forall i :: 0 <= i < |pre| ==> pre[i] == keys[i];
      FlattenFresh(pre, m, k, m[k] + [v]);
    } else {
      assert k in pre by {
        var i :| 0 <= i < |keys| && keys[i] == k;
        assert i < |pre| && pre[i] == k;
      }
      assert Distinct(pre) by {
        forall i, j | 0 <= i < j < |pre| ensures pre[i] != pre[j] {
          assert pre[i] == keys[i] && pre[j] == keys[j];
        }
      }
      FlattenUpdate(pre, m, k, v);
    }
  }

  /** Two pair sequences with the same keys, position by position, build
      dictionaries with the same keys in the same order. */
  lemma {:induction false} BuildSameKeys<K, V, W>(a: seq<(K, V)>, b: seq<(K, W)>)
    requires |a| == |b|
    requires forall i :: 0 <= i < |a| ==> a[i].0 == b[i].0
    ensures Build(a).keys == Build(b).keys
    ensures Build(a).members.Keys == Build(b).members.Keys
  {
    if a != [] {
      BuildSameKeys(a[..|a| - 1], b[..|b| - 1]);
      assert a[|a| - 1].0 == b[|b| - 1].0;
    }
  }

  /** When `b` pairs the keys of `a` with `f` of `a`'s values, the values
      sharing a key correspond one to one, in order. */
  lemma {:induction false} WhereMapped<K, V, W>(a: seq<(K, V)>, b: seq<(K, W)>, f: V -> W, k: K)
    requires |a| == |b|
    requires forall i :: 0 <= i < |a| ==> b[i] == (a[i].0, f(a[i].1))
    ensures |Where(b, k)| == |Where(a, k)|
    ensures forall j :: 0 <= j < |Where(a, k)| ==> Where(b, k)[j] == f(Where(a, k)[j])
  {
    if a != [] {
      WhereMapped(a[..|a| - 1], b[..|b| - 1], f, k);
    }
  }

  /** When `b` pairs the keys of `a` with `f` of `a`'s values, the lists
      of the two dictionaries correspond one to one, in order. */
  lemma BuildMapped<K(!new), V, W>(a: seq<(K, V)>, b: seq<(K, W)>, f: V -> W, k: K)
    requires |a| == |b|
    requires forall i :: 0 <= i < |a| ==> b[i] == (a[i].0, f(a[i].1))
    requires k in Build(a).members
    ensures k in Build(b).members
    ensures |Build(b).members[k]| == |Build(a).members[k]|
    ensures forall j :: 0 <= j < |Build(a).members[k]| ==> Build(b).members[k][j] == f(Build(a).members[k][j])
  {
    BuildSameKeys(a, b);
    BuildSpec(a);
    BuildSpec(b);
    WhereMapped(a, b, f, k);
  }

  // Keying a sequence: the pairs a loop appends when it keys each element and
  // skips those without a key.

  function KeyedBy<K, V>(xs: seq<V>, key: V -> Option<K>): seq<(K, V)> {
    if xs == [] then []
    else
      var last := xs[|xs| - 1];
      KeyedBy(xs[..|xs| - 1], key) + match key(last) case None => [] case Some(k) => [(k, last)]
  }

  /** One more step of the keying loop. */
  lemma BuildKeyedStep<K, V>(xs: seq<V>, key: V -> Option<K>, i: nat)
    requires i < |xs|
    ensures Build(KeyedBy(xs[..i + 1], key)) ==
      match key(xs[i])
      case None => Build(KeyedBy(xs[..i], key))
      case Some(k) => Append(Build(KeyedBy(xs[..i], key)), k, xs[i])
  {
    var ys := xs[..i + 1];
    assert ys[..i] == xs[..i] && ys[i] == xs[i];
    var kv := KeyedBy(ys, key);
    match key(xs[i])
    case None =>
      assert kv == KeyedBy(xs[..i], key);
    case Some(k) =>
      assert kv == KeyedBy(xs[..i], key) + [(k, xs[i])];
      assert kv[..|kv| - 1] == KeyedBy(xs[..i], key);
      assert kv[|kv| - 1] == (k, xs[i]);
  }

  /** The elements whose key is `k`, in order. */
  function WithKey<K(==), V>(xs: seq<V>, key: V -> Option<K>, k: K): seq<V> {
    if xs == [] then []
    else WithKey(xs[..|xs| - 1], key, k) + if key(xs[|xs| - 1]) == Some(k) then [xs[|xs| - 1]] else []
  }

  /** The elements that have a key, in order. */
  function HasKey<K, V>(xs: seq<V>, key: V -> Option<K>): seq<V> {
    if xs == [] then []
    else HasKey(xs[..|xs| - 1], key) + if key(xs[|xs| - 1]).Some? then [xs[|xs| - 1]] else []
  }

  lemma {:induction false} KeyedByFacts<K, V>(xs: seq<V>, key: V -> Option<K>, k: K)
    ensures Where(KeyedBy(xs, key), k) == WithKey(xs, key, k)
  {
    if xs != [] {
      var pre := xs[..|xs| - 1];
      var last := xs[|xs| - 1];
      KeyedByFacts(pre, key, k);
      var kv := KeyedBy(xs, key);
      match key(last)
      case None =>
        assert kv == KeyedBy(pre, key);
      case Some(k0) =>
        assert kv == KeyedBy(pre, key) + [(k0, last)];
        assert kv[..|kv| - 1] == KeyedBy(pre, key);
        assert kv[|kv| - 1] == (k0, last);
    }
  }

  lemma {:induction false} KeyedByValues<K, V>(xs: seq<V>, key: V -> Option<K>)
    ensures Values(KeyedBy(xs, key)) == HasKey(xs, key)
  {
    if xs != [] {
      var pre := xs[..|xs| - 1];
      var last := xs[|xs| - 1];
      KeyedByValues(pre, key);
      var kv := KeyedBy(xs, key);
      match key(last)
      case None =>
        assert kv == KeyedBy(pre, key);
      case Some(k0) =>
        assert kv == KeyedBy(pre, key) + [(k0, last)];
        assert kv[..|kv| - 1] == KeyedBy(pre, key);
        assert kv[|kv| - 1] == (k0, last);
    }
  }

  lemma {:induction false} KeyedByFrom<K, V>(xs: seq<V>, key: V -> Option<K>, k: K)
    requires exists i :: 0 <= i < |KeyedBy(xs, key)| && KeyedBy(xs, key)[i].0 == k
    ensures exists i :: 0 <= i < |xs| && key(xs[i]) == Some(k)
  {
    var pre := xs[..|xs| - 1];
    var kv := KeyedBy(xs, key);
    var i :| 0 <= i < |kv| && kv[i].0 == k;
    if i < |KeyedBy(pre, key)| {
      assert kv[i] == KeyedBy(pre, key)[i];
      KeyedByFrom(pre, key, k);
      var j :| 0 <= j < |pre| && key(pre[j]) == Some(k);
      assert xs[j] == pre[j];
    }
  }

  lemma {:induction false} KeyedByTo<K, V>(xs: seq<V>, key: V -> Option<K>, i: nat)
    requires i < |xs| && key(xs[i]).Some?
    ensures exists j :: 0 <= j < |KeyedBy(xs, key)| && KeyedBy(xs, key)[j] == (key(xs[i]).value, xs[i])
  {
    var pre := xs[..|xs| - 1];
    var kv := KeyedBy(xs, key);
    if i < |pre| {
      KeyedByTo(pre, key, i);
      var j :| 0 <= j < |KeyedBy(pre, key)| && KeyedBy(pre, key)[j] == (key(pre[i]).value, pre[i]);
      assert kv[j] == KeyedBy(pre, key)[j];
    } else {
      assert kv == KeyedBy(pre, key) + [(key(xs[i]).value, xs[i])];
      assert kv[|kv| - 1] == (key(xs[i]).value, xs[i]);
    }
  }

  /** What `WithKey` keeps comes from the sequence and has the key. */
  lemma {:induction false} WithKeyIn<K, V>(xs: seq<V>, key: V -> Option<K>, k: K, x: V)
    requires x in WithKey(xs, key, k)
    ensures exists i :: 0 <= i < |xs| && xs[i] == x && key(x) == Some(k)
  {
    var pre := xs[..|xs| - 1];
    if x in WithKey(pre, key, k) {
      WithKeyIn(pre, key, k, x);
      var i :| 0 <= i < |pre| && pre[i] == x && key(x) == Some(k);
      assert xs[i] == pre[i];
    } else {
      assert xs[|xs| - 1] == x;
    }
  }

  /** When every element has a key, keying pairs each element with it. */
  lemma {:induction false} KeyedByAll<K, V>(xs: seq<V>, key: V -> Option<K>)
    requires forall i :: 0 <= i < |xs| ==> key(xs[i]).Some?
    ensures |KeyedBy(xs, key)| == |xs|
    ensures forall i :: 0 <= i < |xs| ==> KeyedBy(xs, key)[i] == (key(xs[i]).value, xs[i])
  {
    if xs != [] {
      var pre := xs[..|xs| - 1];
      KeyedByAll(pre, key);
      assert KeyedBy(xs, key) == KeyedBy(pre, key) + [(key(xs[|xs| - 1]).value, xs[|xs| - 1])];
    }
  }

  /** When every element has a key, none is dropped. */
  lemma {:induction false} HasKeyAll<K, V>(xs: seq<V>, key: V -> Option<K>)
    requires forall i :: 0 <= i < |xs| ==> key(xs[i]).Some?
    ensures HasKey(xs, key) == xs
  {
    if xs != [] {
      HasKeyAll(xs[..|xs| - 1], key);
    }
  }

  /** Grouping by a key function: one list per key that occurs, and no list
      is empty (`GroupByKeyOrder` gives the order of the keys). */
  lemma GroupByKeyDomain<K(!new), V>(xs: seq<V>, key: V -> Option<K>)
    ensures Valid(Build(KeyedBy(xs, key)))
    ensures forall k ::
      k in Build(KeyedBy(xs, key)).members <==> exists i :: 0 <= i < |xs| && key(xs[i]) == Some(k)
  {
    var kv := KeyedBy(xs, key);
    BuildSpec(kv);
    forall k ensures k in Build(kv).members <==> exists i :: 0 <= i < |xs| && key(xs[i]) == Some(k) {
      if k in Build(kv).members {
        KeyedByFrom(xs, key, k);
      }
      if exists i :: 0 <= i < |xs| && key(xs[i]) == Some(k) {
        var i :| 0 <= i < |xs| && key(xs[i]) == Some(k);
        KeyedByTo(xs, key, i);
      }
    }
  }

  /** Key `a` is seen before key `b` in `xs`: some element has key `a` and
      no element up to and including it has key `b`. */
  ghost predicate SeenBefore<K, V>(xs: seq<V>, key: V -> Option<K>, a: K, b: K) {
    exists p :: 0 <= p < |xs| && key(xs[p]) == Some(a) && forall q :: 0 <= q <= p ==> key(xs[q]) != Some(b)
  }

  /** The keys are in first-seen order: of two listed keys, the earlier one
      occurs in `xs` before the later one first does. */
  lemma {:induction false} GroupByKeyOrder<K(!new), V>(xs: seq<V>, key: V -> Option<K>)
    ensures forall i, j :: 0 <= i < j < |Build(KeyedBy(xs, key)).keys| ==>
      SeenBefore(xs, key, Build(KeyedBy(xs, key)).keys[i], Build(KeyedBy(xs, key)).keys[j])
  {
    if xs != [] {
      var pre := xs[..|xs| - 1];
      var last := xs[|xs| - 1];
      GroupByKeyOrder(pre, key);
      GroupByKeyDomain(pre, key);
      var g := Build(KeyedBy(pre, key));
      var h := Build(KeyedBy(xs, key));
      forall a, b | SeenBefore(pre, key, a, b) ensures SeenBefore(xs, key, a, b) {
        var p :| 0 <= p < |pre| && key(pre[p]) == Some(a) && forall q :: 0 <= q <= p ==> key(pre[q]) != Some(b);
        assert xs[p] == pre[p];
        forall q | 0 <= q <= p ensures key(xs[q]) != Some(b) {
          assert xs[q] == pre[q];
        }
      }
      match key(last)
      case None =>
        assert KeyedBy(xs, key) == KeyedBy(pre, key);
      case Some(k) =>
        assert KeyedBy(xs, key) == KeyedBy(pre, key) + [(k, last)];
        BuildSnoc(KeyedBy(pre, key), (k, last));
        if k !in g.members {
          forall i, j | 0 <= i < j < |h.keys| ensures SeenBefore(xs, key, h.keys[i], h.keys[j]) {
            assert h.keys[i] == g.keys[i];
            if j < |g.keys| {
              assert h.keys[j] == g.keys[j];
            } else {
              assert h.keys[j] == k;
              var p :| 0 <= p < |pre| && key(pre[p]) == Some(g.keys[i]);
              assert xs[p] == pre[p];
              forall q | 0 <= q <= p ensures key(xs[q]) != Some(k) {
                assert xs[q] == pre[q];
              }
            }
          }
        }
    }
  }

  /** Each list holds exactly the elements with its key, in order, and all
      of them do have that key. */
  lemma GroupByKeyLists<K(!new), V>(xs: seq<V>, key: V -> Option<K>)
    ensures forall k :: k in Build(KeyedBy(xs, key)).members ==> Build(KeyedBy(xs, key)).members[k] == WithKey(xs, key, k)
    ensures forall k, x :: k in Build(KeyedBy(xs, key)).members && x in Build(KeyedBy(xs, key)).members[k] ==> key(x) == Some(k)
  {
    var kv := KeyedBy(xs, key);
    BuildSpec(kv);
    forall k | k in Build(kv).members ensures Build(kv).members[k] == WithKey(xs, key, k) {
      KeyedByFacts(xs, key, k);
    }
    forall k, x | k in Build(kv).members && x in Build(kv).members[k] ensures key(x) == Some(k) {
      KeyedByFacts(xs, key, k);
      WithKeyIn(xs, key, k, x);
    }
  }

  /** Together the lists are a rearrangement of the elements that have a
      key: the others are in no list. */
  lemma GroupByKeyPartition<K(!new), V>(xs: seq<V>, key: V -> Option<K>)
    ensures var g := Build(KeyedBy(xs, key)); multiset(Flatten(g.keys, g.members)) == multiset(HasKey(xs, key))
  {
    BuildPartition(KeyedBy(xs, key));
    KeyedByValues(xs, key);
  }
}
