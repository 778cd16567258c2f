/**
 * Python's insertion-ordered `dict`, as the builders use it to deduplicate records:
 * a sequence of (key, value) entries in insertion order, where storing under a key
 * that is already present replaces its value in place.
 */
module OrderedMap {
  import opened Wrappers

  function Keys<K, V>(m: seq<(K, V)>): (ks: seq<K>)
    ensures |ks| == |m|
    ensures forall i :: 0 <= i < |m| ==> ks[i] == m[i].0
  {
    seq(|m|, i requires 0 <= i < |m| => m[i].0)
  }

  /** No key occurs twice: what every Python dict satisfies. */
  ghost predicate DistinctKeys<K, V>(m: seq<(K, V)>) {
    forall i, j :: 0 <= i < j < |m| ==> m[i].0 != m[j].0
  }

  /** The position of the first entry with key `k`, or -1 when there is none. */
  function Find<K(==), V>(m: seq<(K, V)>, k: K): (j: int)
    ensures -1 <= j < |m|
    ensures 0 <= j ==> m[j].0 == k && forall i :: 0 <= i < j ==> m[i].0 != k
    ensures j == -1 ==> forall i :: 0 <= i < |m| ==> m[i].0 != k
  {
    if |m| == 0 then -1
    else if m[0].0 == k then 0
    else
      var j := Find(m[1..], k);
      if j == -1 then -1 else j + 1
  }

  /** `m.get(k)`. */
  function Lookup<K(==), V>(m: seq<(K, V)>, k: K): Option<V> {
    var j := Find(m, k);
    if j < 0 then None else Some(m[j].1)
  }

  /**
   * `m[k] = v`: afterwards `k` maps to `v` and every other key maps to what it did;
   * a key already present keeps its position, a new key goes last.
   */
  function Put<K(==,!new), V>(m: seq<(K, V)>, k: K, v: V): (r: seq<(K, V)>)
    ensures Lookup(r, k) == Some(v)
    ensures forall k' :: k' != k ==> Lookup(r, k') == Lookup(m, k')
    ensures Keys(r) == if Find(m, k) >= 0 then Keys(m) else Keys(m) + [k]
    ensures DistinctKeys(m) ==> DistinctKeys(r)
  {
    var j := Find(m, k);
    if j >= 0 then
      var r := m[j := (k, v)];
      assert Keys(r) == Keys(m);
      FindUnderSameKeys(m, r, k);
      assert forall k' :: k' != k ==> Find(r, k') == Find(m, k') by {
        forall k' | k' != k ensures Find(r, k') == Find(m, k') {
          FindUnderSameKeys(m, r, k');
        }
      }
      r
    else
      var r := m + [(k, v)];
      assert forall k' :: k' != k ==> Find(r, k') == Find(m, k') by {
        forall k' | k' != k ensures Find(r, k') == Find(m, k') {
          FindAppend(m, (k, v), k');
        }
      }
      FindAppend(m, (k, v), k);
      r
  }

  /** Find only looks at keys. */
  lemma {:induction false} FindUnderSameKeys<K, V>(m: seq<(K, V)>, r: seq<(K, V)>, k: K)
    requires Keys(m) == Keys(r)
    ensures Find(r, k) == Find(m, k)
  {
    if |m| > 0 {
      assert Keys(m[1..]) == Keys(m)[1..] && Keys(r[1..]) == Keys(r)[1..];
      FindUnderSameKeys(m[1..], r[1..], k);
    }
  }

  /** Appending an entry only matters for a key that was not present before. */
  lemma {:induction false} FindAppend<K, V>(m: seq<(K, V)>, e: (K, V), k: K)
    ensures Find(m + [e], k) ==
      if Find(m, k) >= 0 then Find(m, k) else if e.0 == k then |m| else -1
  {
    if |m| > 0 {
      assert (m + [e])[1..] == m[1..] + [e];
      FindAppend(m[1..], e, k);
    }
  }

  /** `{key(x): x for x in xs}` once the keys are computed: storing every pair in order. */
  function FromPairs<K(==,!new), V>(ps: seq<(K, V)>): (m: seq<(K, V)>)
    ensures DistinctKeys(m)
    ensures |m| <= |ps|
  {
    if |ps| == 0 then []
    else
      var last := ps[|ps| - 1];
      Put(FromPairs(ps[..|ps| - 1]), last.0, last.1)
  }

  /** Pairs whose keys are already distinct come out unchanged: same length, same order. */
  lemma {:induction false} FromPairsDistinct<K(!new), V>(ps: seq<(K, V)>)
    requires DistinctKeys(ps)
    ensures FromPairs(ps) == ps
  {
    if |ps| > 0 {
      var prefix := ps[..|ps| - 1];
      FromPairsDistinct(prefix);
      assert Find(prefix, ps[|ps| - 1].0) == -1;
      assert prefix + [ps[|ps| - 1]] == ps;
    }
  }

  /** A key is stored exactly when some pair carries it. */
  lemma {:induction false} FromPairsKeys<K(!new), V>(ps: seq<(K, V)>, k: K)
    ensures Find(FromPairs(ps), k) >= 0 <==> Find(ps, k) >= 0
  {
    if |ps| > 0 {
      var prefix, last := ps[..|ps| - 1], ps[|ps| - 1];
      assert prefix + [last] == ps;
      var m := FromPairs(prefix);
      assert FromPairs(ps) == Put(m, last.0, last.1);
      FromPairsKeys(prefix, k);
      FindAppend(prefix, last, k);
      if k != last.0 {
        assert Lookup(FromPairs(ps), k) == Lookup(m, k);
      } else {
        assert Lookup(FromPairs(ps), k).Some?;
      }
    }
  }

  /** Last wins: a key maps to the value of the LAST pair that carries it. */
  lemma {:induction false} FromPairsLastWins<K(!new), V>(ps: seq<(K, V)>, i: nat)
    requires i < |ps|
    requires forall j :: i < j < |ps| ==> ps[j].0 != ps[i].0
    ensures Lookup(FromPairs(ps), ps[i].0) == Some(ps[i].1)
  {
    if i < |ps| - 1 {
      var prefix := ps[..|ps| - 1];
      FromPairsLastWins(prefix, i);
    }
  }

  /** Every key of `ks` occurs among the pairs, and `ks` lists them in order of first occurrence. */
  ghost predicate InFirstOccurrenceOrder<K, V>(ps: seq<(K, V)>, ks: seq<K>) {
    && (forall a :: 0 <= a < |ks| ==> 0 <= Find(ps, ks[a]))
    && (forall a, b :: 0 <= a < b < |ks| ==> Find(ps, ks[a]) < Find(ps, ks[b]))
  }

  /** First position: the stored keys are ordered by where each key FIRST occurs among the pairs. */
  lemma {:induction false} FromPairsOrder<K(!new), V>(ps: seq<(K, V)>)
    ensures InFirstOccurrenceOrder(ps, Keys(FromPairs(ps)))
  {
    if |ps| > 0 {
      var prefix, last := ps[..|ps| - 1], ps[|ps| - 1];
      assert prefix + [last] == ps;
      var m := FromPairs(prefix);
      FromPairsOrder(prefix);
      OrderKeptByAppend(prefix, last, Keys(m));
      if Find(m, last.0) < 0 {
        FromPairsKeys(prefix, last.0);
        OrderExtendedByNewKey(prefix, last, Keys(m));
      }
    }
  }

  lemma OrderKeptByAppend<K, V>(prefix: seq<(K, V)>, last: (K, V), ks: seq<K>)
    requires InFirstOccurrenceOrder(prefix, ks)
    ensures InFirstOccurrenceOrder(prefix + [last], ks)
  {
    forall a | 0 <= a < |ks| ensures Find(prefix + [last], ks[a]) == Find(prefix, ks[a]) {
      FindAppend(prefix, last, ks[a]);
    }
  }

  lemma OrderExtendedByNewKey<K, V>(prefix: seq<(K, V)>, last: (K, V), ks: seq<K>)
    requires InFirstOccurrenceOrder(prefix, ks)
    requires Find(prefix, last.0) < 0
    ensures InFirstOccurrenceOrder(prefix + [last], ks + [last.0])
  {
    OrderKeptByAppend(prefix, last, ks);
    FindAppend(prefix, last, last.0);
    var ks' := ks + [last.0];
    assert forall a :: 0 <= a < |ks| ==> ks'[a] == ks[a];
  }

  /** Every stored entry is one of the pairs: the comprehension invents no key and no value. */
  lemma {:induction false} FromPairsEntries<K(!new), V>(ps: seq<(K, V)>, j: nat)
    requires j < |FromPairs(ps)|
    ensures FromPairs(ps)[j] in ps
  {
    var prefix, last := ps[..|ps| - 1], ps[|ps| - 1];
    var m := FromPairs(prefix);
    var f := Find(m, last.0);
    if (f >= 0 && j == f) || (f < 0 && j == |m|) {
      assert FromPairs(ps)[j] == last;
    } else {
      assert FromPairs(ps)[j] == m[j];
      FromPairsEntries(prefix, j);
      assert m[j] in prefix;
    }
  }

  /** `{k: a, k: b}` is `{k: b}`. */
  lemma FromPairsSameKeyTwice<K(!new), V>(k: K, a: V, b: V)
    ensures FromPairs([(k, a), (k, b)]) == [(k, b)]
  {
    var ps := [(k, a), (k, b)];
    assert ps[..1] == [(k, a)];
    assert FromPairs([(k, a)]) == [(k, a)];
  }

  /** The keys carried by the pairs. */
  ghost function KeySet<K, V>(ps: seq<(K, V)>): set<K> {
    set p | p in ps :: p.0
  }

  /** The map has exactly one entry per distinct key among the pairs. */
  lemma {:induction false} FromPairsSize<K(!new), V>(ps: seq<(K, V)>)
    ensures |FromPairs(ps)| == |KeySet(ps)|
  {
    if |ps| > 0 {
      var prefix, last := ps[..|ps| - 1], ps[|ps| - 1];
      assert prefix + [last] == ps;
      var m := FromPairs(prefix);
      FromPairsSize(prefix);
      KeySetAppend(prefix, last);
      KeySetFind(prefix, last.0);
      FromPairsKeys(prefix, last.0);
      assert |Keys(FromPairs(ps))| == |FromPairs(ps)| && |Keys(m)| == |m|;
    }
  }

  lemma KeySetAppend<K, V>(prefix: seq<(K, V)>, last: (K, V))
    ensures KeySet(prefix + [last]) == KeySet(prefix) + {last.0}
  {
    var ps := prefix + [last];
    forall p | p in ps ensures p in prefix || p == last {
      var i :| 0 <= i < |ps| && ps[i] == p;
      if i < |prefix| { assert prefix[i] == p; }
    }
  }

  /** A key is among the pairs' keys exactly when Find finds it. */
  lemma KeySetFind<K, V>(ps: seq<(K, V)>, k: K)
    ensures k in KeySet(ps) <==> Find(ps, k) >= 0
  {
    if Find(ps, k) >= 0 {
      assert ps[Find(ps, k)] in ps;
    } else {
      forall p | p in ps ensures p.0 != k {
        var i :| 0 <= i < |ps| && ps[i] == p;
      }
    }
  }

  /** Two pairs with the same key collapse, so the map is strictly shorter than the pairs. */
  lemma {:induction false} FromPairsCollapses<K(!new), V>(ps: seq<(K, V)>, i: nat, j: nat)
    requires i < j < |ps| && ps[i].0 == ps[j].0
    ensures |FromPairs(ps)| < |ps|
  {
    var prefix, last := ps[..|ps| - 1], ps[|ps| - 1];
    if j == |ps| - 1 {
      assert Find(prefix, last.0) >= 0 by {
        assert prefix[i].0 == last.0;
      }
      FromPairsKeys(prefix, last.0);
      assert |Keys(FromPairs(ps))| == |Keys(FromPairs(prefix))|;
    } else {
      FromPairsCollapses(prefix, i, j);
      assert |Keys(FromPairs(ps))| <= |Keys(FromPairs(prefix))| + 1;
    }
  }
}
