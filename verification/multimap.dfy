/** Maps from a key to a list of values, traversed in the order a Go map
    iteration happens to take. Both the slider map and the session map are of
    this shape, and both report a total count over such a traversal. */
module Multimap {
  import opened Base

  /** Every key of the traversal is present in the map. */
  predicate InMap<K, V>(m: map<K, seq<V>>, order: seq<K>)
  {
    forall i | 0 <= i < |order| :: order[i] in m
  }

  /** The values met along the traversal, list after list. */
  function Flatten<K, V>(m: map<K, seq<V>>, order: seq<K>): (r: seq<V>)
    requires InMap(m, order)
    ensures |r| == Total(m, order)
  {
    if |order| == 0 then [] else m[order[0]] + Flatten(m, order[1..])
  }

  /** The summed list lengths along the traversal. */
  function Total<K, V>(m: map<K, seq<V>>, order: seq<K>): nat
    requires InMap(m, order)
  {
    if |order| == 0 then 0 else |m[order[0]]| + Total(m, order[1..])
  }

  lemma {:induction false} FlattenAppend<K, V>(m: map<K, seq<V>>, a: seq<K>, b: seq<K>)
    requires InMap(m, a) && InMap(m, b)
    ensures InMap(m, a + b)
    ensures Flatten(m, a + b) == Flatten(m, a) + Flatten(m, b)
  {
    if |a| > 0 {
      assert (a + b)[1..] == a[1..] + b;
      FlattenAppend(m, a[1..], b);
    } else {
      assert a + b == b;
    }
  }

  /** The values met do not depend on the traversal order, only on which keys it visits. */
  lemma {:induction false} FlattenPermutation<K, V>(m: map<K, seq<V>>, a: seq<K>, b: seq<K>)
    requires InMap(m, a) && InMap(m, b)
    requires multiset(a) == multiset(b)
    ensures multiset(Flatten(m, a)) == multiset(Flatten(m, b))
    decreases |a|
  {
    if |a| == 0 {
      assert |b| == |multiset(b)| == 0;
    } else {
      var k := a[0];
      assert k in multiset(b);
      var j :| 0 <= j < |b| && b[j] == k;
      var rest := RemoveAt(a, b, j);
      FlattenRemoveAt(m, b, j);
      FlattenPermutation(m, a[1..], rest);
    }
  }

  /** Taking the first key of `a` out of `b` leaves the rest of `a`, up to order. */
  lemma RemoveAt<K>(a: seq<K>, b: seq<K>, j: nat) returns (rest: seq<K>)
    requires |a| > 0 && j < |b| && b[j] == a[0]
    requires multiset(a) == multiset(b)
    ensures rest == b[..j] + b[j + 1..]
    ensures multiset(a[1..]) == multiset(rest)
  {
    rest := b[..j] + b[j + 1..];
    assert a == [a[0]] + a[1..];
    assert b == b[..j] + [b[j]] + b[j + 1..];
    assert multiset(b) == multiset(rest) + multiset{a[0]};
    assert multiset(a) == multiset(a[1..]) + multiset{a[0]};
    forall x
      ensures multiset(a[1..])[x] == multiset(rest)[x]
    {
      assert multiset(a)[x] == multiset(b)[x];
    }
  }

  /** Flattening with one key taken out removes exactly that key's list. */
  lemma FlattenRemoveAt<K, V>(m: map<K, seq<V>>, b: seq<K>, j: nat)
    requires InMap(m, b) && j < |b|
    ensures InMap(m, b[..j] + b[j + 1..])
    ensures multiset(Flatten(m, b)) == multiset(m[b[j]]) + multiset(Flatten(m, b[..j] + b[j + 1..]))
  {
    assert b == b[..j] + ([b[j]] + b[j + 1..]);
    FlattenAppend(m, b[..j], [b[j]] + b[j + 1..]);
    FlattenAppend(m, [b[j]], b[j + 1..]);
    FlattenAppend(m, b[..j], b[j + 1..]);
    assert Flatten(m, [b[j]]) == m[b[j]];
  }

  /** Two traversals of the same map visit the same values and count the same total. */
  lemma TraversalIndependent<K, V>(m: map<K, seq<V>>, a: seq<K>, b: seq<K>)
    requires Enumerates(a, m.Keys) && Enumerates(b, m.Keys)
    ensures InMap(m, a) && InMap(m, b)
    ensures multiset(Flatten(m, a)) == multiset(Flatten(m, b))
    ensures Total(m, a) == Total(m, b)
  {
    NoDupSameElements(a, b);
    FlattenPermutation(m, a, b);
    assert |multiset(Flatten(m, a))| == |Flatten(m, a)|;
  }

  /** Replacing one visited list changes the total by the difference in lengths. */
  lemma {:induction false} TotalUpdate<K, V>(m: map<K, seq<V>>, order: seq<K>, k: K, v: seq<V>)
    requires InMap(m, order) && NoDup(order) && k in order
    ensures InMap(m[k := v], order)
    ensures Total(m[k := v], order) + |m[k]| == Total(m, order) + |v|
  {
    var m' := m[k := v];
    assert NoDup(order[1..]) by {
      forall i, j | 0 <= i < j < |order[1..]|
        ensures order[1..][i] != order[1..][j]
      {
        assert order[1..][i] == order[i + 1] && order[1..][j] == order[j + 1];
      }
    }
    if order[0] == k {
      assert k !in order[1..] by {
        forall j | 0 <= j < |order[1..]|
          ensures order[1..][j] != k
        {
          assert order[1..][j] == order[j + 1];
        }
      }
      TotalUnaffected(m, order[1..], k, v);
    } else {
      assert k in order[1..] by {
        var j :| 0 <= j < |order| && order[j] == k;
        assert order[1..][j - 1] == k;
      }
      TotalUpdate(m, order[1..], k, v);
    }
  }

  /** A key outside the traversal does not affect its total. */
  lemma {:induction false} TotalUnaffected<K, V>(m: map<K, seq<V>>, order: seq<K>, k: K, v: seq<V>)
    requires InMap(m, order) && k !in order
    ensures InMap(m[k := v], order)
    ensures Total(m[k := v], order) == Total(m, order)
  {
    if |order| > 0 {
      assert k !in order[1..] by {
        forall j | 0 <= j < |order[1..]|
          ensures order[1..][j] != k
        {
          assert order[1..][j] == order[j + 1];
        }
      }
      TotalUnaffected(m, order[1..], k, v);
    }
  }

  lemma {:induction false} TotalAppend<K, V>(m: map<K, seq<V>>, a: seq<K>, b: seq<K>)
    requires InMap(m, a) && InMap(m, b)
    ensures InMap(m, a + b)
    ensures Total(m, a + b) == Total(m, a) + Total(m, b)
  {
    FlattenAppend(m, a, b);
  }

  /** The keys of a map in some order: an existence witness for a traversal. */
  lemma {:induction false} SomeTraversal<K, V>(m: map<K, seq<V>>) returns (order: seq<K>)
    ensures Enumerates(order, m.Keys)
    decreases |m.Keys|
  {
    if |m.Keys| == 0 {
      order := [];
    } else {
      var k :| k in m.Keys;
      var rest := SomeTraversal(m - {k});
      assert (m - {k}).Keys == m.Keys - {k};
      order := [k] + rest;
      assert NoDup(order) by {
        forall i, j | 0 <= i < j < |order|
          ensures order[i] != order[j]
        {
          assert order[j] == rest[j - 1];
          if i > 0 {
            assert order[i] == rest[i - 1];
          }
        }
      }
    }
  }
}
