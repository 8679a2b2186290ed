/** Small shared vocabulary: optional values, results, and duplicate-free sequences. */
module Base {

  /** A value that may be absent (Go's nil slice or a missing map entry). */
  datatype Option<+T> = None | Some(value: T)

  /** The outcome of an operation that returns a Go `error` next to its value. */
  datatype Result<+T, +E> = Ok(value: T) | Err(error: E)

  /** No element occurs twice. */
  predicate NoDup<T(==)>(s: seq<T>)
  {
    forall i, j | 0 <= i < j < |s| :: s[i] != s[j]
  }

  /** `order` lists every element of `keys` exactly once: the model of one Go map traversal. */
  predicate Enumerates<K(==)>(order: seq<K>, keys: set<K>)
  {
    && NoDup(order)
    && (forall i | 0 <= i < |order| :: order[i] in keys)
    && (forall k | k in keys :: k in order)
  }

  /** Two duplicate-free sequences with the same elements are permutations of each other. */
  lemma {:induction false} NoDupSameElements<T>(a: seq<T>, b: seq<T>)
    requires NoDup(a) && NoDup(b)
    requires forall x :: x in a <==> x in b
    ensures multiset(a) == multiset(b)
  {
    forall x
      ensures multiset(a)[x] == multiset(b)[x]
    {
      NoDupCount(a, x);
      NoDupCount(b, x);
    }
  }

  /** In a duplicate-free sequence every element occurs once. */
  lemma {:induction false} NoDupCount<T>(s: seq<T>, x: T)
    requires NoDup(s)
    ensures multiset(s)[x] == if x in s then 1 else 0
  {
    if |s| > 0 {
      assert s == [s[0]] + s[1..];
      assert NoDup(s[1..]) by {
        forall i, j | 0 <= i < j < |s[1..]|
          ensures s[1..][i] != s[1..][j]
        {
          assert s[1..][i] == s[i + 1] && s[1..][j] == s[j + 1];
        }
      }
      NoDupCount(s[1..], x);
      if s[0] == x {
        assert x !in s[1..] by {
          forall j | 0 <= j < |s[1..]|
            ensures s[1..][j] != x
          {
            assert s[1..][j] == s[j + 1];
          }
        }
      }
    }
  }
}
