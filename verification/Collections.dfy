/** Sequences in reverse, and maps compared key by key. */
module Collections {

  function Reversed<T>(s: seq<T>): (r: seq<T>)
    ensures |r| == |s|
  {
    if s == [] then [] else Reversed(s[1..]) + [s[0]]
  }

  lemma {:induction false} ReversedPush<T>(s: seq<T>, x: T)
    ensures Reversed(s + [x]) == [x] + Reversed(s)
    decreases |s|
  {
    if s == [] {
      assert s + [x] == [x] && [x][1..] == [];
    } else {
      assert (s + [x])[1..] == s[1..] + [x];
      ReversedPush(s[1..], x);
    }
  }

  predicate AgreeAt<K(==), V(==)>(a: map<K, V>, b: map<K, V>, k: K) {
    (k in a <==> k in b) && (k in a ==> a[k] == b[k])
  }

  lemma SameMap<K(!new), V>(a: map<K, V>, b: map<K, V>)
    ensures (forall k :: AgreeAt(a, b, k)) ==> a == b
  {
    if forall k :: AgreeAt(a, b, k) {
      forall k | k in a ensures k in b && b[k] == a[k] {
        assert AgreeAt(a, b, k);
      }
      forall k | k in b ensures k in a {
        assert AgreeAt(a, b, k);
      }
      assert a == b;
    }
  }
}
