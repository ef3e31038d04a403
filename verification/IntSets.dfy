/** Finite sets of ids. */
module IntSets {

  lemma EmptyOrNot(s: set<int>)
    ensures s == {} || exists n :: n in s
  {
    if forall n :: n !in s {
      assert s == {};
    }
  }

  lemma Member(s: set<int>) returns (n: int)
    requires s != {}
    ensures n in s
  {
    EmptyOrNot(s);
    n :| n in s;
  }

  lemma SubsetSize(a: set<int>, b: set<int>)
    requires a <= b
    ensures |a| <= |b| && (|a| == |b| ==> a == b)
  {
    assert b == a + (b - a);
    assert |b| == |a| + |b - a|;
  }

  lemma SingletonSize(s: set<int>, n: int)
    requires n in s && forall m :: m in s ==> m == n
    ensures |s| == 1
  {
    if forall m :: m in s <==> m in {n} {
      assert s == {n};
    }
  }

  lemma OnlyOne(s: set<int>)
    requires |s| == 1
    ensures exists n :: n in s
    ensures forall a, b :: a in s && b in s ==> a == b
  {
    EmptyOrNot(s);
    forall a, b | a in s && b in s ensures a == b {
      SubsetSize({a}, s);
    }
  }

  lemma {:induction false} SetBelow(s: set<int>, n: nat)
    requires forall x :: x in s ==> 0 <= x < n
    ensures |s| <= n
  {
    if n > 0 {
      var rest := s - {n - 1};
      SetBelow(rest, n - 1);
      assert s <= rest + {n - 1};
      SubsetSize(s, rest + {n - 1});
    } else {
      EmptyOrNot(s);
    }
  }
}
