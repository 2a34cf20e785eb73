/** Facts about finite sets: sizes of subsets and the largest element of a set of numbers. */
module Sets {

  lemma SubsetSize<T>(a: set<T>, b: set<T>)
    requires a <= b
    ensures |a| <= |b|
  {
    assert b == a + (b - a);
  }

  predicate IsMax(s: set<nat>, m: nat) {
    m in s && forall y :: y in s ==> y <= m
  }

  lemma {:induction false} MaxExists(s: set<nat>)
    requires s != {}
    ensures exists m :: IsMax(s, m)
  {
    var x :| x in s;
    if s == {x} {
      assert IsMax(s, x);
    } else {
      var rest := s - {x};
      assert s == rest + {x};
      MaxExists(rest);
      var m :| IsMax(rest, m);
      assert IsMax(s, if m < x then x else m);
    }
  }

  function MaxOf(s: set<nat>): (m: nat)
    requires s != {}
    ensures IsMax(s, m)
  {
    MaxExists(s);
    var m :| IsMax(s, m);
    m
  }
}
