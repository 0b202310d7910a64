/** Cardinalities of finite sets. */
module Counting {
  lemma {:induction false} Subset<T>(a: set<T>, b: set<T>)
    requires a <= b
    ensures |a| <= |b|
    ensures |a| == |b| ==> a == b
  {
    if a != {} {
      var x :| x in a;
      Subset(a - {x}, b - {x});
      assert a == (a - {x}) + {x} && b == (b - {x}) + {x};
    }
  }

  /** The first numbers, as a set. */
  lemma {:induction false} Range(n: nat) returns (r: set<nat>)
    ensures |r| == n && forall k :: k in r <==> 0 <= k < n
  {
    if n == 0 {
      r := {};
    } else {
      var shorter := Range(n - 1);
      r := shorter + {n - 1};
    }
  }
}
