/** Cardinalities of finite sets related by an injective function. */
module Counting {

  ghost predicate InjectiveOn<X(!new), Y>(f: X -> Y, s: set<X>) {
    forall x, y :: x in s && y in s && f(x) == f(y) ==> x == y
  }

  lemma {:induction false} InjectiveImageSize<X(!new), Y>(f: X -> Y, s: set<X>, image: set<Y>)
    requires InjectiveOn(f, s)
    requires image == set x | x in s :: f(x)
    ensures |image| == |s|
  {
    if s == {} {
      assert image == {};
    } else {
      var x :| x in s;
      var rest := set y | y in s - {x} :: f(y);
      assert image == rest + {f(x)};
      assert f(x) !in rest;
      InjectiveImageSize(f, s - {x}, rest);
    }
  }
}
