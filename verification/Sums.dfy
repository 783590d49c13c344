/** Sums over finite sets. */
module Sums {
  ghost function Pick<T>(s: set<T>): (x: T)
    requires s != {}
    ensures x in s
  {
    var x :| x in s;
    x
  }

  ghost function Sum<T>(s: set<T>, f: T -> nat): nat {
    if s == {} then 0
    else
      var x := Pick(s);
      f(x) + Sum(s - {x}, f)
  }

  /** Any element may be taken out first. */
  lemma {:induction false} SumRemove<T>(s: set<T>, f: T -> nat, x: T)
    requires x in s
    ensures Sum(s, f) == f(x) + Sum(s - {x}, f)
  {
    var y := Pick(s);
    if y != x {
      SumRemove(s - {y}, f, x);
      SumRemove(s - {x}, f, y);
      assert s - {y} - {x} == s - {x} - {y};
    }
  }

  lemma SumAdd<T>(s: set<T>, f: T -> nat, x: T)
    requires x !in s
    ensures Sum(s + {x}, f) == f(x) + Sum(s, f)
  {
    SumRemove(s + {x}, f, x);
    assert s + {x} - {x} == s;
  }

  ghost predicate IsImage<T, U>(t: set<U>, s: set<T>, image: T -> U) {
    && (forall x | x in s :: image(x) in t)
    && (forall y | y in t :: exists x | x in s :: image(x) == y)
  }

  lemma ImageWithout<T, U>(s: set<T>, image: T -> U, t: set<U>, x: T)
    requires IsImage(t, s, image) && x in s
    requires forall y | y in s && image(y) == image(x) :: y == x
    ensures IsImage(t - {image(x)}, s - {x}, image)
  {
    forall y | y in t - {image(x)} ensures exists z | z in s - {x} :: image(z) == y {
      var z :| z in s && image(z) == y;
    }
  }

  /** A one-to-one image has as many elements, and the same sum if values agree. */
  lemma {:induction false} SumImage<T, U>(s: set<T>, f: T -> nat, image: T -> U, g: U -> nat, t: set<U>)
    requires forall x | x in s :: f(x) == g(image(x))
    requires forall x, y | x in s && y in s && image(x) == image(y) :: x == y
    requires IsImage(t, s, image)
    ensures Sum(s, f) == Sum(t, g) && |t| == |s|
  {
    if s == {} {
      assert t == {};
    } else {
      var x := Pick(s);
      var t' := t - {image(x)};
      ImageWithout(s, image, t, x);
      SumImage(s - {x}, f, image, g, t');
      assert t == t' + {image(x)};
      SumAdd(t', g, image(x));
    }
  }
}
