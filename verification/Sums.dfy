/** Sums over finite sets. */
module Sums {

  ghost function SumOver<T>(s: set<T>, f: T -> int): int {
    if s == {} then 0 else var x :| x in s; f(x) + SumOver(s - {x}, f)
  }

  lemma Pick<T>(s: set<T>) returns (x: T)
    requires s != {}
    ensures x in s
  {
    x :| x in s;
  }

  /** Any element can be taken out first. */
  lemma {:induction false} SumRemove<T>(s: set<T>, x: T, f: T -> int)
    requires x in s
    ensures SumOver(s, f) == f(x) + SumOver(s - {x}, f)
  {
    var y :| y in s && SumOver(s, f) == f(y) + SumOver(s - {y}, f);
    if y != x {
      SumRemove(s - {y}, x, f);
      SumRemove(s - {x}, y, f);
      assert s - {y} - {x} == s - {x} - {y};
    }
  }

  lemma {:induction false} SumSame<T>(s: set<T>, f: T -> int, g: T -> int)
    requires forall x <- s :: f(x) == g(x)
    ensures SumOver(s, f) == SumOver(s, g)
  {
    if s != {} {
      var x :| x in s;
      SumRemove(s, x, f);
      SumRemove(s, x, g);
      SumSame(s - {x}, f, g);
    }
  }

  lemma {:induction false} SumZero<T>(s: set<T>, f: T -> int)
    requires forall x <- s :: f(x) == 0
    ensures SumOver(s, f) == 0
  {
    if s != {} {
      var x :| x in s;
      SumRemove(s, x, f);
      SumZero(s - {x}, f);
    }
  }
}
