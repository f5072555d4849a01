/** Sums of multisets, where the solver needs a hint. */
module Bags {

  lemma Swap<T>(a: multiset<T>, b: multiset<T>, c: multiset<T>)
    ensures a + b + c == a + c + b
  {
  }

  lemma Associate<T>(a: multiset<T>, b: multiset<T>, c: multiset<T>)
    ensures a + b + c == a + (b + c)
  {
  }

  lemma Unit<T>(a: multiset<T>)
    ensures a + multiset{} == a
  {
  }

  lemma Carry<T>(a: multiset<T>, x: multiset<T>, b: multiset<T>, y: multiset<T>, c: multiset<T>)
    requires a + x == b + y
    ensures a + c + x == b + c + y
  {
    Swap(a, c, x);
    Swap(b, c, y);
  }

  lemma Cancel<T(!new)>(a: multiset<T>, b: multiset<T>, x: multiset<T>)
    requires a + x == b + x
    ensures a == b
  {
    forall j: T
      ensures a[j] == b[j]
    {
      assert (a + x)[j] == (b + x)[j];
    }
  }
}
