/**
  `sort.Slice` by a 16-byte key. Go's sort is not stable but deterministic, so a sort is any function
  that returns a key-ordered permutation; stable insertion sort is one.
  */
module Sorting {
  import opened ByteStrings

  ghost predicate SortedBy<T>(key: T -> Id, s: seq<T>) {
    forall i, j :: 0 <= i < j < |s| ==> !Less(key(s[j]), key(s[i]))
  }

  ghost predicate Sorts<T(!new)>(key: T -> Id, sort: seq<T> -> seq<T>) {
    forall s :: SortedBy(key, sort(s)) && multiset(sort(s)) == multiset(s)
  }

  function Insert<T(==)>(key: T -> Id, x: T, s: seq<T>): (r: seq<T>)
    ensures multiset(r) == multiset([x]) + multiset(s)
  {
    if s == [] || !Less(key(s[0]), key(x)) then [x] + s
    else
      assert s == [s[0]] + s[1..];
      [s[0]] + Insert(key, x, s[1..])
  }

  lemma SortedCons<T>(key: T -> Id, x: T, s: seq<T>)
    ensures SortedBy(key, [x] + s) <==> (forall y :: y in s ==> !Less(key(y), key(x))) && SortedBy(key, s)
  {
    var xs := [x] + s;
    if SortedBy(key, xs) {
      forall i, j | 0 <= i < j < |s| ensures !Less(key(s[j]), key(s[i])) {
        assert xs[i + 1] == s[i] && xs[j + 1] == s[j];
      }
      forall y | y in s ensures !Less(key(y), key(x)) {
        var j :| 0 <= j < |s| && s[j] == y;
        assert xs[0] == x && xs[j + 1] == y;
      }
    }
  }

  lemma NotLessTransitive(a: Id, b: Id, c: Id)
    requires !Less(b, a) && !Less(c, b)
    ensures !Less(c, a)
  {
    LessTotal(a, b);
    if a != b && Less(c, a) {
      LessTransitive(c, a, b);
    }
  }

  lemma {:induction false} InsertSorts<T>(key: T -> Id, x: T, s: seq<T>)
    requires SortedBy(key, s)
    ensures SortedBy(key, Insert(key, x, s))
  {
    if s != [] {
      var first, rest := s[0], s[1..];
      assert s == [first] + rest;
      SortedCons(key, first, rest);
      if Less(key(first), key(x)) {
        InsertSorts(key, x, rest);
        var r := Insert(key, x, rest);
        forall y | y in r ensures !Less(key(y), key(first)) {
          assert y in multiset(r);
          if y == x && Less(key(x), key(first)) {
            LessTransitive(key(x), key(first), key(x));
            LessIrreflexive(key(x));
          }
        }
        SortedCons(key, first, r);
      } else {
        forall y | y in s ensures !Less(key(y), key(x)) {
          if y != first {
            NotLessTransitive(key(x), key(first), key(y));
          }
        }
        SortedCons(key, x, s);
      }
    }
  }

  function InsertionSort<T(==)>(key: T -> Id, s: seq<T>): (r: seq<T>)
    ensures SortedBy(key, r)
    ensures multiset(r) == multiset(s)
  {
    if s == [] then [] else
      assert s == [s[0]] + s[1..];
      var rest := InsertionSort(key, s[1..]);
      InsertSorts(key, s[0], rest);
      Insert(key, s[0], rest)
  }

  /** No two different elements share a key. */
  ghost predicate KeysIdentify<T(!new)>(key: T -> Id, s: seq<T>) {
    forall x, y :: x in s && y in s && key(x) == key(y) ==> x == y
  }

  lemma SameHead<T(!new)>(key: T -> Id, a: seq<T>, b: seq<T>)
    requires SortedBy(key, a) && SortedBy(key, b)
    requires multiset(a) == multiset(b)
    requires KeysIdentify(key, a)
    requires a != [] && b != []
    ensures a[0] == b[0]
  {
    assert a[0] in multiset(b) && b[0] in multiset(a);
    var i :| 0 <= i < |a| && a[i] == b[0];
    var j :| 0 <= j < |b| && b[j] == a[0];
    LessTotal(key(a[0]), key(b[0]));
  }

  lemma TailsPermute<T>(a: seq<T>, b: seq<T>)
    requires a != [] && b != [] && a[0] == b[0]
    requires multiset(a) == multiset(b)
    ensures multiset(a[1..]) == multiset(b[1..])
  {
    assert a == [a[0]] + a[1..] && b == [b[0]] + b[1..];
    assert multiset(a[1..]) == multiset(a) - multiset{a[0]};
    assert multiset(b[1..]) == multiset(b) - multiset{b[0]};
  }

  lemma {:induction false} SortedPermutationUnique<T(!new)>(key: T -> Id, a: seq<T>, b: seq<T>)
    requires SortedBy(key, a) && SortedBy(key, b)
    requires multiset(a) == multiset(b)
    requires KeysIdentify(key, a)
    ensures a == b
  {
    assert |multiset(a)| == |a| && |multiset(b)| == |b|;
    if a != [] {
      SameHead(key, a, b);
      TailsPermute(a, b);
      SortedPermutationUnique(key, a[1..], b[1..]);
      assert a == [a[0]] + a[1..] && b == [b[0]] + b[1..];
    }
  }

  // ------------------------------------------------------------ where a sort puts its elements

  function KeysOf<T>(key: T -> Id, s: seq<T>): (ks: seq<Id>)
    ensures |ks| == |s|
    ensures forall i :: 0 <= i < |s| ==> ks[i] == key(s[i])
  {
    seq(|s|, i requires 0 <= i < |s| => key(s[i]))
  }

  /** `at` puts every one of `n` elements somewhere. */
  ghost predicate Places(at: seq<nat>, n: nat) {
    && |at| == n
    && (forall m :: 0 <= m < n ==> at[m] < n)
    && (forall i :: 0 <= i < n ==> i in at)
  }

  /**
    `sort.Slice` sees nothing of the elements but the outcome of key comparisons, so where an element
    goes depends on the keys alone, be the sort stable or not.
    */
  ghost predicate PlacesByKeys<T(!new)>(key: T -> Id, sort: seq<T> -> seq<T>, place: seq<Id> -> seq<nat>) {
    forall s :: PlacedAt(sort(s), s, place(KeysOf(key, s)))
  }

  /** `sorted` holds the elements of `s`, taken from the places `at`. */
  ghost predicate PlacedAt<T>(sorted: seq<T>, s: seq<T>, at: seq<nat>) {
    Places(at, |s|) && |sorted| == |s| && forall m :: 0 <= m < |s| ==> sorted[m] == s[at[m]]
  }

  /** Two elements exchanged. */
  function Exchanged<T>(s: seq<T>, i: nat, j: nat): (t: seq<T>)
    requires i < j < |s|
    ensures |t| == |s| && t[i] == s[j] && t[j] == s[i]
    ensures forall k :: 0 <= k < |s| && k != i && k != j ==> t[k] == s[k]
  {
    s[i := s[j]][j := s[i]]
  }

  lemma ExchangedPermutes<T>(s: seq<T>, i: nat, j: nat)
    requires i < j < |s|
    ensures multiset(Exchanged(s, i, j)) == multiset(s)
  {
    var u := s[i := s[j]];
    assert multiset(u) == multiset(s) - multiset{s[i]} + multiset{s[j]};
    assert multiset(u[j := s[i]]) == multiset(u) - multiset{s[j]} + multiset{s[i]};
  }

  /** Exchanging two different elements with one key shows in the sorted result. */
  lemma ExchangeShows<T(!new)>(
    key: T -> Id, sort: seq<T> -> seq<T>, place: seq<Id> -> seq<nat>, s: seq<T>, i: nat, j: nat
  )
    requires PlacesByKeys(key, sort, place)
    requires i < j < |s| && s[i] != s[j] && key(s[i]) == key(s[j])
    ensures sort(s) != sort(Exchanged(s, i, j))
  {
    var t := Exchanged(s, i, j);
    SameKeys(key, s, i, j);
    var at := place(KeysOf(key, s));
    assert PlacedAt(sort(s), s, at) && PlacedAt(sort(t), t, at);
    DifferAt(sort(s), s, sort(t), t, at, i);
  }

  lemma DifferAt<T>(x: seq<T>, s: seq<T>, y: seq<T>, t: seq<T>, at: seq<nat>, i: nat)
    requires PlacedAt(x, s, at) && PlacedAt(y, t, at)
    requires i < |s| && s[i] != t[i]
    ensures x != y
  {
    assert i in at;
    var m :| 0 <= m < |at| && at[m] == i;
    assert x[m] == s[i] && y[m] == t[i];
  }

  lemma SameKeys<T>(key: T -> Id, s: seq<T>, i: nat, j: nat)
    requires i < j < |s| && key(s[i]) == key(s[j])
    ensures KeysOf(key, Exchanged(s, i, j)) == KeysOf(key, s)
  {
    var t := Exchanged(s, i, j);
    forall k | 0 <= k < |s|
      ensures key(t[k]) == key(s[k])
    {
    }
  }

  // ------------------------------------------------------------ insertion sort is such a sort

  function Mapped<S, T>(f: S -> T, s: seq<S>): (t: seq<T>)
    ensures |t| == |s| && forall i :: 0 <= i < |s| ==> t[i] == f(s[i])
  {
    seq(|s|, i requires 0 <= i < |s| => f(s[i]))
  }

  lemma MappedCons<S, T>(f: S -> T, x: S, s: seq<S>)
    ensures Mapped(f, [x] + s) == [f(x)] + Mapped(f, s)
  {
  }

  lemma {:induction false} InsertNatural<S, T>(key: T -> Id, index: S -> Id, f: S -> T, x: S, s: seq<S>)
    requires index(x) == key(f(x)) && forall y :: y in s ==> index(y) == key(f(y))
    ensures Mapped(f, Insert(index, x, s)) == Insert(key, f(x), Mapped(f, s))
  {
    MappedCons(f, x, s);
    if s != [] {
      assert s[0] in s && s == [s[0]] + s[1..];
      MappedCons(f, s[0], s[1..]);
      assert Mapped(f, s)[1..] == Mapped(f, s[1..]);
      if Less(index(s[0]), index(x)) {
        InsertNatural(key, index, f, x, s[1..]);
        MappedCons(f, s[0], Insert(index, x, s[1..]));
      }
    }
  }

  lemma {:induction false} SortNatural<S, T>(key: T -> Id, index: S -> Id, f: S -> T, s: seq<S>)
    requires forall y :: y in s ==> index(y) == key(f(y))
    ensures Mapped(f, InsertionSort(index, s)) == InsertionSort(key, Mapped(f, s))
  {
    if s != [] {
      SortNatural(key, index, f, s[1..]);
      assert Mapped(f, s)[1..] == Mapped(f, s[1..]);
      var rest := InsertionSort(index, s[1..]);
      forall y | y in rest
        ensures index(y) == key(f(y))
      {
        assert y in multiset(rest);
        assert y in s[1..];
      }
      assert s[0] in s;
      InsertNatural(key, index, f, s[0], rest);
    }
  }

  function KeyAt(ks: seq<Id>, i: nat): Id {
    if i < |ks| then ks[i] else Zeros(16)
  }

  function Range(n: nat): (s: seq<nat>)
    ensures |s| == n && forall i :: 0 <= i < n ==> s[i] == i
  {
    seq(n, i => i)
  }

  /** The places of insertion sort: the indices, sorted by the keys at them. */
  function InsertionPlaces(ks: seq<Id>): seq<nat> {
    InsertionSort((i: nat) => KeyAt(ks, i), Range(|ks|))
  }

  lemma RangePlaced(n: nat, at: seq<nat>)
    requires multiset(at) == multiset(Range(n))
    ensures Places(at, n)
  {
    assert |multiset(at)| == |multiset(Range(n))|;
    forall m | 0 <= m < |at|
      ensures at[m] < n
    {
      assert at[m] in multiset(Range(n));
    }
    forall i | 0 <= i < n
      ensures i in at
    {
      assert Range(n)[i] == i;
      assert i in multiset(at);
    }
  }

  lemma InsertionSortPlaces<T>(key: T -> Id, s: seq<T>)
    ensures PlacedAt(InsertionSort(key, s), s, InsertionPlaces(KeysOf(key, s)))
  {
    var ks := KeysOf(key, s);
    var at := InsertionPlaces(ks);
    RangePlaced(|s|, at);
    if s != [] {
      var index, f := (i: nat) => KeyAt(ks, i), (i: nat) => if i < |s| then s[i] else s[0];
      SortNatural(key, index, f, Range(|s|));
      assert Mapped(f, Range(|s|)) == s;
    }
  }
}
