/**
 `Array.prototype.sort` with a comparator that subtracts keys. The sort is stable and reads a NaN verdict as
 "equal" (section 23.1.3.30 of ECMA-262); which algorithm an engine runs cannot be told from the result.
 */
module StableSort {
  /** A sort key: a number or `Infinity`. */
  datatype Key = Fin(n: int) | Infinity

  datatype Difference = Number(n: int) | PlusInfinity | MinusInfinity | NaN

  function Minus(a: Key, b: Key): Difference {
    match (a, b)
    case (Fin(m), Fin(n)) => Number(m - n)
    case (Infinity, Fin(_)) => PlusInfinity
    case (Fin(_), Infinity) => MinusInfinity
    case (Infinity, Infinity) => NaN
  }

  /** The verdict the sort acts on: negative, zero or positive. */
  function Verdict(a: Key, b: Key): int {
    match Minus(a, b)
    case Number(n) => n
    case PlusInfinity => 1
    case MinusInfinity => -1
    case NaN => 0
  }

  predicate Le(a: Key, b: Key) { b.Infinity? || (a.Fin? && a.n <= b.n) }

  /** The comparator is a consistent weak order: the order of the keys, and equal only for equal keys. */
  lemma VerdictIsOrder(a: Key, b: Key, c: Key)
    ensures Verdict(a, b) <= 0 <==> Le(a, b)
    ensures Verdict(a, b) == 0 <==> a == b
    ensures Verdict(a, b) < 0 <==> Verdict(b, a) > 0
    ensures Verdict(a, b) <= 0 && Verdict(b, c) <= 0 ==> Verdict(a, c) <= 0
  {}

  function Insert<T>(x: T, s: seq<T>, key: T -> Key): (r: seq<T>)
    ensures |r| == |s| + 1
  {
    if s == [] then [x]
    else if Verdict(key(x), key(s[0])) <= 0 then [x] + s
    else [s[0]] + Insert(x, s[1..], key)
  }

  function Sort<T>(s: seq<T>, key: T -> Key): (r: seq<T>)
    ensures |r| == |s|
  {
    if s == [] then [] else Insert(s[0], Sort(s[1..], key), key)
  }

  ghost predicate Sorted<T>(s: seq<T>, key: T -> Key) {
    forall i, j | 0 <= i < j < |s| :: Le(key(s[i]), key(s[j]))
  }

  function WithKey<T>(s: seq<T>, key: T -> Key, k: Key): seq<T> {
    if s == [] then []
    else if key(s[0]) == k then [s[0]] + WithKey(s[1..], key, k)
    else WithKey(s[1..], key, k)
  }

  /** What the standard promises: the result is sorted and elements of equal key keep their order. */
  ghost predicate IsStableSort<T>(s: seq<T>, r: seq<T>, key: T -> Key) {
    Sorted(r, key) && forall k :: WithKey(r, key, k) == WithKey(s, key, k)
  }

  lemma {:induction false} InsertPermutes<T>(x: T, s: seq<T>, key: T -> Key)
    ensures multiset(Insert(x, s, key)) == multiset{x} + multiset(s)
    decreases |s|
  {
    if s != [] {
      assert s == [s[0]] + s[1..];
      if Verdict(key(x), key(s[0])) > 0 {
        InsertPermutes(x, s[1..], key);
      }
    }
  }

  lemma {:induction false} InsertSorts<T>(x: T, s: seq<T>, key: T -> Key)
    requires Sorted(s, key)
    ensures Sorted(Insert(x, s, key), key)
    decreases |s|
  {
    hide Verdict, Le;
    if s != [] {
      forall j | 0 <= j < |s| ensures Verdict(key(x), key(s[0])) <= 0 ==> Le(key(x), key(s[j])) {
        VerdictIsOrder(key(x), key(s[0]), key(s[j]));
        VerdictIsOrder(key(s[0]), key(s[j]), key(x));
        VerdictIsOrder(key(x), key(s[j]), key(x));
      }
      if Verdict(key(x), key(s[0])) > 0 {
        InsertSorts(x, s[1..], key);
        InsertAbove(x, s, key);
      }
    }
  }

  /** What is put behind the first element is no less than it. */
  lemma InsertAbove<T>(x: T, s: seq<T>, key: T -> Key)
    requires s != [] && Sorted(s, key) && Verdict(key(x), key(s[0])) > 0
    ensures var rest := Insert(x, s[1..], key); forall j | 0 <= j < |rest| :: Le(key(s[0]), key(rest[j]))
  {
    hide Verdict, Le;
    var rest := Insert(x, s[1..], key);
    VerdictIsOrder(key(x), key(s[0]), key(x));
    VerdictIsOrder(key(s[0]), key(x), key(x));
    InsertPermutes(x, s[1..], key);
    forall j | 0 <= j < |rest| ensures Le(key(s[0]), key(rest[j])) {
      assert rest[j] in multiset(rest);
      assert rest[j] == x || rest[j] in s[1..];
    }
  }

  lemma {:induction false} InsertWithKey<T>(x: T, s: seq<T>, key: T -> Key, k: Key)
    ensures WithKey(Insert(x, s, key), key, k) == if key(x) == k then [x] + WithKey(s, key, k) else WithKey(s, key, k)
    decreases |s|
  {
    if s != [] {
      if Verdict(key(x), key(s[0])) > 0 {
        InsertWithKey(x, s[1..], key, k);
        assert ([s[0]] + Insert(x, s[1..], key))[1..] == Insert(x, s[1..], key);
      } else {
        assert ([x] + s)[1..] == s;
      }
    }
  }

  lemma {:induction false} SortIsStable<T>(s: seq<T>, key: T -> Key)
    ensures IsStableSort(s, Sort(s, key), key) && multiset(Sort(s, key)) == multiset(s)
    decreases |s|
  {
    if s != [] {
      var rest := Sort(s[1..], key);
      SortIsStable(s[1..], key);
      assert s == [s[0]] + s[1..];
      InsertPermutes(s[0], rest, key);
      InsertSorts(s[0], rest, key);
      forall k ensures WithKey(Sort(s, key), key, k) == WithKey(s, key, k) {
        InsertWithKey(s[0], rest, key, k);
      }
    }
  }

  lemma {:induction false} WithKeyIn<T>(s: seq<T>, key: T -> Key, k: Key, x: T)
    ensures x in WithKey(s, key, k) <==> x in s && key(x) == k
    decreases |s|
  {
    if s != [] {
      WithKeyIn(s[1..], key, k, x);
      assert s == [s[0]] + s[1..];
    }
  }

  /** There is only one such result. */
  lemma {:induction false} StableSortUnique<T>(s: seq<T>, q: seq<T>, r: seq<T>, key: T -> Key)
    requires IsStableSort(s, q, key) && IsStableSort(s, r, key)
    ensures q == r
    decreases |q|
  {
    if q != [] {
      var k := key(q[0]);
      WithKeyIn(q, key, k, q[0]);
      WithKeyIn(r, key, k, q[0]);
      WithKeyIn(r, key, key(r[0]), r[0]);
      WithKeyIn(q, key, key(r[0]), r[0]);
      assert key(r[0]) == k;
      assert WithKey(q, key, k)[0] == q[0] && WithKey(r, key, k)[0] == r[0];
      forall j ensures WithKey(q[1..], key, j) == WithKey(r[1..], key, j) {
        TailWithKey(q, r, key, j);
      }
      StableSortUnique(q[1..], q[1..], r[1..], key);
    }
  }

  lemma TailWithKey<T>(q: seq<T>, r: seq<T>, key: T -> Key, k: Key)
    requires q != [] && r != [] && q[0] == r[0] && WithKey(q, key, k) == WithKey(r, key, k)
    ensures WithKey(q[1..], key, k) == WithKey(r[1..], key, k)
  {
    if key(q[0]) == k {
      assert WithKey(q, key, k)[1..] == WithKey(q[1..], key, k);
      assert WithKey(r, key, k)[1..] == WithKey(r[1..], key, k);
    }
  }

  // ---- Sorting twice ----

  ghost predicate LexSorted<T>(s: seq<T>, first: T -> Key, second: T -> Key) {
    forall i, j | 0 <= i < j < |s| ::
      Le(first(s[i]), first(s[j])) && (first(s[i]) == first(s[j]) ==> Le(second(s[i]), second(s[j])))
  }

  lemma {:induction false} WithKeySorted<T>(s: seq<T>, key: T -> Key, other: T -> Key, k: Key)
    requires Sorted(s, other)
    ensures Sorted(WithKey(s, key, k), other)
    decreases |s|
  {
    if s != [] {
      WithKeySorted(s[1..], key, other, k);
      var rest := WithKey(s[1..], key, k);
      forall j | 0 <= j < |rest| ensures Le(other(s[0]), other(rest[j])) {
        WithKeyIn(s[1..], key, k, rest[j]);
      }
    }
  }

  /** Two elements of the same key stand in the same order among those of that key. */
  lemma {:induction false} WithKeyOrder<T>(s: seq<T>, key: T -> Key, other: T -> Key, i: nat, j: nat)
    requires i < j < |s| && key(s[i]) == key(s[j]) && Sorted(WithKey(s, key, key(s[i])), other)
    ensures Le(other(s[i]), other(s[j]))
    decreases |s|
  {
    var k := key(s[i]);
    var rest := WithKey(s[1..], key, k);
    if i == 0 {
      WithKeyIn(s[1..], key, k, s[j]);
      assert s[1..][j - 1] == s[j];
      var n :| 0 <= n < |rest| && rest[n] == s[j];
      assert WithKey(s, key, k)[0] == s[i] && WithKey(s, key, k)[n + 1] == s[j];
    } else {
      assert forall n | 0 <= n < |rest| :: rest[n] == WithKey(s, key, k)[n + (if key(s[0]) == k then 1 else 0)];
      WithKeyOrder(s[1..], key, other, i - 1, j - 1);
    }
  }

  lemma {:induction false} WithKeysCommute<T>(s: seq<T>, f: T -> Key, g: T -> Key, j: Key, k: Key)
    ensures WithKey(WithKey(s, f, j), g, k) == WithKey(WithKey(s, g, k), f, j)
    decreases |s|
  {
    if s != [] {
      WithKeysCommute(s[1..], f, g, j, k);
      var a, b := WithKey(s[1..], f, j), WithKey(s[1..], g, k);
      assert ([s[0]] + a)[1..] == a && ([s[0]] + b)[1..] == b;
    }
  }

  /**
   Sorting by `second` and then by `first` orders by the pair, and elements equal in both keep the order they
   had before either sort.
   */
  lemma SortTwice<T>(s: seq<T>, first: T -> Key, second: T -> Key)
    ensures var r := Sort(Sort(s, second), first);
      && multiset(r) == multiset(s) && LexSorted(r, first, second)
      && forall j, k :: WithKey(WithKey(r, first, j), second, k) == WithKey(WithKey(s, first, j), second, k)
  {
    var u := Sort(s, second);
    var r := Sort(u, first);
    SortIsStable(s, second);
    SortIsStable(u, first);
    forall i, j | 0 <= i < j < |r| && first(r[i]) == first(r[j]) ensures Le(second(r[i]), second(r[j])) {
      WithKeySorted(u, first, second, first(r[i]));
      WithKeyOrder(r, first, second, i, j);
    }
    forall j, k ensures WithKey(WithKey(r, first, j), second, k) == WithKey(WithKey(s, first, j), second, k) {
      assert WithKey(r, first, j) == WithKey(u, first, j);
      WithKeysCommute(u, first, second, j, k);
      WithKeysCommute(s, first, second, j, k);
    }
  }
}
