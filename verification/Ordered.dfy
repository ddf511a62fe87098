/** Rows ordered by a key of integers: what sorting leaves open, what it settles, and lists without repetition. */
module Ordered {

  /** A primary key of up to four integer columns, compared column by column. */
  datatype Key = Key(a: int, b: int, c: int, d: int)

  predicate Less(k: Key, l: Key) {
    k.a < l.a || (k.a == l.a && (k.b < l.b || (k.b == l.b && (k.c < l.c || (k.c == l.c && k.d < l.d)))))
  }

  /** Ascending, equal keys allowed: what sort.Slice guarantees. */
  predicate Ascending<R>(rows: seq<R>, key: R -> Key) {
    forall i, j | 0 <= i < j < |rows| :: !Less(key(rows[j]), key(rows[i]))
  }

  /** Strictly ascending: every key once. */
  predicate Sorted<R>(rows: seq<R>, key: R -> Key) {
    forall i, j | 0 <= i < j < |rows| :: Less(key(rows[i]), key(rows[j]))
  }

  /** Two rows of different positions have different keys. */
  predicate DistinctKeys<R>(rows: seq<R>, key: R -> Key) {
    forall i, j | 0 <= i < j < |rows| :: key(rows[i]) != key(rows[j])
  }

  /** Where x belongs in an ascending list: behind every row that is not greater. */
  method InsertionPoint<R>(sorted: seq<R>, x: R, key: R -> Key) returns (j: nat)
    requires Ascending(sorted, key)
    ensures j <= |sorted|
    ensures forall k | 0 <= k < j :: !Less(key(x), key(sorted[k]))
    ensures forall k | j <= k < |sorted| :: !Less(key(sorted[k]), key(x))
  {
    j := |sorted|;
    while j > 0 && Less(key(x), key(sorted[j - 1]))
      invariant 0 <= j <= |sorted|
      invariant forall k | j <= k < |sorted| :: !Less(key(sorted[k]), key(x))
    {
      j := j - 1;
    }
    if j > 0 {
      forall k | 0 <= k < j ensures !Less(key(x), key(sorted[k])) {
        assert k < j - 1 ==> !Less(key(sorted[j - 1]), key(sorted[k]));
      }
    }
  }

  lemma Insert<R>(sorted: seq<R>, x: R, j: nat, key: R -> Key)
    requires Ascending(sorted, key) && j <= |sorted|
    requires forall k | 0 <= k < j :: !Less(key(x), key(sorted[k]))
    requires forall k | j <= k < |sorted| :: !Less(key(sorted[k]), key(x))
    ensures Ascending(sorted[..j] + [x] + sorted[j..], key)
    ensures multiset(sorted[..j] + [x] + sorted[j..]) == multiset(sorted) + multiset{x}
  {
    hide Less;
    assert sorted == sorted[..j] + sorted[j..];
  }

  /** sort.Slice by key. */
  method SortBy<R>(rows: seq<R>, key: R -> Key) returns (sorted: seq<R>)
    ensures multiset(sorted) == multiset(rows)
    ensures Ascending(sorted, key)
  {
    hide Less;
    sorted := [];
    for i := 0 to |rows|
      invariant multiset(sorted) == multiset(rows[..i])
      invariant Ascending(sorted, key)
    {
      var j := InsertionPoint(sorted, rows[i], key);
      Insert(sorted, rows[i], j, key);
      assert rows[..i + 1] == rows[..i] + [rows[i]];
      sorted := sorted[..j] + [rows[i]] + sorted[j..];
    }
    assert rows[..|rows|] == rows;
  }

  lemma AscendingDistinct<R>(rows: seq<R>, key: R -> Key)
    requires Ascending(rows, key) && DistinctKeys(rows, key)
    ensures Sorted(rows, key)
  {
  }

  lemma SortedHasDistinctKeys<R>(rows: seq<R>, key: R -> Key)
    requires Sorted(rows, key)
    ensures DistinctKeys(rows, key)
  {
  }

  /** Two sorted blocks, every key of the first below every key of the second. */
  lemma SortedConcat<R>(a: seq<R>, b: seq<R>, key: R -> Key)
    requires Sorted(a, key) && Sorted(b, key)
    requires forall x, y | x in a && y in b :: Less(key(x), key(y))
    ensures Sorted(a + b, key)
  {
    hide Less;
  }

  /** A sequence of unmarked, then marked elements splits in only one way. */
  lemma SplitIsUnique<R>(a: seq<R>, b: seq<R>, a': seq<R>, b': seq<R>, marked: R -> bool)
    requires a + b == a' + b'
    requires forall i | 0 <= i < |a| :: !marked(a[i])
    requires forall i | 0 <= i < |a'| :: !marked(a'[i])
    requires forall i | 0 <= i < |b| :: marked(b[i])
    requires forall i | 0 <= i < |b'| :: marked(b'[i])
    ensures a == a' && b == b'
  {
    var s := a + b;
    assert forall i | |a| <= i < |s| :: s[i] == b[i - |a|];
    assert forall i | |a'| <= i < |s| :: s[i] == b'[i - |a'|];
    assert forall i | 0 <= i < |a'| :: s[i] == a'[i];
    assert |a| < |s| ==> marked(s[|a|]);
    assert |a'| < |s| ==> marked(s[|a'|]);
    assert a == (a + b)[..|a|] && a' == (a' + b')[..|a|];
    assert b == (a + b)[|a|..] && b' == (a' + b')[|a|..];
  }

  lemma InMultiset<R>(a: seq<R>, b: seq<R>)
    requires multiset(a) == multiset(b)
    ensures |a| == |b|
    ensures forall x :: x in a <==> x in b
  {
    assert |multiset(a)| == |a| && |multiset(b)| == |b|;
    forall x ensures x in a <==> x in b {
      assert x in a <==> x in multiset(a);
      assert x in b <==> x in multiset(b);
    }
  }

  lemma Cancel<T>(a: multiset<T>, b: multiset<T>, x: T)
    requires a + multiset{x} == b + multiset{x}
    ensures a == b
  {
    assert a == a + multiset{x} - multiset{x};
  }

  lemma OneOut<T>(s: seq<T>, k: nat)
    requires k < |s|
    ensures multiset(s) == multiset(s[..k] + s[k + 1..]) + multiset{s[k]}
  {
    assert s == s[..k] + [s[k]] + s[k + 1..];
  }

  lemma LeastFirst<R>(a: seq<R>, b: seq<R>, key: R -> Key)
    requires Ascending(a, key) && Sorted(b, key) && multiset(a) == multiset(b) && a != []
    ensures b != [] && a[0] == b[0]
  {
    InMultiset(a, b);
    assert b[0] in a && a[0] in b;
    var k :| 0 <= k < |b| && b[k] == a[0];
    var l :| 0 <= l < |a| && a[l] == b[0];
    assert l == 0 || !Less(key(a[l]), key(a[0]));
  }

  lemma DropFirst<R>(a: seq<R>)
    requires a != []
    ensures multiset(a[1..]) == multiset(a) - multiset{a[0]}
  {
    assert a == [a[0]] + a[1..];
  }

  /** However a sort breaks ties, rows with a strictly sorted permutation sort into that permutation. */
  lemma {:induction false} SortIsUnique<R>(a: seq<R>, b: seq<R>, key: R -> Key)
    requires Ascending(a, key) && Sorted(b, key) && multiset(a) == multiset(b)
    ensures a == b
    decreases |a|
  {
    hide Less;
    InMultiset(a, b);
    if a != [] {
      LeastFirst(a, b, key);
      DropFirst(a);
      DropFirst(b);
      SortIsUnique(a[1..], b[1..], key);
      assert a == [a[0]] + a[1..] && b == [b[0]] + b[1..];
    }
  }

  /** Rows without repetition are determined as a multiset by which rows there are. */
  lemma {:induction false} SameRows<R>(a: seq<R>, b: seq<R>, key: R -> Key)
    requires DistinctKeys(a, key) && DistinctKeys(b, key)
    requires forall x :: x in a <==> x in b
    ensures multiset(a) == multiset(b)
  {
    forall x ensures multiset(a)[x] == multiset(b)[x] {
      OnceEach(a, key, x);
      OnceEach(b, key, x);
    }
  }

  lemma {:induction false} OnceEach<R>(a: seq<R>, key: R -> Key, x: R)
    requires DistinctKeys(a, key)
    ensures multiset(a)[x] == if x in a then 1 else 0
  {
    if a != [] {
      var n := |a| - 1;
      assert a == a[..n] + [a[n]];
      OnceEach(a[..n], key, x);
    }
  }

  lemma {:induction false} OnceEachElement<T>(a: seq<T>, x: T)
    requires NoRepeats(a)
    ensures multiset(a)[x] == if x in a then 1 else 0
  {
    if a != [] {
      var n := |a| - 1;
      assert a == a[..n] + [a[n]];
      OnceEachElement(a[..n], x);
    }
  }

  /** Lists without repetition that have the same elements are permutations of each other. */
  lemma SameElements<T>(a: seq<T>, b: seq<T>)
    requires NoRepeats(a) && NoRepeats(b)
    requires (forall i | 0 <= i < |a| :: a[i] in b) && forall i | 0 <= i < |b| :: b[i] in a
    ensures multiset(a) == multiset(b)
  {
    forall x ensures multiset(a)[x] == multiset(b)[x] {
      OnceEachElement(a, x);
      OnceEachElement(b, x);
    }
  }

  lemma Twice<R>(b: seq<R>, i: nat, j: nat)
    requires i < j < |b| && b[i] == b[j]
    ensures multiset(b)[b[i]] >= 2
  {
    assert b == b[..j] + [b[j]] + b[j + 1..];
    assert b[i] in b[..j];
  }

  /** Rows in another order have distinct keys exactly when the rows have. */
  lemma DistinctKeysPermute<R>(a: seq<R>, b: seq<R>, key: R -> Key)
    requires multiset(a) == multiset(b)
    ensures DistinctKeys(a, key) <==> DistinctKeys(b, key)
  {
    if DistinctKeys(a, key) {
      DistinctKeysOfPermutation(a, b, key);
    }
    if DistinctKeys(b, key) {
      DistinctKeysOfPermutation(b, a, key);
    }
  }

  lemma DistinctKeysOfPermutation<R>(a: seq<R>, b: seq<R>, key: R -> Key)
    requires multiset(a) == multiset(b) && DistinctKeys(a, key)
    ensures DistinctKeys(b, key)
  {
    InMultiset(a, b);
    forall i, j | 0 <= i < j < |b| ensures key(b[i]) != key(b[j]) {
      assert b[i] in a && b[j] in a;
      if b[i] == b[j] {
        Twice(b, i, j);
        OnceEach(a, key, b[i]);
        assert false;
      }
    }
  }

  /** Any two rows of different positions are apart. */
  predicate AllApart<R>(rows: seq<R>, apart: (R, R) -> bool) {
    forall i, j | 0 <= i < j < |rows| :: apart(rows[i], rows[j])
  }

  lemma {:induction false} TwoPlaces<R>(a: seq<R>, x: R) returns (i: nat, j: nat)
    requires multiset(a)[x] >= 2
    ensures i < j < |a| && a[i] == x && a[j] == x
  {
    var n := |a| - 1;
    assert a == a[..n] + [a[n]];
    if a[n] == x {
      j := n;
      assert x in multiset(a[..n]);
      assert x in a[..n];
      i :| 0 <= i < n && a[i] == x;
    } else {
      i, j := TwoPlaces(a[..n], x);
    }
  }

  /** Being pairwise apart does not depend on the order. */
  lemma AllApartPermute<R(!new)>(a: seq<R>, b: seq<R>, apart: (R, R) -> bool)
    requires multiset(a) == multiset(b) && AllApart(a, apart)
    requires forall x, y :: apart(x, y) ==> apart(y, x)
    ensures AllApart(b, apart)
  {
    InMultiset(a, b);
    forall i, j | 0 <= i < j < |b| ensures apart(b[i], b[j]) {
      assert b[i] in a && b[j] in a;
      if b[i] == b[j] {
        Twice(b, i, j);
        var k, l := TwoPlaces(a, b[i]);
      }
    }
  }

  function IntKey(n: int): Key {
    Key(n, 0, 0, 0)
  }

  predicate NoRepeats<T(==)>(s: seq<T>) {
    forall i, j | 0 <= i < j < |s| :: s[i] != s[j]
  }

  /** The keys of a map in the order an iteration happens to take. */
  method AnyOrder<T(==)>(keys: set<T>) returns (order: seq<T>)
    ensures forall v :: v in order <==> v in keys
    ensures NoRepeats(order) && |order| == |keys|
  {
    var rest := keys;
    order := [];
    while rest != {}
      invariant forall v :: v in keys <==> v in rest || v in order
      invariant forall v | v in order :: v !in rest
      invariant NoRepeats(order) && |order| + |rest| == |keys|
      decreases rest
    {
      var v :| v in rest;
      rest, order := rest - {v}, order + [v];
    }
  }

  /** The keys of a map, collected and sorted. */
  method SortedInts(keys: set<int>) returns (sorted: seq<int>)
    ensures forall v :: v in sorted <==> v in keys
    ensures forall i, j | 0 <= i < j < |sorted| :: sorted[i] < sorted[j]
    ensures |sorted| == |keys|
  {
    var collected := AnyOrder(keys);
    sorted := SortBy(collected, IntKey);
    InMultiset(sorted, collected);
    DistinctKeysPermute(sorted, collected, IntKey);
    AscendingDistinct(sorted, IntKey);
    forall i, j | 0 <= i < j < |sorted| ensures sorted[i] < sorted[j] {
      assert Less(IntKey(sorted[i]), IntKey(sorted[j]));
    }
  }
}
