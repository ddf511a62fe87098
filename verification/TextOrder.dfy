/** Texts in the order of Go's string comparison, ASCII lower case, and sorting rows by an order such as this one. */
module TextOrder {
  import opened Ordered

  predicate TextLess(a: string, b: string) {
    if a == "" || b == "" then a == "" && b != ""
    else a[0] < b[0] || (a[0] == b[0] && TextLess(a[1..], b[1..]))
  }

  lemma {:induction false} TextLessTotal(a: string, b: string)
    ensures a == b || TextLess(a, b) || TextLess(b, a)
    ensures !(TextLess(a, b) && TextLess(b, a)) && !(a == b && TextLess(a, b))
  {
    if a != "" && b != "" {
      TextLessTotal(a[1..], b[1..]);
      assert a == [a[0]] + a[1..] && b == [b[0]] + b[1..];
    }
  }

  lemma {:induction false} TextLessTransitive(a: string, b: string, c: string)
    requires TextLess(a, b) && TextLess(b, c)
    ensures TextLess(a, c)
    decreases |a|
  {
    if a != "" && b != "" && c != "" && a[0] == b[0] && b[0] == c[0] {
      TextLessTransitive(a[1..], b[1..], c[1..]);
    }
  }

  /** Being not before is transitive, and two texts are not before each other only when they are equal. */
  lemma NotBefore(x: string, y: string, z: string)
    ensures !TextLess(x, y) && !TextLess(y, z) ==> !TextLess(x, z) && (x == z ==> x == y)
  {
    TextLessTotal(x, y);
    TextLessTotal(y, z);
    TextLessTotal(x, z);
    if TextLess(z, y) && TextLess(y, x) {
      TextLessTransitive(z, y, x);
    }
  }

  function LowerChar(c: char): char {
    if 'A' <= c <= 'Z' then (c as int + 32) as char else c
  }

  /** strings.ToLower on ASCII letters. */
  function ToLower(s: string): (lower: string)
    ensures |lower| == |s|
  {
    if s == "" then "" else ToLower(s[..|s| - 1]) + [LowerChar(s[|s| - 1])]
  }

  /** Letter by letter: a capital becomes small, anything else stays. */
  lemma {:induction false} LowerReads(s: string, i: nat)
    requires i < |s|
    ensures 'A' <= s[i] <= 'Z' ==> ToLower(s)[i] as int == s[i] as int + 32
    ensures !('A' <= s[i] <= 'Z') ==> ToLower(s)[i] == s[i]
  {
    if i < |s| - 1 {
      LowerReads(s[..|s| - 1], i);
    }
  }

  /** The first difference decides, and a proper prefix comes first. */
  lemma {:induction false} FirstDifference(p: string, a: string, b: string)
    ensures TextLess(p + a, p + b) <==> TextLess(a, b)
    ensures a != "" && b != "" && a[0] < b[0] ==> TextLess(a, b)
    ensures a == "" && b != "" ==> TextLess(a, b)
  {
    if p == "" {
      assert p + a == a && p + b == b;
    } else {
      assert (p + a)[1..] == p[1..] + a && (p + b)[1..] == p[1..] + b;
      FirstDifference(p[1..], a, b);
    }
  }

  // ---------------------------------------------------------------------------------------------
  // Sorting with a comparison.
  // ---------------------------------------------------------------------------------------------

  /** What sort.Slice asks of its comparison. */
  ghost predicate WeakOrder<R(!new)>(before: (R, R) -> bool) {
    && (forall x, y :: before(x, y) ==> !before(y, x))
    && (forall x, y, z :: !before(x, y) && !before(y, z) ==> !before(x, z))
  }

  predicate AscendingBy<R>(rows: seq<R>, before: (R, R) -> bool) {
    forall i, j | 0 <= i < j < |rows| :: !before(rows[j], rows[i])
  }

  method SortWith<R(!new)>(rows: seq<R>, before: (R, R) -> bool) returns (sorted: seq<R>)
    requires WeakOrder(before)
    ensures multiset(sorted) == multiset(rows) && AscendingBy(sorted, before)
  {
    sorted := [];
    for i := 0 to |rows|
      invariant multiset(sorted) == multiset(rows[..i]) && AscendingBy(sorted, before)
    {
      var x := rows[i];
      var j := |sorted|;
      while j > 0 && before(x, sorted[j - 1])
        invariant 0 <= j <= |sorted|
        invariant forall k | j <= k < |sorted| :: before(x, sorted[k])
      {
        j := j - 1;
      }
      InPlace(sorted, x, j, before);
      InsertBy(sorted, x, j, before);
      assert rows[..i + 1] == rows[..i] + [x];
      sorted := sorted[..j] + [x] + sorted[j..];
    }
    assert rows[..|rows|] == rows;
  }

  lemma InPlace<R(!new)>(sorted: seq<R>, x: R, j: nat, before: (R, R) -> bool)
    requires WeakOrder(before) && AscendingBy(sorted, before) && j <= |sorted|
    requires j > 0 ==> !before(x, sorted[j - 1])
    requires forall k | j <= k < |sorted| :: before(x, sorted[k])
    ensures forall k | 0 <= k < j :: !before(x, sorted[k])
    ensures forall k | j <= k < |sorted| :: !before(sorted[k], x)
  {
    forall k | 0 <= k < j ensures !before(x, sorted[k]) {
      assert k < j - 1 ==> !before(sorted[j - 1], sorted[k]);
    }
  }

  lemma InsertBy<R>(sorted: seq<R>, x: R, j: nat, before: (R, R) -> bool)
    requires AscendingBy(sorted, before) && j <= |sorted|
    requires forall k | 0 <= k < j :: !before(x, sorted[k])
    requires forall k | j <= k < |sorted| :: !before(sorted[k], x)
    ensures AscendingBy(sorted[..j] + [x] + sorted[j..], before)
    ensures multiset(sorted[..j] + [x] + sorted[j..]) == multiset(sorted) + multiset{x}
  {
    assert sorted == sorted[..j] + sorted[j..];
  }

  /** Any two different rows are in one order or the other. */
  ghost predicate Separates<R(!new)>(rows: seq<R>, before: (R, R) -> bool) {
    forall x, y | x in rows && y in rows :: x == y || before(x, y) || before(y, x)
  }

  lemma SeparatesTail<R(!new)>(rows: seq<R>, before: (R, R) -> bool)
    requires Separates(rows, before) && rows != []
    ensures Separates(rows[1..], before)
  {
    assert forall x | x in rows[1..] :: x in rows;
  }

  lemma LeastFirstBy<R(!new)>(a: seq<R>, b: seq<R>, before: (R, R) -> bool)
    requires AscendingBy(a, before) && AscendingBy(b, before) && multiset(a) == multiset(b) && a != []
    requires Separates(a, before)
    ensures b != [] && a[0] == b[0]
  {
    InMultiset(a, b);
    assert a[0] in b && b[0] in a;
    var k :| 0 <= k < |b| && b[k] == a[0];
    var l :| 0 <= l < |a| && a[l] == b[0];
    assert !before(b[0], a[0]) || l == 0;
    assert !before(a[0], b[0]) || k == 0;
  }

  lemma AscendingTail<R>(rows: seq<R>, before: (R, R) -> bool)
    requires AscendingBy(rows, before) && rows != []
    ensures AscendingBy(rows[1..], before)
  {
  }

  /** Rows that the comparison tells apart have one sorted order only. */
  lemma {:induction false} SortWithIsUnique<R(!new)>(a: seq<R>, b: seq<R>, before: (R, R) -> bool)
    requires AscendingBy(a, before) && AscendingBy(b, before) && multiset(a) == multiset(b) && Separates(a, before)
    ensures a == b
    decreases |a|
  {
    hide Separates, AscendingBy;
    InMultiset(a, b);
    if a != [] {
      LeastFirstBy(a, b, before);
      DropFirst(a);
      DropFirst(b);
      AscendingTail(a, before);
      AscendingTail(b, before);
      SeparatesTail(a, before);
      SortWithIsUnique(a[1..], b[1..], before);
      assert a == [a[0]] + a[1..] && b == [b[0]] + b[1..];
    }
  }
}
