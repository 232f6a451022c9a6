/** Python's statistics.median over int data and int() of the float it
    returns: the data are sorted, the middle element is taken for an odd
    count and the mean of the two middle elements for an even count. */
module Statistics {

  predicate Sorted(s: seq<int>) {
    forall i, j | 0 <= i < j < |s| :: s[i] <= s[j]
  }

  /** Inserts x before the first element not below it. */
  function Insert(x: int, s: seq<int>): seq<int> {
    if s == [] || x <= s[0] then [x] + s
    else [s[0]] + Insert(x, s[1..])
  }

  /** Inserting adds exactly x. */
  lemma {:induction false} InsertPermutes(x: int, s: seq<int>)
    ensures multiset(Insert(x, s)) == multiset(s) + multiset{x}
  {
    if s != [] && x > s[0] {
      InsertPermutes(x, s[1..]);
      assert s == [s[0]] + s[1..];
    }
  }

  /** A sequence is sorted when its head is at most every later element
      and its tail is sorted. */
  lemma SortedCons(y: int, t: seq<int>)
    requires Sorted(t) && forall k | 0 <= k < |t| :: y <= t[k]
    ensures Sorted([y] + t)
  {
    var r := [y] + t;
    forall i, j | 0 <= i < j < |r| ensures r[i] <= r[j] {
      assert r[j] == t[j - 1];
      if i > 0 {
        assert r[i] == t[i - 1];
      }
    }
  }

  /** Inserting into a sorted sequence keeps it sorted. */
  lemma {:induction false} InsertSorted(x: int, s: seq<int>)
    requires Sorted(s)
    ensures Sorted(Insert(x, s))
  {
    if s == [] || x <= s[0] {
      SortedCons(x, s);
    } else {
      var t := Insert(x, s[1..]);
      assert Sorted(s[1..]);
      InsertSorted(x, s[1..]);
      InsertPermutes(x, s[1..]);
      forall k | 0 <= k < |t| ensures s[0] <= t[k] {
        assert t[k] in multiset(s[1..]) + multiset{x};
        if t[k] != x {
          var m :| 0 <= m < |s[1..]| && s[1..][m] == t[k];
          assert s[m + 1] == t[k];
        }
      }
      SortedCons(s[0], t);
    }
  }

  /** sorted(data): an ascending permutation of the data. */
  function Sort(s: seq<int>): (r: seq<int>)
    ensures Sorted(r) && multiset(r) == multiset(s)
  {
    if s == [] then []
    else
      assert s == [s[0]] + s[1..];
      var t := Sort(s[1..]);
      InsertSorted(s[0], t);
      InsertPermutes(s[0], t);
      Insert(s[0], t)
  }

  /** The head of a sorted sequence is its least element. */
  lemma SortedHeadLeast(a: seq<int>, v: int)
    requires Sorted(a) && v in multiset(a)
    ensures |a| > 0 && a[0] <= v
  {
    var i :| 0 <= i < |a| && a[i] == v;
  }

  lemma SortedTail(a: seq<int>)
    requires Sorted(a) && |a| > 0
    ensures Sorted(a[1..]) && multiset(a[1..]) == multiset(a) - multiset{a[0]}
  {
    assert a == [a[0]] + a[1..];
  }

  /** Two non-empty sorted sequences with the same elements share their
      head, and their tails have the same elements. */
  lemma SortedSameHead(a: seq<int>, b: seq<int>)
    requires Sorted(a) && Sorted(b) && multiset(a) == multiset(b) && a != []
    ensures b != [] && a[0] == b[0]
    ensures Sorted(a[1..]) && Sorted(b[1..]) && multiset(a[1..]) == multiset(b[1..])
  {
    assert a[0] in multiset(a);
    SortedHeadLeast(b, a[0]);
    assert b[0] in multiset(b);
    SortedHeadLeast(a, b[0]);
    SortedTail(a);
    SortedTail(b);
  }

  /** Two sorted sequences with the same elements are equal. */
  lemma {:induction false} SortedUnique(a: seq<int>, b: seq<int>)
    requires Sorted(a) && Sorted(b) && multiset(a) == multiset(b)
    ensures a == b
  {
    if a == [] {
      assert |b| == |multiset(b)| == 0;
    } else {
      SortedSameHead(a, b);
      SortedUnique(a[1..], b[1..]);
      assert a == [a[0]] + a[1..];
      assert b == [b[0]] + b[1..];
    }
  }

  /** statistics.median on a non-empty list of ints (an exact real here). */
  function Median(data: seq<int>): (m: real)
    requires |data| > 0
    ensures exists i | 0 <= i < |data| :: data[i] as real <= m
    ensures exists j | 0 <= j < |data| :: m <= data[j] as real
  {
    var s := Sort(data);
    var n := |s|;
    SortLength(data);
    if n % 2 == 1 then
      Between(data, n / 2, n / 2, s[n / 2] as real);
      s[n / 2] as real
    else
      var lo, hi := s[n / 2 - 1], s[n / 2];
      assert lo <= hi;
      Between(data, n / 2 - 1, n / 2, (lo + hi) as real / 2.0);
      (lo + hi) as real / 2.0
  }

  lemma SortLength(data: seq<int>)
    ensures |Sort(data)| == |data|
  {
    assert |multiset(Sort(data))| == |multiset(data)|;
  }

  /** A value between two elements of the sorted list is at least one of
      the data and at most one of the data. */
  lemma Between(data: seq<int>, lo: nat, hi: nat, m: real)
    requires lo <= hi < |Sort(data)|
    requires Sort(data)[lo] as real <= m <= Sort(data)[hi] as real
    ensures exists i | 0 <= i < |data| :: data[i] as real <= m
    ensures exists j | 0 <= j < |data| :: m <= data[j] as real
  {
    SortedIn(data, lo);
    SortedIn(data, hi);
  }

  /** Every element of the sorted list is one of the data. */
  lemma SortedIn(data: seq<int>, k: nat)
    requires k < |Sort(data)|
    ensures exists i | 0 <= i < |data| :: data[i] == Sort(data)[k]
  {
    assert Sort(data)[k] in multiset(data);
  }

  /** int() of a float: truncation toward zero. */
  function Truncate(x: real): (r: int)
    ensures x >= 0.0 ==> r as real <= x < r as real + 1.0
    ensures x < 0.0 ==> r as real - 1.0 < x <= r as real
  {
    if x >= 0.0 then x.Floor else -((-x).Floor)
  }

  /** The median depends only on the values, not on the order in which
      they are listed. */
  lemma MedianOrderIndependent(a: seq<int>, b: seq<int>)
    requires |a| > 0 && multiset(a) == multiset(b)
    ensures |b| > 0 && Median(a) == Median(b)
  {
    assert |b| == |a| by { assert |multiset(a)| == |multiset(b)|; }
    SortedUnique(Sort(a), Sort(b));
  }

  /** The median lies between any bounds that hold of every value. */
  lemma MedianBounds(data: seq<int>, lo: int, hi: int)
    requires |data| > 0
    requires forall i | 0 <= i < |data| :: lo <= data[i] <= hi
    ensures lo as real <= Median(data) <= hi as real
  {
    var s := Sort(data);
    forall k | 0 <= k < |s| ensures lo <= s[k] <= hi {
      assert s[k] in multiset(data);
    }
  }

  /** Truncating a real that lies between two integers stays between them. */
  lemma TruncateBounds(x: real, lo: int, hi: int)
    requires lo as real <= x <= hi as real
    ensures lo <= Truncate(x) <= hi
  {
  }
}
