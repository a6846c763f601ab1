/** Node names and finite sets of them.

    A name is the lower-cased form under which the case-insensitive set of the
    program stores it, so a case-insensitive set is a finite set of names. */
module Names {

  type Name = string

  /** Python's order on strings. */
  predicate Before(a: Name, b: Name) {
    b != "" && (a == "" || a[0] < b[0] || (a[0] == b[0] && Before(a[1..], b[1..])))
  }

  /** The order of the dictionary: at the first place where two names differ, or one of them ends. */
  lemma {:induction false} BeforeIff(a: Name, b: Name)
    ensures Before(a, b) <==>
            exists k :: 0 <= k <= |a| && k < |b| && a[..k] == b[..k] && (k == |a| || a[k] < b[k])
  {
    if Before(a, b) {
      if a == "" || a[0] < b[0] {
        assert a[..0] == b[..0];
      } else {
        BeforeIff(a[1..], b[1..]);
        var k :| 0 <= k <= |a[1..]| && k < |b[1..]| && a[1..][..k] == b[1..][..k] &&
                 (k == |a[1..]| || a[1..][k] < b[1..][k]);
        assert a[..k + 1] == [a[0]] + a[1..][..k] && b[..k + 1] == [b[0]] + b[1..][..k];
      }
    }
    if k :| 0 <= k <= |a| && k < |b| && a[..k] == b[..k] && (k == |a| || a[k] < b[k]) {
      if k > 0 {
        assert a[0] == a[..k][0] == b[..k][0] == b[0];
        assert a[1..][..k - 1] == a[..k][1..] && b[1..][..k - 1] == b[..k][1..];
        BeforeIff(a[1..], b[1..]);
      }
    }
  }

  lemma {:induction false} BeforeIsTotal(a: Name, b: Name)
    ensures a == b || Before(a, b) || Before(b, a)
  {
    if a != "" && b != "" && a[0] == b[0] {
      BeforeIsTotal(a[1..], b[1..]);
      assert a == [a[0]] + a[1..] && b == [b[0]] + b[1..];
    }
  }

  lemma {:induction false} BeforeIsAntisymmetric(a: Name, b: Name)
    requires Before(a, b)
    ensures a != b && !Before(b, a)
  {
    if a != "" && a[0] == b[0] {
      BeforeIsAntisymmetric(a[1..], b[1..]);
    }
  }

  lemma {:induction false} BeforeIsTransitive(a: Name, b: Name, c: Name)
    requires Before(a, b) && Before(b, c)
    ensures Before(a, c)
  {
    if a != "" && a[0] == b[0] == c[0] {
      BeforeIsTransitive(a[1..], b[1..], c[1..]);
    }
  }

  predicate IsFirst(x: Name, s: set<Name>) {
    x in s && forall y <- s :: y == x || Before(x, y)
  }

  lemma {:induction false} FirstExists(s: set<Name>)
    requires s != {}
    ensures exists x :: IsFirst(x, s)
    decreases |s|
  {
    var x :| x in s;
    if s == {x} {
      assert IsFirst(x, s);
    } else {
      FirstExists(s - {x});
      var y :| IsFirst(y, s - {x});
      BeforeIsTotal(x, y);
      if Before(x, y) {
        forall z <- s ensures z == x || Before(x, z) {
          if z != x && z != y { BeforeIsTransitive(x, y, z); }
        }
        assert IsFirst(x, s);
      } else {
        assert IsFirst(y, s);
      }
    }
  }

  lemma FirstIsUnique(s: set<Name>)
    ensures forall x, y :: IsFirst(x, s) && IsFirst(y, s) ==> x == y
  {
    forall x, y | IsFirst(x, s) && IsFirst(y, s) ensures x == y {
      if x != y { BeforeIsAntisymmetric(x, y); }
    }
  }

  /** `sorted(s)`: the elements of `s` in ascending order. */
  function Sorted(s: set<Name>): (r: seq<Name>)
    ensures |r| == |s|
    ensures forall x :: x in r <==> x in s
    ensures forall i, j :: 0 <= i < j < |r| ==> Before(r[i], r[j])
    decreases |s|
  {
    if s == {} then
      []
    else
      FirstExists(s);
      FirstIsUnique(s);
      var x :| IsFirst(x, s);
      [x] + Sorted(s - {x})
  }

  /** `xs[:k]`; a negative bound counts from the end. */
  function Slice<T>(xs: seq<T>, k: int): seq<T> {
    if k >= |xs| then xs
    else if k >= 0 then xs[..k]
    else if -k <= |xs| then xs[..|xs| + k]
    else []
  }

  function Reversed<T>(xs: seq<T>): (r: seq<T>)
    ensures |r| == |xs|
    ensures forall i :: 0 <= i < |xs| ==> r[i] == xs[|xs| - 1 - i]
  {
    if xs == [] then [] else Reversed(xs[1..]) + [xs[0]]
  }

  /** The set of `sorted(s)[:k]`. */
  function FirstOf(s: set<Name>, k: int): set<Name> {
    set x <- Slice(Sorted(s), k)
  }

  /** The set of `sorted(s, reverse=True)[:k]`. */
  function LastOf(s: set<Name>, k: int): set<Name> {
    set x <- Slice(Reversed(Sorted(s)), k)
  }

  lemma {:induction false} DistinctCount(xs: seq<Name>)
    requires forall i, j :: 0 <= i < j < |xs| ==> xs[i] != xs[j]
    ensures |(set x <- xs)| == |xs|
  {
    if xs != [] {
      DistinctCount(xs[1..]);
      assert (set x <- xs) == {xs[0]} + (set x <- xs[1..]);
    }
  }

  lemma SortedIsDistinct(s: set<Name>)
    ensures forall i, j :: 0 <= i < j < |s| ==> Sorted(s)[i] != Sorted(s)[j]
  {
    forall i, j | 0 <= i < j < |s| ensures Sorted(s)[i] != Sorted(s)[j] {
      BeforeIsAntisymmetric(Sorted(s)[i], Sorted(s)[j]);
    }
  }

  /** A slice of a duplicate-free sequence holds as many names as it is long. */
  lemma SliceCount(xs: seq<Name>, k: nat)
    requires forall i, j :: 0 <= i < j < |xs| ==> xs[i] != xs[j]
    ensures |(set x <- Slice(xs, k))| == if k < |xs| then k else |xs|
    ensures forall x <- Slice(xs, k) :: exists i :: 0 <= i < |xs| && i < k && xs[i] == x
    ensures forall i :: 0 <= i < |xs| && i < k ==> xs[i] in Slice(xs, k)
  {
    DistinctCount(Slice(xs, k));
    assert forall i :: 0 <= i < |xs| && i < k ==> Slice(xs, k)[i] == xs[i];
  }

  /** The `k` smallest names of `s`: as many as there are, and every one of them
      before every name that was passed over. */
  lemma FirstOfIsSmallest(s: set<Name>, k: nat)
    ensures FirstOf(s, k) <= s
    ensures |FirstOf(s, k)| == if k < |s| then k else |s|
    ensures forall x, y :: x in FirstOf(s, k) && y in s - FirstOf(s, k) ==> Before(x, y)
  {
    hide Sorted, Before;
    var r := Sorted(s);
    SortedIsDistinct(s);
    SliceCount(r, k);
    forall x | x in FirstOf(s, k) ensures x in s { assert x in r; }
    forall x, y | x in FirstOf(s, k) && y in s - FirstOf(s, k) ensures Before(x, y) {
      var i :| 0 <= i < |r| && i < k && r[i] == x;
      assert y in r;
      var j :| 0 <= j < |r| && r[j] == y;
    }
  }

  /** The `k` largest names of `s`. */
  lemma LastOfIsLargest(s: set<Name>, k: nat)
    ensures LastOf(s, k) <= s
    ensures |LastOf(s, k)| == if k < |s| then k else |s|
    ensures forall x, y :: x in LastOf(s, k) && y in s - LastOf(s, k) ==> Before(y, x)
  {
    hide Sorted, Reversed, Before;
    var up := Sorted(s);
    var r := Reversed(up);
    SortedIsDistinct(s);
    forall i, j | 0 <= i < j < |r| ensures r[i] != r[j] {
      assert up[|s| - 1 - j] != up[|s| - 1 - i];
    }
    SliceCount(r, k);
    forall x | x in LastOf(s, k) ensures x in s {
      var i :| 0 <= i < |r| && i < k && r[i] == x;
      assert up[|s| - 1 - i] in up;
    }
    forall x, y | x in LastOf(s, k) && y in s - LastOf(s, k) ensures Before(y, x) {
      var i :| 0 <= i < |r| && i < k && r[i] == x;
      assert y in up;
      var m :| 0 <= m < |up| && up[m] == y;
      assert r[|s| - 1 - m] == y;
    }
  }

  /** Sizes of a subset and of what it leaves. */
  lemma SubsetSize<T>(a: set<T>, b: set<T>)
    requires a <= b
    ensures |a| <= |b| && |b - a| == |b| - |a|
    ensures |a| == |b| ==> a == b
  {
    assert a * b == a;
    if |a| == |b| {
      assert |b - a| == 0;
      assert b - a == {};
    }
  }

  /** Two sets that are together larger than what holds them both share a member. */
  lemma Pigeonhole<T>(a: set<T>, b: set<T>, all: set<T>)
    requires a <= all && b <= all
    requires |a| + |b| > |all|
    ensures a * b != {}
  {
    SubsetSize(a + b, all);
  }
}
