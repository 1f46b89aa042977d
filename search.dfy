/**
 * Ordered code-point sequences: the lower-bound position that Go's
 * `sort.Search` finds with the predicate `s[i] >= r`, a generic model of
 * `sort.Search` itself, and the ascending enumeration of a finite set that
 * `sort.Slice` on unique keys produces.
 */
module Search {

  ghost predicate StrictlyAscending(s: seq<int>)
  {
    forall i, j :: 0 <= i < j < |s| ==> s[i] < s[j]
  }

  /**
   * The first position whose element is at least `r`; on an ascending
   * sequence this is what `sort.Search(len(s), func(i) { return s[i] >= r })`
   * returns.
   */
  function LowerBound(s: seq<int>, r: int): (k: nat)
    ensures k <= |s|
    ensures forall i :: 0 <= i < k ==> s[i] < r
    ensures k < |s| ==> s[k] >= r
  {
    if s == [] || s[0] >= r then 0 else 1 + LowerBound(s[1..], r)
  }

  /** On a strictly ascending sequence the lower bound of a member is its position. */
  lemma {:induction false} LowerBoundFinds(s: seq<int>, i: nat)
    requires StrictlyAscending(s) && i < |s|
    ensures LowerBound(s, s[i]) == i
  {
  }

  /** A lower bound that does not land on `r` means `r` is absent. */
  lemma {:induction false} LowerBoundMisses(s: seq<int>, r: int)
    ensures StrictlyAscending(s) && (LowerBound(s, r) == |s| || s[LowerBound(s, r)] != r) ==> r !in s
  {
    if StrictlyAscending(s) && r in s {
      var i :| 0 <= i < |s| && s[i] == r;
      LowerBoundFinds(s, i);
    }
  }

  /**
   * Go's `sort.Search(n, f)`: a binary search for the smallest index in
   * [0, n) at which the monotone predicate `f` holds, or `n` if none does.
   */
  method SortSearch(n: nat, f: int -> bool) returns (i: nat)
    requires forall a, b :: 0 <= a <= b < n && f(a) ==> f(b)
    ensures i <= n
    ensures forall j :: 0 <= j < i ==> !f(j)
    ensures i < n ==> f(i)
  {
    var lo, hi := 0, n;
    while lo < hi
      invariant 0 <= lo <= hi <= n
      invariant forall j :: 0 <= j < lo ==> !f(j)
      invariant hi < n ==> f(hi)
    {
      var h := lo + (hi - lo) / 2;
      if !f(h) {
        lo := h + 1;
      } else {
        hi := h;
      }
    }
    i := lo;
  }

  /** Placing `r` at its lower bound keeps a strictly ascending sequence strictly ascending. */
  lemma {:induction false} InsertAscending(t: seq<int>, idx: nat, r: int)
    requires StrictlyAscending(t) && idx <= |t|
    requires forall j :: 0 <= j < idx ==> t[j] < r
    requires idx < |t| ==> r < t[idx]
    ensures StrictlyAscending(t[..idx] + [r] + t[idx..])
  {
    var u := t[..idx] + [r] + t[idx..];
    forall i, j | 0 <= i < j < |u| ensures u[i] < u[j] {
      if j < idx {
        assert u[i] == t[i] && u[j] == t[j];
      } else if j == idx {
        assert u[i] == t[i];
      } else if i == idx {
        assert u[j] == t[j - 1] && t[idx] <= t[j - 1];
      } else if i < idx {
        assert u[i] == t[i] && u[j] == t[j - 1];
      } else {
        assert u[i] == t[i - 1] && u[j] == t[j - 1];
      }
    }
  }

  /** `m` is the least element of `s`. */
  predicate IsLeast(m: int, s: set<int>)
  {
    m in s && forall y :: y in s ==> m <= y
  }

  /** The least element of a nonempty finite set. */
  function MinOf(s: set<int>): (m: int)
    requires s != {}
    ensures IsLeast(m, s)
  {
    MinExists(s);
    var m :| IsLeast(m, s); m
  }

  lemma {:induction false} HasMember(s: set<int>)
    ensures s == {} || exists x :: x in s
  {
    if forall y :: y !in s {
      assert s == {};
    }
  }

  lemma {:induction false} MinExists(s: set<int>)
    requires s != {}
    ensures exists m :: IsLeast(m, s)
    decreases s
  {
    HasMember(s);
    var x :| x in s;
    var t := s - {x};
    if t == {} {
      assert IsLeast(x, s) by {
        forall y | y in s ensures x <= y {
          assert y == x || y in t;
        }
      }
    } else {
      MinExists(t);
      var z :| IsLeast(z, t);
      var m := if x < z then x else z;
      assert IsLeast(m, s) by {
        forall y | y in s ensures m <= y {
          if y != x { assert y in t; }
        }
      }
    }
  }

  /**
   * The elements of a finite set in ascending order: the order `sort.Slice`
   * with `key <` gives to the unique keys of a map.
   */
  function Ascending(s: set<int>): (r: seq<int>)
    ensures StrictlyAscending(r)
    ensures forall x :: x in r <==> x in s
    ensures |r| == |s|
    decreases |s|
  {
    if s == {} then []
    else
      var m := MinOf(s);
      var rest := Ascending(s - {m});
      assert forall i :: 0 <= i < |rest| ==> m < rest[i];
      [m] + rest
  }

  /** Two strictly ascending sequences with the same elements are equal. */
  lemma {:induction false} AscendingUnique(a: seq<int>, b: seq<int>)
    requires StrictlyAscending(a) && StrictlyAscending(b)
    requires forall x :: x in a <==> x in b
    ensures a == b
    decreases |a|
  {
    if a != [] { assert a[0] in a; }
    if b != [] { assert b[0] in b; }
    if a != [] {
      var j :| 0 <= j < |b| && b[j] == a[0];
      var i :| 0 <= i < |a| && a[i] == b[0];
      assert a[0] <= a[i] && b[0] <= b[j];
      forall x
        ensures x in a[1..] <==> x in b[1..]
      {
        if x in a[1..] {
          var k :| 1 <= k < |a| && a[k] == x;
          assert x != b[0] && x in b;
        }
        if x in b[1..] {
          var k :| 1 <= k < |b| && b[k] == x;
          assert x != a[0] && x in a;
        }
      }
      AscendingUnique(a[1..], b[1..]);
    }
  }
}
