/**
  The object-set of headers/core/IOSet.h: a vector of object ids with a domain id,
  a marked flag and a quality. Algorithms keep the vector strictly ascending so
  that the linear-time set operations of module SetOps apply.
 */
module IOSets {

  /** Strictly ascending: the form every set operation assumes. */
  predicate Sorted(s: seq<nat>)
  {
    forall i, j :: 0 <= i < j < |s| ==> s[i] < s[j]
  }

  /** Non-decreasing: what Sort establishes (an IOSet may hold repeated ids). */
  predicate Ascending(s: seq<nat>)
  {
    forall i, j :: 0 <= i < j < |s| ==> s[i] <= s[j]
  }

  /** The value of an IOSet as it sits inside an n-cluster: its id and its elements. */
  datatype ObjSet = ObjSet(id: int, items: seq<nat>)

  /** Places x in front of the first element not below it. */
  function InsertAscending(s: seq<nat>, x: nat): seq<nat>
  {
    if s == [] || x <= s[0] then [x] + s
    else [s[0]] + InsertAscending(s[1..], x)
  }

  /** Inserting adds exactly one copy of x and loses nothing. */
  lemma {:induction false} InsertAscendingPerm(s: seq<nat>, x: nat)
    ensures multiset(InsertAscending(s, x)) == multiset(s) + multiset{x}
  {
    if s != [] && x > s[0] {
      InsertAscendingPerm(s[1..], x);
      assert s == [s[0]] + s[1..];
    }
  }

  /** Inserting into an ascending sequence keeps it ascending. */
  lemma {:induction false} InsertAscendingMeaning(s: seq<nat>, x: nat)
    requires Ascending(s)
    ensures Ascending(InsertAscending(s, x))
  {
    if s == [] || x <= s[0] {
      forall y | y in s ensures x <= y {
        var k :| 0 <= k < |s| && s[k] == y;
      }
      AscendingCons(x, s);
    } else {
      var tail := InsertAscending(s[1..], x);
      InsertAscendingMeaning(s[1..], x);
      InsertAscendingPerm(s[1..], x);
      forall y | y in tail ensures s[0] <= y {
        assert y in multiset(tail);
        if y != x {
          assert y in multiset(s[1..]);
          var k :| 0 <= k < |s[1..]| && s[1..][k] == y;
          assert s[k + 1] == y;
        }
      }
      AscendingCons(s[0], tail);
    }
  }

  /** An element not above any element of an ascending sequence can lead it. */
  lemma AscendingCons(x: nat, t: seq<nat>)
    requires Ascending(t) && forall y :: y in t ==> x <= y
    ensures Ascending([x] + t)
  {
    forall i, j | 0 <= i < j < |[x] + t| ensures ([x] + t)[i] <= ([x] + t)[j] {
      if i > 0 {
        assert ([x] + t)[i] == t[i - 1] && ([x] + t)[j] == t[j - 1];
      } else {
        assert t[j - 1] in t;
      }
    }
  }

  class IOSet {
    var d: seq<nat>
    var id: int
    var marked: bool
    var quality: real

    /** IOSet(): an empty set with id 0. */
    constructor ()
      ensures d == [] && id == 0 && !marked && quality == 0.0
    {
      d, id, marked, quality := [], 0, false, 0.0;
    }

    /** The copy constructor IOSet(IOSet *a). */
    constructor Copy(a: IOSet)
      ensures d == a.d && id == a.id && marked == a.marked && quality == a.quality
    {
      d, id, marked, quality := a.d, a.id, a.marked, a.quality;
    }

    function Value(): ObjSet
      reads this
    {
      ObjSet(id, d)
    }

    function Size(): nat
      reads this
    {
      |d|
    }

    function At(i: nat): nat
      reads this
      requires i < |d|
    {
      d[i]
    }

    method SetId(x: int)
      modifies this
      ensures id == x && d == old(d) && marked == old(marked) && quality == old(quality)
    {
      id := x;
    }

    method SetMarked(m: bool)
      modifies this
      ensures marked == m && d == old(d) && id == old(id) && quality == old(quality)
    {
      marked := m;
    }

    method SetQuality(q: real)
      modifies this
      ensures quality == q && d == old(d) && id == old(id) && marked == old(marked)
    {
      quality := q;
    }

    /** Add(x): appends x, growing the size by one. */
    method Add(x: nat)
      modifies this
      ensures d == old(d) + [x]
      ensures id == old(id) && marked == old(marked) && quality == old(quality)
    {
      d := d + [x];
    }

    /** Equal: same size and the same elements in the same order. */
    method Equal(a: IOSet) returns (r: bool)
      ensures r <==> |d| == |a.d| && forall k :: 0 <= k < |d| ==> d[k] == a.d[k]
    {
      if |d| != |a.d| {
        return false;
      }
      var k := 0;
      while k < |d|
        invariant 0 <= k <= |d|
        invariant forall m :: 0 <= m < k ==> d[m] == a.d[m]
      {
        if d[k] != a.d[k] {
          return false;
        }
        k := k + 1;
      }
      return true;
    }

    /** GetIndex(x): the first position of x, or -1 when x is absent. */
    method GetIndex(x: nat) returns (k: int)
      ensures -1 <= k < |d|
      ensures k == -1 <==> x !in d
      ensures k >= 0 ==> d[k] == x && forall m :: 0 <= m < k ==> d[m] != x
    {
      var i := 0;
      while i < |d|
        invariant 0 <= i <= |d|
        invariant forall m :: 0 <= m < i ==> d[m] != x
      {
        if d[i] == x {
          return i;
        }
        i := i + 1;
      }
      return -1;
    }

    /** Contains(x) holds iff x occurs. */
    method Contains(x: nat) returns (r: bool)
      ensures r <==> x in d
    {
      var k := GetIndex(x);
      r := k != -1;
    }

    /** Remove(i): deletes the element at position i. */
    method Remove(i: nat)
      requires i < |d|
      modifies this
      ensures d == old(d)[..i] + old(d)[i + 1..]
      ensures id == old(id) && marked == old(marked) && quality == old(quality)
    {
      d := d[..i] + d[i + 1..];
    }

    /** FindRemove(x): deletes the first occurrence of x; no change when x is absent. */
    method FindRemove(x: nat)
      modifies this
      ensures x !in old(d) ==> d == old(d)
      ensures x in old(d) ==>
                (exists k :: 0 <= k < |old(d)| && old(d)[k] == x &&
                   (forall m :: 0 <= m < k ==> old(d)[m] != x) &&
                   d == old(d)[..k] + old(d)[k + 1..])
      ensures id == old(id) && marked == old(marked) && quality == old(quality)
    {
      var k := GetIndex(x);
      if k >= 0 {
        Remove(k);
      }
    }

    /** Sort: the same multiset of elements, in ascending order. */
    method Sort()
      modifies this
      ensures Ascending(d)
      ensures multiset(d) == multiset(old(d))
      ensures id == old(id) && marked == old(marked) && quality == old(quality)
    {
      var xs := d;
      var sorted: seq<nat> := [];
      var i := 0;
      while i < |xs|
        invariant 0 <= i <= |xs|
        invariant Ascending(sorted)
        invariant multiset(sorted) == multiset(xs[..i])
        invariant unchanged(this)
      {
        assert xs[..i + 1] == xs[..i] + [xs[i]];
        InsertAscendingMeaning(sorted, xs[i]);
        InsertAscendingPerm(sorted, xs[i]);
        sorted := InsertAscending(sorted, xs[i]);
        i := i + 1;
      }
      assert xs[..i] == xs;
      d := sorted;
    }

    /** Clear: size becomes 0. */
    method Clear()
      modifies this
      ensures d == []
      ensures id == old(id) && marked == old(marked) && quality == old(quality)
    {
      d := [];
    }

    /** DeepCopy(a): self takes a's elements and id. */
    method DeepCopy(a: IOSet)
      modifies this
      ensures d == old(a.d) && id == old(a.id)
      ensures marked == old(marked) && quality == old(quality)
    {
      d, id := a.d, a.id;
    }

    /** GetMaxElement: an element not below any other; -1 for the empty set. */
    method GetMaxElement() returns (m: int)
      ensures d == [] ==> m == -1
      ensures d != [] ==> m in d
      ensures forall k :: 0 <= k < |d| ==> d[k] <= m
    {
      m := -1;
      var i := 0;
      while i < |d|
        invariant 0 <= i <= |d|
        invariant i == 0 ==> m == -1
        invariant i > 0 ==> m in d[..i]
        invariant forall k :: 0 <= k < i ==> d[k] <= m
      {
        if d[i] > m {
          m := d[i];
        }
        i := i + 1;
      }
      assert i > 0 ==> d[..i] == d;
    }
  }
}
