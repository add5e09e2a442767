/**
  The set algebra of headers/core/Ops.h. Each binary operation is the linear merge
  over two vectors; the merge is defined on any input, and its set-theoretic
  meaning holds when both inputs are strictly ascending (module IOSets.Sorted),
  which is what every caller keeps.
 */
module SetOps {
  import opened IOSets
  import opened Randomness

  /** Every element of a sorted sequence is at least its head. */
  lemma SortedHead(s: seq<nat>, x: nat)
    requires Sorted(s) && x in s
    ensures s[0] <= x
    ensures x != s[0] ==> x in s[1..]
  {
    var k :| 0 <= k < |s| && s[k] == x;
    if k > 0 {
      assert s[1..][k - 1] == x;
    }
  }

  /** The tail of a sorted sequence is sorted and misses the head. */
  lemma SortedTail(s: seq<nat>)
    requires Sorted(s) && s != []
    ensures Sorted(s[1..]) && s[0] !in s[1..]
    ensures forall x :: x in s[1..] ==> s[0] < x
  {
  }

  /** A sorted sequence stays sorted under a smaller head. */
  lemma SortedCons(x: nat, t: seq<nat>)
    requires Sorted(t) && forall y :: y in t ==> x < y
    ensures Sorted([x] + t)
  {
    forall i, j | 0 <= i < j < |[x] + t| ensures ([x] + t)[i] < ([x] + t)[j] {
      assert ([x] + t)[j] == t[j - 1];
      assert t[j - 1] in t;
      if i > 0 {
        assert ([x] + t)[i] == t[i - 1];
      }
    }
  }

  /** A sorted sequence stays sorted under a larger last element. */
  lemma SortedSnoc(t: seq<nat>, x: nat)
    requires Sorted(t) && forall y :: y in t ==> y < x
    ensures Sorted(t + [x])
  {
    forall i, j | 0 <= i < j < |t + [x]| ensures (t + [x])[i] < (t + [x])[j] {
      assert (t + [x])[i] == t[i];
      assert t[i] in t;
    }
  }

  /** The elements common to a and b. */
  function Intersect(a: seq<nat>, b: seq<nat>): (r: seq<nat>)
    ensures |r| <= |a| && |r| <= |b|
    ensures forall x :: x in r ==> x in a && x in b
    ensures Sorted(a) && Sorted(b) ==> Sorted(r) && forall x :: x in a && x in b ==> x in r
    decreases |a| + |b|
  {
    if a == [] || b == [] then
      []
    else if a[0] == b[0] then
      var t := Intersect(a[1..], b[1..]);
      assert Sorted(a) && Sorted(b) ==> Sorted([a[0]] + t) && forall x :: x in a && x in b ==> x in t || x == a[0] by {
        if Sorted(a) && Sorted(b) {
          forall x | x in a && x in b && x != a[0] ensures x in t {
            SortedHead(a, x);
            SortedHead(b, x);
          }
          SortedTail(a);
          SortedCons(a[0], t);
        }
      }
      assert forall x :: x in t ==> x in a[1..];
      [a[0]] + t
    else if a[0] < b[0] then
      var t := Intersect(a[1..], b);
      assert Sorted(a) && Sorted(b) ==> forall x :: x in a && x in b ==> x in t by {
        if Sorted(a) && Sorted(b) {
          forall x | x in a && x in b ensures x in t {
            SortedHead(a, x);
            SortedHead(b, x);
          }
        }
      }
      t
    else
      var t := Intersect(a, b[1..]);
      assert Sorted(a) && Sorted(b) ==> forall x :: x in a && x in b ==> x in t by {
        if Sorted(a) && Sorted(b) {
          forall x | x in a && x in b ensures x in t {
            SortedHead(a, x);
            SortedHead(b, x);
          }
        }
      }
      t
  }

  /** a - b: the elements of a that are not in b. */
  function Difference(a: seq<nat>, b: seq<nat>): (r: seq<nat>)
    ensures |r| <= |a|
    ensures forall x :: x in r ==> x in a
    ensures Sorted(a) && Sorted(b) ==> Sorted(r) && forall x :: x in r <==> x in a && x !in b
    decreases |a| + |b|
  {
    if a == [] then
      []
    else if b == [] then
      a
    else if a[0] == b[0] then
      var t := Difference(a[1..], b[1..]);
      assert Sorted(a) && Sorted(b) ==> forall x :: x in t <==> x in a && x !in b by {
        if Sorted(a) && Sorted(b) {
          forall x ensures x in t <==> x in a && x !in b {
            if x in a { SortedHead(a, x); }
            if x in b { SortedHead(b, x); }
          }
        }
      }
      t
    else if a[0] < b[0] then
      var t := Difference(a[1..], b);
      assert Sorted(a) && Sorted(b) ==> Sorted([a[0]] + t) && forall x :: x in [a[0]] + t <==> x in a && x !in b by {
        if Sorted(a) && Sorted(b) {
          forall x ensures x in [a[0]] + t <==> x in a && x !in b {
            if x in a { SortedHead(a, x); }
            if x in b { SortedHead(b, x); }
          }
          SortedTail(a);
          SortedCons(a[0], t);
        }
      }
      assert forall x :: x in t ==> x in a[1..];
      [a[0]] + t
    else
      var t := Difference(a, b[1..]);
      assert Sorted(a) && Sorted(b) ==> forall x :: x in t <==> x in a && x !in b by {
        if Sorted(a) && Sorted(b) {
          forall x ensures x in t <==> x in a && x !in b {
            if x in a { SortedHead(a, x); }
            if x in b { SortedHead(b, x); }
          }
        }
      }
      t
  }

  /** The elements in either input. */
  function Union(a: seq<nat>, b: seq<nat>): (r: seq<nat>)
    ensures forall x :: x in r <==> x in a || x in b
    ensures Sorted(a) && Sorted(b) ==> Sorted(r)
    decreases |a| + |b|
  {
    if a == [] then
      b
    else if b == [] then
      a
    else if a[0] == b[0] then
      var t := Union(a[1..], b[1..]);
      assert Sorted(a) && Sorted(b) ==> Sorted([a[0]] + t) by {
        if Sorted(a) && Sorted(b) {
          SortedTail(a);
          SortedTail(b);
          SortedCons(a[0], t);
        }
      }
      [a[0]] + t
    else if a[0] < b[0] then
      var t := Union(a[1..], b);
      assert Sorted(a) && Sorted(b) ==> Sorted([a[0]] + t) by {
        if Sorted(a) && Sorted(b) {
          SortedTail(a);
          forall x | x in t ensures a[0] < x {
            if x in b { SortedHead(b, x); }
          }
          SortedCons(a[0], t);
        }
      }
      [a[0]] + t
    else
      var t := Union(a, b[1..]);
      assert Sorted(a) && Sorted(b) ==> Sorted([b[0]] + t) by {
        if Sorted(a) && Sorted(b) {
          SortedTail(b);
          forall x | x in t ensures b[0] < x {
            if x in a { SortedHead(a, x); }
          }
          SortedCons(b[0], t);
        }
      }
      [b[0]] + t
  }

  /** The elements in exactly one of the inputs. */
  function SymmDifference(a: seq<nat>, b: seq<nat>): (r: seq<nat>)
    ensures forall x :: x in r ==> x in a || x in b
    ensures Sorted(a) && Sorted(b) ==> Sorted(r) && forall x :: x in r <==> (x in a <==> x !in b)
    decreases |a| + |b|
  {
    if a == [] then
      b
    else if b == [] then
      a
    else if a[0] == b[0] then
      var t := SymmDifference(a[1..], b[1..]);
      assert Sorted(a) && Sorted(b) ==> forall x :: x in t <==> (x in a <==> x !in b) by {
        if Sorted(a) && Sorted(b) {
          forall x ensures x in t <==> (x in a <==> x !in b) {
            if x in a { SortedHead(a, x); }
            if x in b { SortedHead(b, x); }
          }
        }
      }
      t
    else if a[0] < b[0] then
      var t := SymmDifference(a[1..], b);
      assert Sorted(a) && Sorted(b) ==> Sorted([a[0]] + t) && forall x :: x in [a[0]] + t <==> (x in a <==> x !in b) by {
        if Sorted(a) && Sorted(b) {
          forall x ensures x in [a[0]] + t <==> (x in a <==> x !in b) {
            if x in a { SortedHead(a, x); }
            if x in b { SortedHead(b, x); }
          }
          SortedTail(a);
          forall x | x in t ensures a[0] < x {
            if x in b { SortedHead(b, x); }
          }
          SortedCons(a[0], t);
        }
      }
      [a[0]] + t
    else
      var t := SymmDifference(a, b[1..]);
      assert Sorted(a) && Sorted(b) ==> Sorted([b[0]] + t) && forall x :: x in [b[0]] + t <==> (x in a <==> x !in b) by {
        if Sorted(a) && Sorted(b) {
          forall x ensures x in [b[0]] + t <==> (x in a <==> x !in b) {
            if x in a { SortedHead(a, x); }
            if x in b { SortedHead(b, x); }
          }
          forall x | x in t ensures b[0] < x {
            if x in a { SortedHead(a, x); }
          }
          SortedCons(b[0], t);
        }
      }
      [b[0]] + t
  }

  /** Contains(a, b): b is a subset of a. */
  function Contains(a: seq<nat>, b: seq<nat>): (r: bool)
    ensures r ==> forall x :: x in b ==> x in a
    ensures Sorted(a) && Sorted(b) && (forall x :: x in b ==> x in a) ==> r
    decreases |a| + |b|
  {
    if b == [] then
      true
    else if a == [] then
      assert b[0] in b;
      false
    else if a[0] == b[0] then
      var r := Contains(a[1..], b[1..]);
      assert r ==> forall x :: x in b ==> x in a by {
        if r {
          forall x | x in b ensures x in a {
            if x != b[0] {
              assert x in b[1..];
            }
          }
        }
      }
      assert Sorted(a) && Sorted(b) && (forall x :: x in b ==> x in a) ==> forall x :: x in b[1..] ==> x in a[1..] by {
        if Sorted(a) && Sorted(b) && (forall x :: x in b ==> x in a) {
          forall x | x in b[1..] ensures x in a[1..] {
            SortedTail(b);
            SortedHead(a, x);
          }
        }
      }
      r
    else if a[0] < b[0] then
      var r := Contains(a[1..], b);
      assert Sorted(a) && Sorted(b) && (forall x :: x in b ==> x in a) ==> forall x :: x in b ==> x in a[1..] by {
        if Sorted(a) && Sorted(b) && (forall x :: x in b ==> x in a) {
          forall x | x in b ensures x in a[1..] {
            SortedHead(b, x);
            SortedHead(a, x);
          }
        }
      }
      r
    else
      assert Sorted(a) && Sorted(b) ==> b[0] !in a by {
        if Sorted(a) && Sorted(b) && b[0] in a {
          SortedHead(a, b[0]);
        }
      }
      assert b[0] in b;
      false
  }

  /** ProperSubSet(a, b): b is a subset of a, and a has more elements. */
  function ProperSubSet(a: seq<nat>, b: seq<nat>): bool
  {
    Contains(a, b) && |b| < |a|
  }

  /** Two sorted sequences with the same elements are equal. */
  lemma {:induction false} SortedUnique(a: seq<nat>, b: seq<nat>)
    requires Sorted(a) && Sorted(b)
    requires forall x :: x in a <==> x in b
    ensures a == b
  {
    assert a != [] ==> a[0] in b;
    assert b != [] ==> b[0] in a;
    if a != [] && b != [] {
      SortedHead(a, b[0]);
      SortedHead(b, a[0]);
      SortedTail(a);
      SortedTail(b);
      forall x ensures x in a[1..] <==> x in b[1..] {
        if x in a[1..] { SortedHead(b, x); }
        if x in b[1..] { SortedHead(a, x); }
      }
      SortedUnique(a[1..], b[1..]);
      assert a == [a[0]] + a[1..];
      assert b == [b[0]] + b[1..];
    }
  }

  /** On sorted sets ProperSubSet(a, b) is "b is a subset of a and b differs from a". */
  lemma ProperSubSetMeaning(a: seq<nat>, b: seq<nat>)
    requires Sorted(a) && Sorted(b)
    ensures ProperSubSet(a, b) <==> (forall x :: x in b ==> x in a) && exists x :: x in a && x !in b
  {
    if forall x :: x in b ==> x in a {
      SortedUnique(Intersect(a, b), b);
      IntersectDifferenceSize(a, b);
      var d := Difference(a, b);
      if |d| > 0 {
        assert d[0] in a && d[0] !in b;
      }
    }
  }

  /** A subset of a sorted set is no longer than it. */
  lemma SortedSubsetSize(a: seq<nat>, b: seq<nat>)
    requires Sorted(a) && Sorted(b)
    requires forall x :: x in b ==> x in a
    ensures |b| <= |a|
  {
    SortedUnique(Intersect(a, b), b);
    IntersectDifferenceSize(a, b);
  }

  /** Intersection does not depend on the order of its arguments. */
  lemma IntersectCommutes(a: seq<nat>, b: seq<nat>)
    requires Sorted(a) && Sorted(b)
    ensures Intersect(a, b) == Intersect(b, a)
  {
    SortedUnique(Intersect(a, b), Intersect(b, a));
  }

  /** |a| = |Intersect(a, b)| + |Difference(a, b)|: every element of a is in b or not. */
  lemma {:induction false} IntersectDifferenceSize(a: seq<nat>, b: seq<nat>)
    requires Sorted(a) && Sorted(b)
    ensures |Intersect(a, b)| + |Difference(a, b)| == |a|
    decreases |a| + |b|
  {
    if a == [] || b == [] {
    } else if a[0] == b[0] {
      IntersectDifferenceSize(a[1..], b[1..]);
    } else if a[0] < b[0] {
      IntersectDifferenceSize(a[1..], b);
    } else {
      IntersectDifferenceSize(a, b[1..]);
    }
  }

  /** The size identity |Union(a, b)| = |a| + |b| - |Intersect(a, b)|. */
  lemma {:induction false} UnionSize(a: seq<nat>, b: seq<nat>)
    requires Sorted(a) && Sorted(b)
    ensures |Union(a, b)| + |Intersect(a, b)| == |a| + |b|
    decreases |a| + |b|
  {
    if a == [] || b == [] {
    } else if a[0] == b[0] {
      UnionSize(a[1..], b[1..]);
    } else if a[0] < b[0] {
      UnionSize(a[1..], b);
    } else {
      UnionSize(a, b[1..]);
    }
  }

  /** Difference(a, b) and Intersect(a, b) together give back a. */
  lemma DifferenceIntersectRebuild(a: seq<nat>, b: seq<nat>)
    requires Sorted(a) && Sorted(b)
    ensures Union(Difference(a, b), Intersect(a, b)) == a
  {
    SortedUnique(Union(Difference(a, b), Intersect(a, b)), a);
  }

  /** Transposition of a FIMI matrix (rows of column ids). */

  /** The rows among the first k that hold column j, ascending. */
  function Column(rows: seq<seq<nat>>, j: nat, k: nat): (c: seq<nat>)
    requires k <= |rows|
    ensures Sorted(c)
    ensures forall i: nat :: i in c <==> i < k && j in rows[i]
  {
    if k == 0 then []
    else
      var c := Column(rows, j, k - 1);
      if j in rows[k - 1] then
        SortedSnoc(c, k - 1);
        c + [k - 1]
      else
        c
  }

  /** TransposeFimi(a, sz1, sz2): the width columns of the matrix whose rows are given. */
  function TransposeFimi(rows: seq<seq<nat>>, width: nat): (r: seq<seq<nat>>)
    ensures |r| == width
    ensures forall j :: 0 <= j < width ==> Sorted(r[j])
    ensures forall j, i: nat :: 0 <= j < width ==> (i in r[j] <==> i < |rows| && j in rows[i])
  {
    seq(width, j requires 0 <= j => Column(rows, j, |rows|))
  }

  /** Largest element of all rows, -1 when there is none. */
  function MaxOfRows(rows: seq<seq<nat>>): (m: int)
    ensures m >= -1
    ensures forall i, x :: 0 <= i < |rows| && x in rows[i] ==> x <= m
    ensures m >= 0 ==> exists i :: 0 <= i < |rows| && m in rows[i]
  {
    if rows == [] then -1
    else
      var m := MaxOfRows(rows[1..]);
      var h := MaxOfSeq(rows[0]);
      assert forall i :: 1 <= i < |rows| ==> rows[i] == rows[1..][i - 1];
      if h > m then h else m
  }

  function MaxOfSeq(s: seq<nat>): (m: int)
    ensures m >= -1
    ensures forall x :: x in s ==> x <= m
    ensures m >= 0 ==> m in s
  {
    if s == [] then -1
    else
      var m := MaxOfSeq(s[1..]);
      assert forall x :: x in s ==> x == s[0] || x in s[1..];
      if s[0] > m then s[0] else m
  }

  /** TransposeFimi(a): the transpose with as many columns as the largest id plus one. */
  function TransposeFimiUnsized(rows: seq<seq<nat>>): (r: seq<seq<nat>>)
    ensures forall i, x :: 0 <= i < |rows| && x in rows[i] ==> x < |r|
    ensures forall j, i: nat :: 0 <= j < |r| ==> (i in r[j] <==> i < |rows| && j in rows[i])
  {
    TransposeFimi(rows, MaxOfRows(rows) + 1)
  }

  /** Transposing twice gives back rows that are sorted and narrower than width. */
  lemma TransposeTwice(rows: seq<seq<nat>>, width: nat)
    requires forall i :: 0 <= i < |rows| ==> Sorted(rows[i])
    requires forall i, x :: 0 <= i < |rows| && x in rows[i] ==> x < width
    ensures TransposeFimi(TransposeFimi(rows, width), |rows|) == rows
  {
    var t := TransposeFimi(rows, width);
    var tt := TransposeFimi(t, |rows|);
    forall i | 0 <= i < |rows| ensures tt[i] == rows[i] {
      SortedUnique(tt[i], rows[i]);
    }
  }

  /** Cantor pairing, bounded so that the int result of the C++ code cannot overflow. */

  const MaxInt: nat := 0x7FFF_FFFF

  /** n-th triangular number 0 + 1 + ... + n. */
  function Triangle(n: nat): nat
  {
    if n == 0 then 0 else Triangle(n - 1) + n
  }

  lemma {:induction false} TriangleMonotone(m: nat, n: nat)
    requires m <= n
    ensures Triangle(m) <= Triangle(n)
    decreases n - m
  {
    if m < n {
      TriangleMonotone(m, n - 1);
    }
  }

  /** Pairs that the C++ int result can hold. */
  predicate Pairable(k1: nat, k2: nat)
  {
    Triangle(k1 + k2) + k2 <= MaxInt
  }

  function CantorPairing(k1: nat, k2: nat): (z: nat)
    requires Pairable(k1, k2)
    ensures z <= MaxInt
  {
    Triangle(k1 + k2) + k2
  }

  /** The largest w >= from with Triangle(w) <= z. */
  function TriangleRoot(z: nat, from: nat): (w: nat)
    requires Triangle(from) <= z
    ensures from <= w && Triangle(w) <= z < Triangle(w + 1)
    decreases z - from
  {
    if Triangle(from + 1) <= z then TriangleRoot(z, from + 1) else from
  }

  function InverseCantor(z: nat): (p: (nat, nat))
  {
    var w := TriangleRoot(z, 0);
    var y := z - Triangle(w);
    (w - y, y)
  }

  /** InverseCantor undoes CantorPairing. */
  lemma CantorRoundTrip(k1: nat, k2: nat)
    requires Pairable(k1, k2)
    ensures InverseCantor(CantorPairing(k1, k2)) == (k1, k2)
  {
    var n := k1 + k2;
    var z := CantorPairing(k1, k2);
    var w := TriangleRoot(z, 0);
    assert Triangle(w) <= z < Triangle(w + 1);
    assert Triangle(n) <= z < Triangle(n + 1) by {
      assert Triangle(n + 1) == Triangle(n) + n + 1;
    }
    if w < n {
      TriangleMonotone(w + 1, n);
      assert false;
    } else if w > n {
      TriangleMonotone(n + 1, w);
      assert false;
    }
  }

  /** Every value decodes to a pair that encodes it again. */
  lemma InverseCantorRoundTrip(z: nat)
    requires z <= MaxInt
    ensures Pairable(InverseCantor(z).0, InverseCantor(z).1)
    ensures CantorPairing(InverseCantor(z).0, InverseCantor(z).1) == z
  {
    var w := TriangleRoot(z, 0);
    assert z - Triangle(w) <= w;
  }

  /** So CantorPairing is injective. */
  lemma CantorInjective(a1: nat, a2: nat, b1: nat, b2: nat)
    requires Pairable(a1, a2) && Pairable(b1, b2)
    requires CantorPairing(a1, a2) == CantorPairing(b1, b2)
    ensures a1 == b1 && a2 == b2
  {
    CantorRoundTrip(a1, a2);
    CantorRoundTrip(b1, b2);
  }

  /** The global operation counters numIntersection, numSubset, numUnion, numDifference. */
  class OpCounters {
    var numIntersection: nat
    var numSubset: nat
    var numUnion: nat
    var numDifference: nat

    constructor ()
      ensures numIntersection == 0 && numSubset == 0 && numUnion == 0 && numDifference == 0
    {
      numIntersection, numSubset, numUnion, numDifference := 0, 0, 0, 0;
    }

    method CountedIntersect(a: seq<nat>, b: seq<nat>) returns (r: seq<nat>)
      modifies this
      ensures r == Intersect(a, b)
      ensures numIntersection == old(numIntersection) + 1
      ensures numSubset == old(numSubset) && numUnion == old(numUnion) && numDifference == old(numDifference)
    {
      r := Intersect(a, b);
      numIntersection := numIntersection + 1;
    }

    method CountedDifference(a: seq<nat>, b: seq<nat>) returns (r: seq<nat>)
      modifies this
      ensures r == Difference(a, b)
      ensures numDifference == old(numDifference) + 1
      ensures numIntersection == old(numIntersection) && numSubset == old(numSubset) && numUnion == old(numUnion)
    {
      r := Difference(a, b);
      numDifference := numDifference + 1;
    }

    method CountedUnion(a: seq<nat>, b: seq<nat>) returns (r: seq<nat>)
      modifies this
      ensures r == Union(a, b)
      ensures numUnion == old(numUnion) + 1
      ensures numIntersection == old(numIntersection) && numSubset == old(numSubset) && numDifference == old(numDifference)
    {
      r := Union(a, b);
      numUnion := numUnion + 1;
    }

    method CountedContains(a: seq<nat>, b: seq<nat>) returns (r: bool)
      modifies this
      ensures r == Contains(a, b)
      ensures numSubset == old(numSubset) + 1
      ensures numIntersection == old(numIntersection) && numUnion == old(numUnion) && numDifference == old(numDifference)
    {
      r := Contains(a, b);
      numSubset := numSubset + 1;
    }

    method CountedProperSubSet(a: seq<nat>, b: seq<nat>) returns (r: bool)
      modifies this
      ensures r == ProperSubSet(a, b)
      ensures numSubset == old(numSubset) + 1
      ensures numIntersection == old(numIntersection) && numUnion == old(numUnion) && numDifference == old(numDifference)
    {
      r := ProperSubSet(a, b);
      numSubset := numSubset + 1;
    }
  }

  /** Random draws. */

  function Sum(s: seq<real>): real
  {
    if s == [] then 0.0 else s[0] + Sum(s[1..])
  }

  lemma {:induction false} SumAppend(s: seq<real>, x: real)
    ensures Sum(s + [x]) == Sum(s) + x
  {
    if s != [] {
      assert (s + [x])[1..] == s[1..] + [x];
      SumAppend(s[1..], x);
    }
  }

  /**
    WeightedUniformDraw(weights): an index of the weight vector, found by a linear
    search of the cumulative weights for a uniform number r in [0, 1) built from rand().
    On a normalised vector (nonnegative, summing to 1) the index has positive weight.
   */
  method WeightedUniformDraw(weights: seq<real>, rng: Random) returns (k: nat)
    requires |weights| > 0
    modifies rng
    ensures k < |weights|
    ensures (forall i :: 0 <= i < |weights| ==> weights[i] >= 0.0) && Sum(weights) == 1.0 ==> weights[k] > 0.0
  {
    var x := rng.Next();
    var r: real := x as real / (RandMax + 1) as real;
    var acc: real := 0.0;
    k := 0;
    while k < |weights| - 1 && acc + weights[k] <= r
      invariant 0 <= k < |weights|
      invariant acc == Sum(weights[..k])
      invariant acc <= r
    {
      assert weights[..k + 1] == weights[..k] + [weights[k]];
      SumAppend(weights[..k], weights[k]);
      acc := acc + weights[k];
      k := k + 1;
    }
    if (forall i :: 0 <= i < |weights| ==> weights[i] >= 0.0) && Sum(weights) == 1.0 && k == |weights| - 1 {
      assert weights == weights[..k] + [weights[k]];
      SumAppend(weights[..k], weights[k]);
    }
  }

  /** A subsequence: what a subset draw returns from its input. */
  predicate SubsetOf(r: seq<nat>, t: seq<nat>)
  {
    forall x :: x in r ==> x in t
  }

  /**
    UniformSubsetDraw(t): each element of t is kept when the next rand() is odd, so every
    subset of t is drawn with the same probability. The result keeps t's order.
   */
  method UniformSubsetDraw(t: seq<nat>, rng: Random) returns (r: seq<nat>)
    modifies rng
    ensures SubsetOf(r, t)
    ensures |r| <= |t|
    ensures Sorted(t) ==> Sorted(r)
  {
    r := [];
    var i := 0;
    while i < |t|
      invariant 0 <= i <= |t|
      invariant |r| <= i
      invariant forall x :: x in r ==> x in t[..i]
      invariant Sorted(t) ==> Sorted(r)
    {
      var bit := rng.Next();
      if bit % 2 == 1 {
        if Sorted(t) {
          forall y | y in r ensures y < t[i] {
            var k :| 0 <= k < i && t[k] == y;
          }
          SortedSnoc(r, t[i]);
        }
        r := r + [t[i]];
      }
      assert t[..i + 1] == t[..i] + [t[i]];
      i := i + 1;
    }
    assert t[..i] == t;
  }
}
