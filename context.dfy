/**
  The bipartite relation of headers/core/Context.h. A context relates the objects of
  two domains and stores the relation twice in FIMI form: domain1 holds, for every
  object of the first domain, the ascending ids of the related objects of the second
  domain ("rows"), and domain2 holds the same relation seen from the second domain
  ("columns"). Objects of a domain are numbered 0 .. n-1.
 */
module Contexts {
  import opened IOSets
  import opened SetOps

  datatype Context = Context(
    domain1: seq<seq<nat>>,
    domain2: seq<seq<nat>>,
    id: int,
    name: string,
    dId1: nat,
    dId2: nat)

  /** Context(num1, num2): num1 and num2 objects, nothing related, domain ids 0 and 1. */
  function MakeContext(num1: nat, num2: nat): (c: Context)
    ensures Valid(c)
    ensures GetNumSets(c, 0) == num1 && GetNumSets(c, 1) == num2 && GetNumOnes(c) == 0
  {
    var c := Context(seq(num1, i => []), seq(num2, j => []), 0, "", 0, 1);
    assert c.domain2 == TransposeFimi(c.domain1, num2) by {
      forall j | 0 <= j < num2 ensures c.domain2[j] == TransposeFimi(c.domain1, num2)[j] {
        SortedUnique(c.domain2[j], TransposeFimi(c.domain1, num2)[j]);
      }
    }
    ZeroOnes(c.domain1);
    c
  }

  lemma {:induction false} ZeroOnes(rows: seq<seq<nat>>)
    requires forall i :: 0 <= i < |rows| ==> rows[i] == []
    ensures SumSizes(rows) == 0
  {
    if rows != [] {
      ZeroOnes(rows[1..]);
    }
  }

  /** The object ids 0 .. n-1 in ascending order. */
  function Range(n: nat): (r: seq<nat>)
    ensures |r| == n && Sorted(r)
    ensures forall k :: 0 <= k < n ==> r[k] == k
    ensures forall x: int :: x in r <==> 0 <= x < n
  {
    var r := seq(n, k requires 0 <= k => k);
    assert forall x: nat :: x < n ==> x in r by {
      forall x: nat | x < n ensures x in r {
        assert r[x] == x;
      }
    }
    assert forall x :: x in r ==> x < n by {
      forall x | x in r ensures x < n {
        var k :| 0 <= k < n && r[k] == x;
      }
    }
    r
  }

  /** d is one of the two domains of c. */
  predicate HasDomain(c: Context, d: int)
  {
    d == c.dId1 || d == c.dId2
  }

  /** The domain paired with d in c (taken as the first domain unless d is it). */
  function Other(c: Context, d: int): (t: nat)
    ensures d == c.dId1 ==> t == c.dId2
    ensures d != c.dId1 ==> t == c.dId1
  {
    if c.dId1 == d then c.dId2 else c.dId1
  }

  /**
    A well-formed context: two different domains, ascending adjacencies that name
    objects of the other domain, and columns that are the transpose of the rows.
   */
  predicate Valid(c: Context)
  {
    && c.dId1 != c.dId2
    && (forall i :: 0 <= i < |c.domain1| ==> Sorted(c.domain1[i]))
    && (forall i, x :: 0 <= i < |c.domain1| && x in c.domain1[i] ==> x < |c.domain2|)
    && c.domain2 == TransposeFimi(c.domain1, |c.domain2|)
  }

  /** GetNumSets(d): the number of objects of domain d (0 for a foreign domain). */
  function GetNumSets(c: Context, d: int): (n: nat)
    ensures d == c.dId1 ==> n == |c.domain1|
    ensures d != c.dId1 && d == c.dId2 ==> n == |c.domain2|
    ensures !HasDomain(c, d) ==> n == 0
  {
    if d == c.dId1 then |c.domain1| else if d == c.dId2 then |c.domain2| else 0
  }

  /**
    GetSet(d, k): the adjacency (prime) of object k of domain d. An object outside the
    domain, or a foreign domain, has the empty adjacency.
   */
  function GetSet(c: Context, d: int, k: nat): (r: seq<nat>)
    ensures d == c.dId1 && k < |c.domain1| ==> r == c.domain1[k]
    ensures d != c.dId1 && d == c.dId2 && k < |c.domain2| ==> r == c.domain2[k]
    ensures k >= GetNumSets(c, d) ==> r == []
  {
    if d == c.dId1 then
      (if k < |c.domain1| then c.domain1[k] else [])
    else if d == c.dId2 then
      (if k < |c.domain2| then c.domain2[k] else [])
    else
      []
  }

  /** The two stored views describe one relation. */
  lemma ViewsAgree(c: Context, i: nat, j: nat)
    requires Valid(c)
    ensures j in GetSet(c, c.dId1, i) <==> i in GetSet(c, c.dId2, j)
  {
  }

  /** Every adjacency of a valid context is ascending and names objects of the other domain. */
  lemma AdjacencySorted(c: Context, d: int, k: nat)
    requires Valid(c)
    ensures Sorted(GetSet(c, d, k))
    ensures HasDomain(c, d) ==> forall x :: x in GetSet(c, d, k) ==> x < GetNumSets(c, Other(c, d))
  {
  }

  /** GetLabels(d): all object ids of domain d. */
  function GetLabels(c: Context, d: int): (r: seq<nat>)
    ensures Sorted(r) && |r| == GetNumSets(c, d)
    ensures forall x: int :: x in r <==> 0 <= x < GetNumSets(c, d)
  {
    Range(GetNumSets(c, d))
  }

  /** GetDomainIds(): the pair (GetDomainId(0), GetDomainId(1)). */
  function GetDomainIds(c: Context): (p: (nat, nat))
    ensures p == (GetDomainId(c, 0), GetDomainId(c, 1))
  {
    (c.dId1, c.dId2)
  }

  /** GetDomainId(setNum), setNum being 0 or 1. */
  function GetDomainId(c: Context, setNum: nat): nat
    requires setNum <= 1
  {
    if setNum == 0 then c.dId1 else c.dId2
  }

  /** SetDomainId(setNum, x): the chosen side takes the id x; nothing else changes. */
  function SetDomainId(c: Context, setNum: nat, x: nat): (r: Context)
    requires setNum <= 1
    ensures GetDomainId(r, setNum) == x && GetDomainId(r, 1 - setNum) == GetDomainId(c, 1 - setNum)
    ensures r.domain1 == c.domain1 && r.domain2 == c.domain2 && r.id == c.id && r.name == c.name
  {
    if setNum == 0 then c.(dId1 := x) else c.(dId2 := x)
  }

  /** Sum of the sizes of a list of adjacencies. */
  function SumSizes(rows: seq<seq<nat>>): nat
  {
    if rows == [] then 0 else |rows[0]| + SumSizes(rows[1..])
  }

  /** GetNumOnes(): the number of related pairs, counted over the rows. */
  function GetNumOnes(c: Context): nat
  {
    SumSizes(c.domain1)
  }

  /** How many of the ids 0 .. w-1 occur in row. */
  function CountBelow(row: seq<nat>, w: nat): nat
  {
    if w == 0 then 0 else CountBelow(row, w - 1) + (if w - 1 in row then 1 else 0)
  }

  lemma {:induction false} CountBelowSame(r1: seq<nat>, r2: seq<nat>, w: nat)
    requires forall x :: x < w ==> (x in r1 <==> x in r2)
    ensures CountBelow(r1, w) == CountBelow(r2, w)
  {
    if w > 0 {
      CountBelowSame(r1, r2, w - 1);
    }
  }

  /** A sorted row whose ids are all below w has exactly |row| of them below w. */
  lemma {:induction false} CountBelowSorted(row: seq<nat>, w: nat)
    requires Sorted(row) && forall x :: x in row ==> x < w
    ensures CountBelow(row, w) == |row|
    decreases w
  {
    assert row != [] ==> row[0] in row;
    if w > 0 {
      if w - 1 in row {
        var init := LastIsLargest(row, w);
        CountBelowSorted(init, w - 1);
        CountBelowSame(row, init, w - 1);
      } else {
        CountBelowSorted(row, w - 1);
      }
    }
  }

  /** When w - 1 occurs in a sorted row below w, it is the last element. */
  lemma LastIsLargest(row: seq<nat>, w: nat) returns (init: seq<nat>)
    requires Sorted(row) && forall x :: x in row ==> x < w
    requires w > 0 && w - 1 in row
    ensures row == init + [w - 1]
    ensures Sorted(init) && forall x :: x in init ==> x < w - 1
    ensures forall x :: x < w - 1 ==> (x in row <==> x in init)
  {
    var k :| 0 <= k < |row| && row[k] == w - 1;
    assert row[|row| - 1] in row;
    assert k == |row| - 1;
    init := row[..|row| - 1];
    assert row == init + [w - 1];
    forall x | x in init ensures x < w - 1 {
      var m :| 0 <= m < |init| && init[m] == x;
      assert row[m] < row[k];
    }
  }

  /** Sum of the first-k-rows column sizes over the columns 0 .. w-1. */
  function ColumnSizes(rows: seq<seq<nat>>, k: nat, w: nat): nat
    requires k <= |rows|
  {
    if w == 0 then 0 else ColumnSizes(rows, k, w - 1) + |Column(rows, w - 1, k)|
  }

  lemma {:induction false} ColumnSizesStep(rows: seq<seq<nat>>, k: nat, w: nat)
    requires 0 < k <= |rows|
    ensures ColumnSizes(rows, k, w) == ColumnSizes(rows, k - 1, w) + CountBelow(rows[k - 1], w)
  {
    if w > 0 {
      ColumnSizesStep(rows, k, w - 1);
    }
  }

  lemma {:induction false} ColumnSizesRows(rows: seq<seq<nat>>, k: nat, w: nat)
    requires k <= |rows|
    requires forall i :: 0 <= i < |rows| ==> Sorted(rows[i])
    requires forall i, x :: 0 <= i < |rows| && x in rows[i] ==> x < w
    ensures ColumnSizes(rows, k, w) == SumSizes(rows[..k])
  {
    if k == 0 {
      ColumnZero(rows, w);
    } else {
      ColumnSizesStep(rows, k, w);
      ColumnSizesRows(rows, k - 1, w);
      CountBelowSorted(rows[k - 1], w);
      SumSizesAppend(rows[..k - 1], rows[k - 1]);
      assert rows[..k] == rows[..k - 1] + [rows[k - 1]];
    }
  }

  lemma {:induction false} ColumnZero(rows: seq<seq<nat>>, w: nat)
    ensures ColumnSizes(rows, 0, w) == 0
  {
    if w > 0 {
      ColumnZero(rows, w - 1);
    }
  }

  lemma {:induction false} SumSizesAppend(rows: seq<seq<nat>>, r: seq<nat>)
    ensures SumSizes(rows + [r]) == SumSizes(rows) + |r|
  {
    if rows != [] {
      assert (rows + [r])[1..] == rows[1..] + [r];
      SumSizesAppend(rows[1..], r);
    }
  }

  lemma {:induction false} ColumnSizesSum(cols: seq<seq<nat>>, rows: seq<seq<nat>>, w: nat)
    requires w <= |cols|
    requires forall j :: 0 <= j < |cols| ==> cols[j] == Column(rows, j, |rows|)
    ensures ColumnSizes(rows, |rows|, w) == SumSizes(cols[..w])
  {
    if w > 0 {
      ColumnSizesSum(cols, rows, w - 1);
      SumSizesAppend(cols[..w - 1], cols[w - 1]);
      assert cols[..w] == cols[..w - 1] + [cols[w - 1]];
    }
  }

  /** GetNumOnes counts the same pairs over the rows and over the columns. */
  lemma NumOnesBothSides(c: Context)
    requires Valid(c)
    ensures GetNumOnes(c) == SumSizes(c.domain2)
  {
    ColumnSizesRows(c.domain1, |c.domain1|, |c.domain2|);
    ColumnSizesSum(c.domain2, c.domain1, |c.domain2|);
    assert c.domain1[..|c.domain1|] == c.domain1;
    assert c.domain2[..|c.domain2|] == c.domain2;
  }

  /**
    GetSubContext(a, b): the sub-relation between the rows in a and the columns in b.
    Object ids are kept; a row outside a and a column outside b lose every pair.
   */
  function GetSubContext(c: Context, a: seq<nat>, b: seq<nat>): (r: Context)
    ensures r.dId1 == c.dId1 && r.dId2 == c.dId2
    ensures |r.domain1| == |c.domain1| && |r.domain2| == |c.domain2|
  {
    c.(domain1 := seq(|c.domain1|, i requires 0 <= i < |c.domain1| =>
                        if i in a then Intersect(c.domain1[i], b) else []),
       domain2 := seq(|c.domain2|, j requires 0 <= j < |c.domain2| =>
                        if j in b then Intersect(c.domain2[j], a) else []))
  }

  /** On ascending a and b, the sub-context is well formed and holds exactly the restricted pairs. */
  lemma SubContextMeaning(c: Context, a: seq<nat>, b: seq<nat>)
    requires Valid(c) && Sorted(a) && Sorted(b)
    ensures Valid(GetSubContext(c, a, b))
    ensures forall i: nat, j: nat :: j in GetSet(GetSubContext(c, a, b), c.dId1, i) <==>
                                       i in a && j in b && j in GetSet(c, c.dId1, i)
  {
    var r := GetSubContext(c, a, b);
    forall j | 0 <= j < |r.domain2| ensures r.domain2[j] == TransposeFimi(r.domain1, |r.domain2|)[j] {
      assert Sorted(c.domain2[j]);
      SortedUnique(r.domain2[j], TransposeFimi(r.domain1, |r.domain2|)[j]);
    }
  }

  /** The size of the longest adjacency among rows, 0 when there is none. */
  function Longest(rows: seq<seq<nat>>): (m: nat)
    ensures forall i :: 0 <= i < |rows| ==> |rows[i]| <= m
    ensures rows != [] ==> exists i :: 0 <= i < |rows| && |rows[i]| == m
    ensures rows == [] ==> m == 0
  {
    if rows == [] then 0
    else
      var m := Longest(rows[1..]);
      assert forall i :: 1 <= i < |rows| ==> rows[i] == rows[1..][i - 1];
      if |rows[0]| > m then |rows[0]| else m
  }

  /** GetLongestSet(): the size of the longest adjacency of any object of either domain. */
  function GetLongestSet(c: Context): (m: nat)
    ensures forall d: int, k: nat :: |GetSet(c, d, k)| <= m
    ensures m == 0 || (exists k :: 0 <= k < |c.domain1| && |c.domain1[k]| == m)
                   || (exists k :: 0 <= k < |c.domain2| && |c.domain2[k]| == m)
  {
    var m1 := Longest(c.domain1);
    var m2 := Longest(c.domain2);
    if m1 >= m2 then m1 else m2
  }
}
