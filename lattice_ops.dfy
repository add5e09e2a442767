/**
  The lattice operations of headers/core/LatticeOps.h: the min-aware derivation
  operator Prime of formal concept analysis, lifted to a relation graph, and the top
  and bottom concepts of one context.
 */
module LatticeOps {
  import opened Wrappers
  import opened IOSets
  import opened SetOps
  import opened NClusters
  import opened Contexts
  import opened RelationGraphs

  /** acc intersected with the adjacency, in domain s of c, of every object of xs in turn. */
  function Derive(c: Context, s: int, xs: seq<nat>, acc: seq<nat>): (r: seq<nat>)
    ensures |r| <= |acc|
  {
    if xs == [] then acc else Derive(c, s, xs[1..], Intersect(acc, GetSet(c, s, xs[0])))
  }

  /** The running fold of Prime: it gives up as soon as the running result has fewer than min elements. */
  function PrimeFold(c: Context, s: int, xs: seq<nat>, acc: seq<nat>, min: int): (r: Option<seq<nat>>)
    ensures r.Some? ==> |r.value| >= min
  {
    if |acc| < min then None
    else if xs == [] then Some(acc)
    else PrimeFold(c, s, xs[1..], Intersect(acc, GetSet(c, s, xs[0])), min)
  }

  /** The context Prime works in: the one of the edge (s, t). */
  function EdgeContext(g: RelationGraph, s: int, t: int): (c: Context)
    requires IsEdge(g, s, t)
    ensures c in g.contexts && Links(c, s, t)
  {
    GetContext(g, s, t).value
  }

  /**
    Prime(a, g, s, t, min): the t-objects related to every object of a[s], in the
    context of the edge (s, t); none when a[s] is empty or when the result has fewer
    than min elements. The set a[s] is asserted to exist and (s, t) to be an edge.
   */
  function Prime(a: Tuple, g: RelationGraph, s: int, t: int, min: int): (r: Option<seq<nat>>)
    requires HasId(a, s)
    requires IsEdge(g, s, t)
    ensures SetById(a, s).items == [] ==> r.None?
    ensures r.Some? ==> |r.value| >= min
  {
    var c := EdgeContext(g, s, t);
    var xs := SetById(a, s).items;
    if xs == [] then None else PrimeFold(c, s, xs[1..], GetSet(c, s, xs[0]), min)
  }

  /** Stopping early is the same as testing the size of the final result. */
  lemma {:induction false} EarlyExitIsFinalTest(c: Context, s: int, xs: seq<nat>, acc: seq<nat>, min: int)
    ensures PrimeFold(c, s, xs, acc, min) ==
              (if |Derive(c, s, xs, acc)| < min then None else Some(Derive(c, s, xs, acc)))
  {
    if |acc| >= min && xs != [] {
      EarlyExitIsFinalTest(c, s, xs[1..], Intersect(acc, GetSet(c, s, xs[0])), min);
    }
  }

  /** x is related, in domain s of c, to every object of xs. */
  predicate RelatedToAll(c: Context, s: int, xs: seq<nat>, x: nat)
  {
    forall y :: y in xs ==> x in GetSet(c, s, y)
  }

  /** On a valid context the fold keeps exactly the elements of acc related to all of xs. */
  lemma {:induction false} DeriveMeaning(c: Context, s: int, xs: seq<nat>, acc: seq<nat>)
    requires Contexts.Valid(c) && Sorted(acc)
    ensures Sorted(Derive(c, s, xs, acc))
    ensures forall x :: x in Derive(c, s, xs, acc) <==> x in acc && RelatedToAll(c, s, xs, x)
  {
    if xs != [] {
      AdjacencySorted(c, s, xs[0]);
      var acc' := Intersect(acc, GetSet(c, s, xs[0]));
      DeriveMeaning(c, s, xs[1..], acc');
      forall x ensures RelatedToAll(c, s, xs, x) <==> x in GetSet(c, s, xs[0]) && RelatedToAll(c, s, xs[1..], x) {
        assert forall y :: y in xs <==> y == xs[0] || y in xs[1..];
      }
    }
  }

  /** The extent Prime computes from a non-empty a[s]. */
  function Common(c: Context, s: int, xs: seq<nat>): seq<nat>
    requires xs != []
  {
    Derive(c, s, xs[1..], GetSet(c, s, xs[0]))
  }

  /** The extent of a non-empty list is the ascending list of the objects related to all of it. */
  lemma CommonMeaning(c: Context, s: int, xs: seq<nat>)
    requires Contexts.Valid(c) && xs != []
    ensures Sorted(Common(c, s, xs))
    ensures forall x :: x in Common(c, s, xs) <==> RelatedToAll(c, s, xs, x)
  {
    AdjacencySorted(c, s, xs[0]);
    DeriveMeaning(c, s, xs[1..], GetSet(c, s, xs[0]));
    forall x ensures RelatedToAll(c, s, xs, x) <==> x in GetSet(c, s, xs[0]) && RelatedToAll(c, s, xs[1..], x) {
      assert forall y :: y in xs <==> y == xs[0] || y in xs[1..];
    }
  }

  /**
    Prime is the derivation operator of formal concept analysis with a size test: on a
    valid graph its result is the ascending list of the t-objects related to every
    object of a[s], and it is absent exactly when a[s] is empty or that list is shorter than min.
   */
  lemma PrimeIsDerivation(a: Tuple, g: RelationGraph, s: int, t: int, min: int)
    requires HasId(a, s) && IsEdge(g, s, t) && Contexts.Valid(EdgeContext(g, s, t))
    ensures var xs := SetById(a, s).items;
            var c := EdgeContext(g, s, t);
            && (Prime(a, g, s, t, min).None? <==> xs == [] || |Common(c, s, xs)| < min)
            && (Prime(a, g, s, t, min).Some? ==>
                  Prime(a, g, s, t, min).value == Common(c, s, xs) && Sorted(Common(c, s, xs)) &&
                  forall x :: x in Common(c, s, xs) <==> RelatedToAll(c, s, xs, x))
  {
    var xs := SetById(a, s).items;
    var c := EdgeContext(g, s, t);
    if xs != [] {
      EarlyExitIsFinalTest(c, s, xs[1..], GetSet(c, s, xs[0]), min);
      CommonMeaning(c, s, xs);
    }
  }

  /** Relating to all of a larger list implies relating to all of a smaller one. */
  lemma RelatedToFewer(c: Context, s: int, xa: seq<nat>, xb: seq<nat>, x: nat)
    requires forall y :: y in xb ==> y in xa
    requires RelatedToAll(c, s, xa, x)
    ensures RelatedToAll(c, s, xb, x)
  {
  }

  /** Prime is antitone: shrinking a non-empty a[s] can only let the result grow. */
  lemma PrimeAntitone(a: Tuple, b: Tuple, g: RelationGraph, s: int, t: int, min: int)
    requires RelationGraphs.Valid(g) && HasId(a, s) && HasId(b, s) && IsEdge(g, s, t)
    requires SetById(b, s).items != []
    requires forall x :: x in SetById(b, s).items ==> x in SetById(a, s).items
    requires Prime(a, g, s, t, min).Some?
    ensures Prime(b, g, s, t, min).Some?
    ensures forall x :: x in Prime(a, g, s, t, min).value ==> x in Prime(b, g, s, t, min).value
  {
    var c := EdgeContext(g, s, t);
    var xa := SetById(a, s).items;
    var xb := SetById(b, s).items;
    PrimeIsDerivation(a, g, s, t, min);
    PrimeIsDerivation(b, g, s, t, min);
    CommonMeaning(c, s, xa);
    CommonMeaning(c, s, xb);
    var ca := Common(c, s, xa);
    var cb := Common(c, s, xb);
    assert Prime(a, g, s, t, min).value == ca;
    forall x | x in ca ensures x in cb {
      RelatedToFewer(c, s, xa, xb, x);
    }
    SortedSubsetSize(cb, ca);
  }

  /** The rows among the first k whose adjacency contains all of want, ascending. */
  function FullRows(rows: seq<seq<nat>>, want: seq<nat>, k: nat): (r: seq<nat>)
    requires k <= |rows|
    ensures Sorted(r)
    ensures forall i: nat :: i in r <==> i < k && Contains(rows[i], want)
  {
    if k == 0 then []
    else
      var r := FullRows(rows, want, k - 1);
      if Contains(rows[k - 1], want) then
        SortedSnoc(r, k - 1);
        r + [k - 1]
      else
        r
  }

  /** GetTop(c): all of domain2 with the domain1 objects related to all of domain2. */
  function GetTop(c: Context): (r: Tuple)
    ensures |r| == 2 && r[0].id == c.dId1 && r[1].id == c.dId2
    ensures r[1].items == Contexts.GetLabels(c, c.dId2)
    ensures Contexts.Valid(c) ==>
              forall i: nat :: i in r[0].items <==> i < |c.domain1| && forall j :: 0 <= j < |c.domain2| ==> j in c.domain1[i]
  {
    var all := Contexts.GetLabels(c, c.dId2);
    [ObjSet(c.dId1, FullRows(c.domain1, all, |c.domain1|)), ObjSet(c.dId2, all)]
  }

  /** GetBottom(c): all of domain1 with the domain2 objects related to all of domain1. */
  function GetBottom(c: Context): (r: Tuple)
    ensures |r| == 2 && r[0].id == c.dId1 && r[1].id == c.dId2
    ensures r[0].items == Contexts.GetLabels(c, c.dId1)
    ensures Contexts.Valid(c) ==>
              forall j: nat :: j in r[1].items <==> j < |c.domain2| && forall i :: 0 <= i < |c.domain1| ==> j in c.domain1[i]
  {
    var all := Contexts.GetLabels(c, c.dId1);
    var r := [ObjSet(c.dId1, all), ObjSet(c.dId2, FullRows(c.domain2, all, |c.domain2|))];
    assert Contexts.Valid(c) ==> forall j: nat :: j < |c.domain2| ==> Sorted(c.domain2[j]);
    r
  }
}
