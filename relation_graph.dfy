/**
  The network of headers/core/RelationGraph.h: domains are nodes and every context is
  an edge between its two domains. Beside the list of contexts the graph keeps two
  indexes, each an n-cluster with one set per domain id: domainContextMap lists the
  positions of the contexts that touch the domain, and domainRelations lists the
  neighbouring domain ids. Every index set is kept ascending.
 */
module RelationGraphs {
  import opened Wrappers
  import opened IOSets
  import opened SetOps
  import opened NClusters
  import opened Contexts

  datatype RelationGraph = RelationGraph(
    contexts: seq<Context>,
    domainContextMap: Tuple,
    domainRelations: Tuple)

  /** RelationGraph(): no domain and no context. */
  function EmptyGraph(): (g: RelationGraph)
    ensures Valid(g) && GetNumNodes(g) == 0
  {
    assert forall d :: Slot([], d) == [];
    RelationGraph([], [], [])
  }

  /** Some context of cs touches d. */
  predicate Touches(cs: seq<Context>, d: int)
  {
    exists k :: 0 <= k < |cs| && HasDomain(cs[k], d)
  }

  /** Context c is an edge between s and t. */
  predicate Links(c: Context, s: int, t: int)
  {
    (c.dId1 == s && c.dId2 == t) || (c.dId1 == t && c.dId2 == s)
  }

  /** The indexes describe exactly the contexts of the graph. */
  ghost predicate Valid(g: RelationGraph)
  {
    && (forall k :: 0 <= k < |g.contexts| ==> Contexts.Valid(g.contexts[k]))
    && UniqueIds(g.domainContextMap) && AllSorted(g.domainContextMap)
    && UniqueIds(g.domainRelations) && AllSorted(g.domainRelations)
    && (forall d :: HasId(g.domainContextMap, d) <==> Touches(g.contexts, d))
    && (forall d :: HasId(g.domainRelations, d) <==> Touches(g.contexts, d))
    && (forall d: int, x: nat :: x in Slot(g.domainContextMap, d) <==>
          x < |g.contexts| && HasDomain(g.contexts[x], d))
    && (forall d: int, x: nat :: x in Slot(g.domainRelations, d) <==> AnyLinks(g.contexts, d, x))
  }

  /** Adds x to the set carrying d, creating that set when it is missing. */
  function AddToSlot(t: Tuple, d: int, x: nat): (r: Tuple)
    requires UniqueIds(t) && AllSorted(t)
    ensures UniqueIds(r) && AllSorted(r)
    ensures forall e :: HasId(r, e) <==> HasId(t, e) || e == d
    ensures forall e, y :: y in Slot(r, e) <==> y in Slot(t, e) || (e == d && y == x)
  {
    if HasId(t, d) then
      var k := IndexOfId(t, d);
      var s := ObjSet(d, Union(t[k].items, [x]));
      var r := t[k := s];
      ReplaceKeepsIds(t, d, s);
      forall e ensures Slot(r, e) == (if e == d then s.items else Slot(t, e)) {
        if HasId(t, e) {
          IndexOfIdByIds(r, t, e);
        }
      }
      r
    else
      var r := t + [ObjSet(d, [x])];
      assert r[|t|].id == d;
      forall e ensures HasId(r, e) <==> HasId(t, e) || e == d {
        if HasId(r, e) && e != d {
          var i :| 0 <= i < |r| && r[i].id == e;
          assert t[i].id == e;
        }
        if HasId(t, e) {
          var i :| 0 <= i < |t| && t[i].id == e;
          assert r[i].id == e;
        }
      }
      forall e ensures Slot(r, e) == (if e == d then [x] else Slot(t, e)) {
        if e == d {
          assert IndexOfId(r, d) == |t|;
        } else if HasId(t, e) {
          IndexOfIdPrefix(t, [ObjSet(d, [x])], e);
        }
      }
      r
  }

  /** Appending sets does not move the first set carrying an id already present. */
  lemma {:induction false} IndexOfIdPrefix(t: Tuple, u: Tuple, e: int)
    requires HasId(t, e)
    ensures HasId(t + u, e) && IndexOfId(t + u, e) == IndexOfId(t, e)
  {
    assert (t + u)[IndexOfId(t, e)] == t[IndexOfId(t, e)];
    if t[0].id != e {
      assert (t + u)[1..] == t[1..] + u;
      var i :| 0 <= i < |t| && t[i].id == e;
      assert t[1..][i - 1].id == e;
      IndexOfIdPrefix(t[1..], u, e);
    }
  }

  /** c appended to the contexts and to both indexes. */
  function Extend(g: RelationGraph, c: Context): RelationGraph
    requires UniqueIds(g.domainContextMap) && AllSorted(g.domainContextMap)
    requires UniqueIds(g.domainRelations) && AllSorted(g.domainRelations)
  {
    var k := |g.contexts|;
    RelationGraph(
      g.contexts + [c],
      AddToSlot(AddToSlot(g.domainContextMap, c.dId1, k), c.dId2, k),
      AddToSlot(AddToSlot(g.domainRelations, c.dId1, c.dId2), c.dId2, c.dId1))
  }

  /** AddContext(c): appends c and records it in both indexes. */
  function AddContext(g: RelationGraph, c: Context): (r: RelationGraph)
    requires Valid(g) && Contexts.Valid(c)
    ensures Valid(r)
    ensures r.contexts == g.contexts + [c]
    ensures IsDomainId(r, c.dId1) && IsDomainId(r, c.dId2) && IsEdge(r, c.dId1, c.dId2)
  {
    ExtendValid(g, c);
    var r := Extend(g, c);
    assert Links(r.contexts[|g.contexts|], c.dId1, c.dId2);
    r
  }

  lemma ExtendValid(g: RelationGraph, c: Context)
    requires Valid(g) && Contexts.Valid(c)
    ensures Valid(Extend(g, c))
  {
    var r := Extend(g, c);
    ExtendTouches(g.contexts, c);
    ExtendLinks(g.contexts, c);
    ExtendContextMap(g, c);
    ExtendRelations(g, c);
    assert forall j :: 0 <= j < |g.contexts| ==> r.contexts[j] == g.contexts[j];
  }

  lemma ExtendTouches(cs: seq<Context>, c: Context)
    ensures forall d :: Touches(cs + [c], d) <==> Touches(cs, d) || HasDomain(c, d)
  {
    var r := cs + [c];
    forall d ensures Touches(r, d) <==> Touches(cs, d) || HasDomain(c, d) {
      if Touches(r, d) {
        var j :| 0 <= j < |r| && HasDomain(r[j], d);
        if j < |cs| {
          assert r[j] == cs[j];
        }
      }
      if Touches(cs, d) {
        var j :| 0 <= j < |cs| && HasDomain(cs[j], d);
        assert r[j] == cs[j];
      }
      assert r[|cs|] == c;
    }
  }

  lemma ExtendLinks(cs: seq<Context>, c: Context)
    ensures forall d, x :: AnyLinks(cs + [c], d, x) <==> AnyLinks(cs, d, x) || Links(c, d, x)
  {
    var r := cs + [c];
    forall d, x ensures AnyLinks(r, d, x) <==> AnyLinks(cs, d, x) || Links(c, d, x) {
      if AnyLinks(r, d, x) {
        var j :| 0 <= j < |r| && Links(r[j], d, x);
        if j < |cs| {
          assert r[j] == cs[j];
        }
      }
      if AnyLinks(cs, d, x) {
        var j :| 0 <= j < |cs| && Links(cs[j], d, x);
        assert r[j] == cs[j];
      }
      assert r[|cs|] == c;
    }
  }

  lemma ExtendContextMap(g: RelationGraph, c: Context)
    requires Valid(g)
    ensures var r := Extend(g, c);
      && UniqueIds(r.domainContextMap) && AllSorted(r.domainContextMap)
      && (forall d :: HasId(r.domainContextMap, d) <==> HasId(g.domainContextMap, d) || HasDomain(c, d))
      && (forall d: int, x: nat :: x in Slot(r.domainContextMap, d) <==>
            x < |r.contexts| && HasDomain(r.contexts[x], d))
  {
    var k := |g.contexts|;
    var m1 := AddToSlot(g.domainContextMap, c.dId1, k);
    var m2 := AddToSlot(m1, c.dId2, k);
    assert forall d: int, x: nat :: x in Slot(g.domainContextMap, d) <==> Carried(g.contexts, x, d);
    SlotChain(g.contexts, c, g.domainContextMap, m1, m2);
  }

  /** Context number x of cs has domain d. */
  predicate Carried(cs: seq<Context>, x: int, d: int)
  {
    0 <= x < |cs| && HasDomain(cs[x], d)
  }

  /** Recording context number |cs| under both its domains keeps the index of contexts exact. */
  lemma SlotChain(cs: seq<Context>, c: Context, m0: Tuple, m1: Tuple, m2: Tuple)
    requires forall e, y :: y in Slot(m1, e) <==> y in Slot(m0, e) || (e == c.dId1 && y == |cs|)
    requires forall e, y :: y in Slot(m2, e) <==> y in Slot(m1, e) || (e == c.dId2 && y == |cs|)
    requires forall d: int, x: nat :: x in Slot(m0, d) <==> Carried(cs, x, d)
    ensures forall d: int, x: nat :: x in Slot(m2, d) <==> Carried(cs + [c], x, d)
  {
    var r := cs + [c];
    forall d: int, x: nat ensures x in Slot(m2, d) <==> Carried(r, x, d) {
      assert x in Slot(m2, d) <==> x in Slot(m1, d) || (d == c.dId2 && x == |cs|);
      assert x in Slot(m1, d) <==> x in Slot(m0, d) || (d == c.dId1 && x == |cs|);
      assert x in Slot(m0, d) <==> Carried(cs, x, d);
      if x < |cs| {
        assert r[x] == cs[x];
      } else if x == |cs| {
        assert r[x] == c;
      }
    }
  }

  lemma ExtendRelations(g: RelationGraph, c: Context)
    requires Valid(g)
    ensures var r := Extend(g, c);
      && UniqueIds(r.domainRelations) && AllSorted(r.domainRelations)
      && (forall d :: HasId(r.domainRelations, d) <==> HasId(g.domainRelations, d) || HasDomain(c, d))
      && (forall d: int, x: nat :: x in Slot(r.domainRelations, d) <==>
            x in Slot(g.domainRelations, d) || Links(c, d, x))
  {
  }

  /** GetNumNodes(): the number of domains. */
  function GetNumNodes(g: RelationGraph): nat
  {
    |g.domainContextMap|
  }

  /** IsDomainId(d): some context touches d. */
  function IsDomainId(g: RelationGraph, d: int): (b: bool)
    ensures Valid(g) ==> (b <==> exists k :: 0 <= k < |g.contexts| && HasDomain(g.contexts[k], d))
  {
    HasId(g.domainContextMap, d)
  }

  /** Some context of cs links s and t. */
  function AnyLinks(cs: seq<Context>, s: int, t: int): (b: bool)
    ensures b <==> exists k :: 0 <= k < |cs| && Links(cs[k], s, t)
  {
    if cs == [] then
      false
    else
      assert forall k :: 1 <= k < |cs| ==> cs[k] == cs[1..][k - 1];
      Links(cs[0], s, t) || AnyLinks(cs[1..], s, t)
  }

  /** IsEdge(id1, id2): some context has domains id1 and id2. */
  function IsEdge(g: RelationGraph, id1: int, id2: int): (b: bool)
    ensures b <==> exists k :: 0 <= k < |g.contexts| && Links(g.contexts[k], id1, id2)
  {
    AnyLinks(g.contexts, id1, id2)
  }

  /** Edges have no direction. */
  lemma IsEdgeSymmetric(g: RelationGraph, id1: int, id2: int)
    ensures IsEdge(g, id1, id2) == IsEdge(g, id2, id1)
  {
    if IsEdge(g, id1, id2) {
      var k :| 0 <= k < |g.contexts| && Links(g.contexts[k], id1, id2);
      assert Links(g.contexts[k], id2, id1);
    }
    if IsEdge(g, id2, id1) {
      var k :| 0 <= k < |g.contexts| && Links(g.contexts[k], id2, id1);
      assert Links(g.contexts[k], id1, id2);
    }
  }

  /** The first context of cs linking s and t. */
  function FirstLink(cs: seq<Context>, s: int, t: int): (r: Option<Context>)
    ensures r.None? <==> !AnyLinks(cs, s, t)
    ensures r.Some? ==> r.value in cs && Links(r.value, s, t)
  {
    if cs == [] then None
    else if Links(cs[0], s, t) then Some(cs[0])
    else FirstLink(cs[1..], s, t)
  }

  /** GetContext(s, t): the context with domains s and t; none when (s, t) is not an edge. */
  function GetContext(g: RelationGraph, s: int, t: int): (r: Option<Context>)
    ensures r.None? <==> !IsEdge(g, s, t)
    ensures r.Some? ==> r.value in g.contexts && Links(r.value, s, t)
  {
    FirstLink(g.contexts, s, t)
  }

  /** The contexts found at the given positions, skipping positions past the end. */
  function ContextsAt(cs: seq<Context>, ps: seq<nat>): (r: seq<Context>)
    ensures forall c :: c in r <==> exists i :: 0 <= i < |ps| && ps[i] < |cs| && cs[ps[i]] == c
  {
    if ps == [] then []
    else
      var rest := ContextsAt(cs, ps[1..]);
      assert forall i :: 1 <= i < |ps| ==> ps[i] == ps[1..][i - 1];
      if ps[0] < |cs| then [cs[ps[0]]] + rest else rest
  }

  /** GetContexts(d): the contexts touching d, in the order they were added. */
  function GetContexts(g: RelationGraph, d: int): (r: seq<Context>)
    ensures Valid(g) ==> forall c :: c in r <==> c in g.contexts && HasDomain(c, d)
  {
    var r := ContextsAt(g.contexts, Slot(g.domainContextMap, d));
    assert Valid(g) ==> forall c :: c in g.contexts && HasDomain(c, d) ==> c in r by {
      if Valid(g) {
        forall c | c in g.contexts && HasDomain(c, d) ensures c in r {
          var k :| 0 <= k < |g.contexts| && g.contexts[k] == c;
          assert k in Slot(g.domainContextMap, d);
          var i :| 0 <= i < |Slot(g.domainContextMap, d)| && Slot(g.domainContextMap, d)[i] == k;
        }
      }
    }
    r
  }

  /** GetNeighbors(d): the domains that share an edge with d, ascending. */
  function GetNeighbors(g: RelationGraph, d: int): (r: seq<nat>)
    ensures Valid(g) ==> Sorted(r) && forall x :: x in r <==> IsEdge(g, d, x)
  {
    Slot(g.domainRelations, d)
  }

  /** The ids of the sets of t with more than one element, in order. */
  function BusyIds(t: Tuple): (r: seq<nat>)
    ensures forall x: int :: x in r <==> x >= 0 && exists i :: 0 <= i < |t| && t[i].id == x && |t[i].items| > 1
  {
    if t == [] then []
    else
      var rest := BusyIds(t[1..]);
      assert forall x: int :: x >= 0 ==> ((exists i :: 0 <= i < |t| && t[i].id == x && |t[i].items| > 1) <==>
             (t[0].id == x && |t[0].items| > 1) || x in rest) by {
        forall x: int | x >= 0 ensures (exists i :: 0 <= i < |t| && t[i].id == x && |t[i].items| > 1) <==>
                              (t[0].id == x && |t[0].items| > 1) || x in rest {
          if exists i :: 0 <= i < |t| && t[i].id == x && |t[i].items| > 1 {
            var i :| 0 <= i < |t| && t[i].id == x && |t[i].items| > 1;
            if i > 0 {
              assert t[1..][i - 1] == t[i];
            }
          }
          if x in rest {
            var i :| 0 <= i < |t| - 1 && t[1..][i].id == x && |t[1..][i].items| > 1;
            assert t[i + 1] == t[1..][i];
          }
        }
      }
      if t[0].id >= 0 && |t[0].items| > 1 then [t[0].id as nat] + rest
      else rest
  }

  /** GetArtDomains(): the articulation domains, those touched by more than one context. */
  function GetArtDomains(g: RelationGraph): (r: seq<nat>)
    ensures Valid(g) ==> forall x: int :: x in r <==> x >= 0 && IsArtNodeId(g, x)
  {
    var r := BusyIds(g.domainContextMap);
    assert Valid(g) ==> forall x: int :: x in r <==> x >= 0 && IsArtNodeId(g, x) by {
      if Valid(g) {
        forall x: int ensures x in r <==> x >= 0 && IsArtNodeId(g, x) {
          if x in r {
            var i :| 0 <= i < |g.domainContextMap| && g.domainContextMap[i].id == x && |g.domainContextMap[i].items| > 1;
            UniqueIndex(g.domainContextMap, i);
          }
          if x >= 0 && IsArtNodeId(g, x) {
            var i := IndexOfId(g.domainContextMap, x);
          }
        }
      }
    }
    r
  }

  /** IsArtNodeId(d): d is touched by more than one context. */
  predicate IsArtNodeId(g: RelationGraph, d: int)
  {
    |Slot(g.domainContextMap, d)| > 1
  }

  /** Each position in the context map names a context touching the domain. */
  lemma SlotEntry(g: RelationGraph, d: int, x: nat)
    requires Valid(g) && x in Slot(g.domainContextMap, d)
    ensures x < |g.contexts| && HasDomain(g.contexts[x], d)
  {
  }

  /** In a valid graph the articulation domains are those of two different contexts. */
  lemma ArtNodeMeaning(g: RelationGraph, d: int)
    requires Valid(g)
    ensures IsArtNodeId(g, d) <==>
              exists k1, k2 :: 0 <= k1 < k2 < |g.contexts| && HasDomain(g.contexts[k1], d) && HasDomain(g.contexts[k2], d)
  {
    var p := Slot(g.domainContextMap, d);
    if |p| > 1 {
      assert Sorted(p) by {
        if HasId(g.domainContextMap, d) {
          var i := IndexOfId(g.domainContextMap, d);
        }
      }
      SlotEntry(g, d, p[0]);
      SlotEntry(g, d, p[1]);
      assert 0 <= p[0] < p[1] < |g.contexts| && HasDomain(g.contexts[p[0]], d) && HasDomain(g.contexts[p[1]], d);
    }
    if exists k1, k2 :: 0 <= k1 < k2 < |g.contexts| && HasDomain(g.contexts[k1], d) && HasDomain(g.contexts[k2], d) {
      var k1, k2 :| 0 <= k1 < k2 < |g.contexts| && HasDomain(g.contexts[k1], d) && HasDomain(g.contexts[k2], d);
      assert k1 in p && k2 in p;
      TwoMembers(p, k1, k2);
    }
  }

  /** A sequence holding two different values has at least two elements. */
  lemma TwoMembers(p: seq<nat>, a: nat, b: nat)
    requires a in p && b in p && a != b
    ensures |p| > 1
  {
    var i :| 0 <= i < |p| && p[i] == a;
    var j :| 0 <= j < |p| && p[j] == b;
    assert i != j;
  }

  /** NumObjsInDomain(d): the size of domain d as its first context sees it; 0 for an unknown domain. */
  function NumObjsInDomain(g: RelationGraph, d: int): (n: nat)
    ensures Valid(g) && !IsDomainId(g, d) ==> n == 0
  {
    var p := Slot(g.domainContextMap, d);
    if p != [] && p[0] < |g.contexts| then GetNumSets(g.contexts[p[0]], d) else 0
  }

  /** GetLabels(d): all object ids of domain d. */
  function GetLabels(g: RelationGraph, d: int): (r: seq<nat>)
    ensures Sorted(r) && |r| == NumObjsInDomain(g, d)
    ensures forall x: int :: x in r <==> 0 <= x < NumObjsInDomain(g, d)
  {
    Range(NumObjsInDomain(g, d))
  }

  /** Sum of the domain sizes over the sets of t. */
  function SumObjs(g: RelationGraph, t: Tuple): (n: nat)
    ensures forall i :: 0 <= i < |t| ==> NumObjsInDomain(g, t[i].id) <= n
  {
    if t == [] then 0
    else
      assert forall i :: 1 <= i < |t| ==> t[i] == t[1..][i - 1];
      NumObjsInDomain(g, t[0].id) + SumObjs(g, t[1..])
  }

  /** GetTotalNumObjs(): the number of objects over all domains; no domain has more. */
  function GetTotalNumObjs(g: RelationGraph): (n: nat)
    ensures Valid(g) ==> forall d :: NumObjsInDomain(g, d) <= n
  {
    var n := SumObjs(g, g.domainContextMap);
    assert Valid(g) ==> forall d :: NumObjsInDomain(g, d) <= n by {
      if Valid(g) {
        forall d ensures NumObjsInDomain(g, d) <= n {
          if IsDomainId(g, d) {
            var i := IndexOfId(g.domainContextMap, d);
          }
        }
      }
    }
    n
  }

  /** Object x of domain s has a non-empty adjacency in every context of cs. */
  predicate SupportedIn(cs: seq<Context>, s: int, x: nat)
  {
    forall c :: c in cs ==> |GetSet(c, s, x)| > 0
  }

  /** The elements of xs that are supported in every context of cs, in order. */
  function FilterSupported(cs: seq<Context>, s: int, xs: seq<nat>): (r: seq<nat>)
    ensures forall x :: x in r <==> x in xs && SupportedIn(cs, s, x)
    ensures Sorted(xs) ==> Sorted(r)
  {
    if xs == [] then []
    else
      var rest := FilterSupported(cs, s, xs[1..]);
      assert forall x :: x in xs <==> x == xs[0] || x in xs[1..];
      if SupportedIn(cs, s, xs[0]) then
        assert Sorted(xs) ==> Sorted([xs[0]] + rest) by {
          if Sorted(xs) {
            SortedTail(xs);
            SortedCons(xs[0], rest);
          }
        }
        [xs[0]] + rest
      else
        assert Sorted(xs) ==> Sorted(rest) by {
          if Sorted(xs) {
            SortedTail(xs);
          }
        }
        rest
  }

  /** GetCommonObjectsArtNode(s): the objects of s related to something in every context of s. */
  function GetCommonObjectsArtNode(g: RelationGraph, s: int): (r: seq<nat>)
    ensures Sorted(r)
    ensures forall x: nat :: x in r <==> x < NumObjsInDomain(g, s) && SupportedIn(GetContexts(g, s), s, x)
  {
    FilterSupported(GetContexts(g, s), s, GetLabels(g, s))
  }

  /**
    The shape the search assumes: a valid graph whose domains are numbered 1 .. N,
    every context of a domain agreeing on its size.
   */
  ghost predicate Numbered(g: RelationGraph)
  {
    && Valid(g)
    && (forall d :: IsDomainId(g, d) <==> 1 <= d <= GetNumNodes(g))
    && (forall k, d :: 0 <= k < |g.contexts| && HasDomain(g.contexts[k], d) ==>
          GetNumSets(g.contexts[k], d) == NumObjsInDomain(g, d))
  }
}
