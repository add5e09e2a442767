/**
  The algorithm helpers of headers/algos_helpers/basic.h: a list of stored n-clusters,
  setting an n-cluster's quality through a quality function, and collecting the edges
  of a bi-cluster in a map keyed by the Cantor pairing of the two objects.
 */
module Basic {
  import opened IOSets
  import opened SetOps
  import opened NClusters

  /** An independent copy of an n-cluster: its sets and tags, frozen. */
  datatype Cluster = Cluster(sets: Tuple, quality: real, id: int, marked: bool)

  /** The copy new NCluster(*c) takes of c. */
  function Snapshot(c: NCluster): (r: Cluster)
    reads c
    ensures r.sets == c.sets && r.quality == c.quality && r.id == c.id && r.marked == c.marked
  {
    Cluster(c.sets, c.quality, c.id, c.marked)
  }

  /** vector<NCluster*>: the stored n-clusters, each an independent copy. */
  class ClusterList {
    var items: seq<Cluster>

    constructor ()
      ensures items == []
    {
      items := [];
    }

    /** StoreCluster(v, c): a copy of c is appended; earlier entries stay. */
    method StoreCluster(c: NCluster)
      modifies this
      ensures items == old(items) + [Snapshot(c)]
    {
      items := items + [Snapshot(c)];
    }

    /** SwapDelete(v, c, i): position i becomes a copy of c; the length and every other entry stay. */
    method SwapDelete(c: NCluster, i: nat)
      requires i < |items|
      modifies this
      ensures items == old(items)[i := Snapshot(c)]
    {
      items := items[i := Snapshot(c)];
    }
  }

  /** SetQuality(c, params, Quality): c's quality becomes Quality(c, params); nothing else changes. */
  method SetQuality(c: NCluster, params: seq<real>, quality: (Tuple, seq<real>) -> real)
    modifies c
    ensures c.quality == quality(old(c.sets), params)
    ensures c.sets == old(c.sets) && c.id == old(c.id) && c.marked == old(c.marked)
  {
    c.SetQuality(quality(c.sets, params));
  }

  /** Every object pair of A × B can be paired without leaving the int range. */
  predicate AllPairable(xs: seq<nat>, ys: seq<nat>)
  {
    forall a, b :: a in xs && b in ys ==> Pairable(a, b)
  }

  /** Every edge is stored under the Cantor code of its two objects. */
  predicate KeysEncode(m: map<nat, (nat, nat)>)
  {
    forall k :: k in m ==> m[k] == InverseCantor(k)
  }

  /** The edges from a to every object of ys. */
  function RowEdges(a: nat, ys: seq<nat>): (m: map<nat, (nat, nat)>)
    requires AllPairable([a], ys)
    ensures forall k :: k in m <==> exists b :: b in ys && k == CantorPairing(a, b)
    ensures KeysEncode(m)
  {
    if ys == [] then map[]
    else
      var pre := ys[..|ys| - 1];
      var b := ys[|ys| - 1];
      assert forall y :: y in ys <==> y in pre || y == b;
      CantorRoundTrip(a, b);
      RowEdges(a, pre)[CantorPairing(a, b) := (a, b)]
  }

  /** The edges of the bi-cluster (xs, ys): every pair (a, b), keyed by CantorPairing(a, b). */
  function PairEdges(xs: seq<nat>, ys: seq<nat>): (m: map<nat, (nat, nat)>)
    requires AllPairable(xs, ys)
    ensures forall k :: k in m <==> exists a, b :: a in xs && b in ys && k == CantorPairing(a, b)
    ensures KeysEncode(m)
  {
    if xs == [] then map[]
    else
      var pre := xs[..|xs| - 1];
      var a := xs[|xs| - 1];
      assert forall x :: x in xs <==> x in pre || x == a;
      PairEdges(pre, ys) + RowEdges(a, ys)
  }

  /** Each pair of the bi-cluster is found under its own code. */
  lemma PairEdgesLookup(xs: seq<nat>, ys: seq<nat>, a: nat, b: nat)
    requires AllPairable(xs, ys) && a in xs && b in ys
    ensures CantorPairing(a, b) in PairEdges(xs, ys)
    ensures PairEdges(xs, ys)[CantorPairing(a, b)] == (a, b)
  {
    CantorRoundTrip(a, b);
  }

  /** Map union is associative. */
  lemma UnionAssoc(m: map<nat, (nat, nat)>, p: map<nat, (nat, nat)>, q: map<nat, (nat, nat)>)
    ensures m + p + q == m + (p + q)
  {
  }

  /** Updating a union is updating its right operand. */
  lemma UnionUpdate(m: map<nat, (nat, nat)>, p: map<nat, (nat, nat)>, k: nat, v: (nat, nat))
    ensures (m + p)[k := v] == m + p[k := v]
  {
  }

  /** map<int, pair<int,int>>: the collected edges. */
  class EdgeMap {
    var m: map<nat, (nat, nat)>

    constructor ()
      ensures m == map[]
    {
      m := map[];
    }

    /** The inner loop of AddBiCluster_Edges: the edges from a to every object of ys. */
    method AddRow(a: nat, ys: seq<nat>)
      requires AllPairable([a], ys)
      modifies this
      ensures m == old(m) + RowEdges(a, ys)
    {
      var j := 0;
      while j < |ys|
        invariant 0 <= j <= |ys|
        invariant m == old(m) + RowEdges(a, ys[..j])
      {
        var b := ys[j];
        assert ys[..j + 1][..j] == ys[..j];
        UnionUpdate(old(m), RowEdges(a, ys[..j]), CantorPairing(a, b), (a, b));
        m := m[CantorPairing(a, b) := (a, b)];
        j := j + 1;
      }
      assert ys[..|ys|] == ys;
    }

    /**
      AddBiCluster_Edges(c, id1, id2, theMap): for c = (A, B), with A the set of c
      carrying id1 and B the one carrying id2, every pair (ai, bj) is added.
     */
    method AddBiClusterEdges(c: NCluster, id1: int, id2: int)
      requires HasId(c.sets, id1) && HasId(c.sets, id2)
      requires AllPairable(SetById(c.sets, id1).items, SetById(c.sets, id2).items)
      modifies this
      ensures m == old(m) + PairEdges(SetById(c.sets, id1).items, SetById(c.sets, id2).items)
    {
      var xs := c.GetSetById(id1).items;
      var ys := c.GetSetById(id2).items;
      var i := 0;
      while i < |xs|
        invariant 0 <= i <= |xs|
        invariant m == old(m) + PairEdges(xs[..i], ys)
      {
        AddRowOf(xs, ys, i, old(m));
        i := i + 1;
      }
      assert xs[..|xs|] == xs;
    }

    /** One turn of AddBiClusterEdges: the row of xs[i] joins the edges of the rows before it. */
    method AddRowOf(xs: seq<nat>, ys: seq<nat>, i: nat, ghost m0: map<nat, (nat, nat)>)
      requires i < |xs| && AllPairable(xs, ys)
      requires m == m0 + PairEdges(xs[..i], ys)
      modifies this
      ensures m == m0 + PairEdges(xs[..i + 1], ys)
    {
      var a := xs[i];
      assert AllPairable([a], ys);
      AddRow(a, ys);
      assert xs[..i + 1][..i] == xs[..i];
      UnionAssoc(m0, PairEdges(xs[..i], ys), RowEdges(a, ys));
    }
  }
}
