/**
  The simple weighted reward of source/Count_Rewards.cpp: how well object obj of
  domain fits the current tuple a, summed over the neighbour domains of domain.
  Floating point is modelled by exact reals.
 */
module CountRewards {
  import opened IOSets
  import opened SetOps
  import opened NClusters
  import opened Contexts
  import opened RelationGraphs
  import opened LatticeOps

  /** The caller's obligation: every neighbour of domain has a slot in a. */
  predicate SlotsForNeighbours(a: Tuple, g: RelationGraph, domain: int, ns: seq<nat>)
  {
    forall t :: t in ns ==> HasId(a, t) && IsEdge(g, domain, t)
  }

  /** ones: the members of the slot that obj is related to. */
  function Ones(adj: seq<nat>, slot: seq<nat>): nat
  {
    |Intersect(adj, slot)|
  }

  /** zeros: the members of the slot that obj is not related to. */
  function Zeros(adj: seq<nat>, slot: seq<nat>): nat
  {
    |Difference(slot, adj)|
  }

  /** (ones − w·zeros) / B. */
  function Quotient(ones: nat, zeros: nat, b: nat, w: real): real
    requires b > 0
  {
    ((ones as real) - w * (zeros as real)) / (b as real)
  }

  /** What neighbour t adds to the score: (ones − w·zeros) / |slot|, or nothing for an empty slot. */
  function Contribution(a: Tuple, g: RelationGraph, domain: int, obj: nat, t: int, w: real): real
    requires HasId(a, t) && IsEdge(g, domain, t)
  {
    var slot := SetById(a, t).items;
    if |slot| == 0 then 0.0
    else
      var adj := GetSet(EdgeContext(g, domain, t), domain, obj);
      Quotient(Ones(adj, slot), Zeros(adj, slot), |slot|, w)
  }

  /** The score accumulated over the neighbours ns, in order. */
  function Score(a: Tuple, g: RelationGraph, domain: int, obj: nat, w: real, ns: seq<nat>): real
    requires SlotsForNeighbours(a, g, domain, ns)
  {
    if ns == [] then 0.0
    else Score(a, g, domain, obj, w, ns[..|ns| - 1]) + Contribution(a, g, domain, obj, ns[|ns| - 1], w)
  }

  /**
    Simple_Weighted_Score(a, obj, domain, w, hin): the loop over the neighbours of
    domain, adding (ones − w·zeros)/B for every neighbour whose slot has B > 0 members.
   */
  method SimpleWeightedScore(a: Tuple, obj: nat, domain: int, w: real, g: RelationGraph) returns (score: real)
    requires SlotsForNeighbours(a, g, domain, GetNeighbors(g, domain))
    ensures score == Score(a, g, domain, obj, w, GetNeighbors(g, domain))
  {
    var neighbors := GetNeighbors(g, domain);
    score := 0.0;
    var i := 0;
    while i < |neighbors|
      invariant 0 <= i <= |neighbors|
      invariant score == Score(a, g, domain, obj, w, neighbors[..i])
    {
      var t := neighbors[i];
      assert neighbors[..i + 1][..i] == neighbors[..i];
      var slot := SetById(a, t).items;
      var b := |slot|;
      if b > 0 {
        var currContext := EdgeContext(g, domain, t);
        var adj := GetSet(currContext, domain, obj);
        var tmp := Intersect(adj, slot);
        var tmp1 := Difference(slot, adj);
        var zeros := |tmp1|;
        var ones := |tmp|;
        score := score + Quotient(ones, zeros, b, w);
      }
      i := i + 1;
    }
    assert neighbors[..|neighbors|] == neighbors;
  }

  /** On ascending sets, every member of the slot is counted exactly once, as a one or as a zero. */
  lemma OnesZerosPartition(adj: seq<nat>, slot: seq<nat>)
    requires Sorted(adj) && Sorted(slot)
    ensures Ones(adj, slot) + Zeros(adj, slot) == |slot|
  {
    IntersectCommutes(adj, slot);
    IntersectDifferenceSize(slot, adj);
  }

  /** The region a real quotient (o − w·z)/b stays in when 0 ≤ o, z ≤ b and w ≥ 0. */
  lemma QuotientBounds(o: nat, z: nat, b: nat, w: real)
    requires o <= b && z <= b && b > 0 && w >= 0.0
    ensures -w <= Quotient(o, z, b, w) <= 1.0
  {
    var ro, rz, rb := o as real, z as real, b as real;
    assert w * rz <= w * rb;
    DivBounds(ro - w * rz, -w, rb);
  }

  /** lo·b ≤ x ≤ b with b > 0 puts x / b in [lo, 1]. */
  lemma DivBounds(x: real, lo: real, b: real)
    requires b > 0.0 && lo * b <= x <= b
    ensures lo <= x / b <= 1.0
  {
  }

  /** A slot whose members are all ones contributes exactly 1. */
  lemma QuotientFull(b: nat, w: real)
    requires b > 0
    ensures Quotient(b, 0, b, w) == 1.0
  {
  }

  /** With a non-negative weight each contribution lies in [−w, 1]. */
  lemma ContributionBounds(a: Tuple, g: RelationGraph, domain: int, obj: nat, t: int, w: real)
    requires HasId(a, t) && IsEdge(g, domain, t) && w >= 0.0
    ensures -w <= Contribution(a, g, domain, obj, t, w) <= 1.0
  {
    var slot := SetById(a, t).items;
    if |slot| > 0 {
      var adj := GetSet(EdgeContext(g, domain, t), domain, obj);
      QuotientBounds(Ones(adj, slot), Zeros(adj, slot), |slot|, w);
    }
  }

  /** Only neighbours whose slot in a is non-empty contribute. */
  function NonEmptySlots(a: Tuple, ns: seq<nat>): (k: nat)
    requires forall t :: t in ns ==> HasId(a, t)
    ensures k <= |ns|
  {
    if ns == [] then 0
    else NonEmptySlots(a, ns[..|ns| - 1]) + (if SetById(a, ns[|ns| - 1]).items == [] then 0 else 1)
  }

  /** k·w, as a repeated sum so that the bounds below stay linear. */
  function Times(k: nat, w: real): real
  {
    if k == 0 then 0.0 else Times(k - 1, w) + w
  }

  /** One more summand. */
  lemma TimesSucc(k: nat, w: real)
    ensures Times(k + 1, w) == Times(k, w) + w
  {
  }

  /** Times is multiplication. */
  lemma {:induction false} TimesIsProduct(k: nat, w: real)
    ensures Times(k, w) == (k as real) * w
  {
    if k > 0 {
      TimesIsProduct(k - 1, w);
      assert ((k - 1) as real) * w + w == (k as real) * w;
    }
  }

  /** With a non-negative weight the score lies between −w and 1 times the number of non-empty slots. */
  lemma {:induction false} ScoreBounds(a: Tuple, g: RelationGraph, domain: int, obj: nat, w: real, ns: seq<nat>)
    requires SlotsForNeighbours(a, g, domain, ns) && w >= 0.0
    ensures -Times(NonEmptySlots(a, ns), w) <= Score(a, g, domain, obj, w, ns) <= NonEmptySlots(a, ns) as real
  {
    if ns != [] {
      var t := ns[|ns| - 1];
      var pre := ns[..|ns| - 1];
      assert forall u :: u in pre ==> u in ns;
      ScoreBounds(a, g, domain, obj, w, pre);
      ContributionBounds(a, g, domain, obj, t, w);
      var empty := SetById(a, t).items == [];
      var k := NonEmptySlots(a, pre);
      var n := NonEmptySlots(a, ns);
      assert n == if empty then k else k + 1;
      TimesSucc(k, w);
      BoundsStep(Times(k, w), k, Score(a, g, domain, obj, w, pre), Contribution(a, g, domain, obj, t, w), w, empty,
                 Score(a, g, domain, obj, w, ns), n, Times(n, w));
    }
  }

  /** Adding a contribution in [−w, 1], or 0 for an empty slot, moves the bounds by one slot at most. */
  lemma BoundsStep(tk: real, k: nat, sp: real, c: real, w: real, empty: bool, total: real, n: nat, tn: real)
    requires -tk <= sp <= k as real
    requires -w <= c <= 1.0
    requires empty ==> c == 0.0
    requires total == sp + c
    requires n == (if empty then k else k + 1)
    requires tn == (if empty then tk else tk + w)
    ensures -tn <= total <= n as real
  {
  }

  /** With no non-empty neighbour slot the score is 0. */
  lemma {:induction false} ScoreZero(a: Tuple, g: RelationGraph, domain: int, obj: nat, w: real, ns: seq<nat>)
    requires SlotsForNeighbours(a, g, domain, ns)
    requires NonEmptySlots(a, ns) == 0
    ensures Score(a, g, domain, obj, w, ns) == 0.0
  {
    if ns != [] {
      assert forall u :: u in ns[..|ns| - 1] ==> u in ns;
      ScoreZero(a, g, domain, obj, w, ns[..|ns| - 1]);
    }
  }

  /** obj is related, in the context of (domain, t), to every member of a's slot for t. */
  predicate RelatesToSlot(a: Tuple, g: RelationGraph, domain: int, obj: nat, t: int)
    requires HasId(a, t) && IsEdge(g, domain, t)
  {
    forall x :: x in SetById(a, t).items ==> x in GetSet(EdgeContext(g, domain, t), domain, obj)
  }

  /** A slot obj is fully related to contributes exactly 1, whatever the weight. */
  lemma FullContribution(a: Tuple, g: RelationGraph, domain: int, obj: nat, t: int, w: real)
    requires RelationGraphs.Valid(g) && HasId(a, t) && IsEdge(g, domain, t)
    requires Sorted(SetById(a, t).items) && SetById(a, t).items != []
    requires RelatesToSlot(a, g, domain, obj, t)
    ensures Contribution(a, g, domain, obj, t, w) == 1.0
  {
    var slot := SetById(a, t).items;
    var c := EdgeContext(g, domain, t);
    var adj := GetSet(c, domain, obj);
    AdjacencySorted(c, domain, obj);
    SortedUnique(Intersect(adj, slot), slot);
    NoMembersEmpty(Difference(slot, adj));
    QuotientFull(|slot|, w);
  }

  /** A sequence without members is empty. */
  lemma NoMembersEmpty(d: seq<nat>)
    ensures (forall x :: x !in d) ==> d == []
  {
    if d != [] {
      assert d[0] in d;
    }
  }

  /**
    If obj relates to every member of every non-empty neighbour slot (slots ascending),
    the score is the number of non-empty neighbour slots.
   */
  lemma {:induction false} ScoreOfFullRelation(a: Tuple, g: RelationGraph, domain: int, obj: nat, w: real, ns: seq<nat>)
    requires RelationGraphs.Valid(g) && SlotsForNeighbours(a, g, domain, ns)
    requires forall t :: t in ns ==> Sorted(SetById(a, t).items) && RelatesToSlot(a, g, domain, obj, t)
    ensures Score(a, g, domain, obj, w, ns) == NonEmptySlots(a, ns) as real
  {
    if ns != [] {
      var t := ns[|ns| - 1];
      assert forall u :: u in ns[..|ns| - 1] ==> u in ns;
      ScoreOfFullRelation(a, g, domain, obj, w, ns[..|ns| - 1]);
      if SetById(a, t).items != [] {
        FullContribution(a, g, domain, obj, t, w);
      }
    }
  }
}
