/**
  The network-level seed sampler of source/random_sample.cpp: SubspaceFreqNetwork
  draws a star around the start domain, records it, narrows the sample space to it
  (AdjustSampleSubspace), and then draws stars around articulation domains.
 */
module SampleNetwork {
  import opened IOSets
  import opened SetOps
  import opened Randomness
  import opened NClusters
  import opened Contexts
  import opened RelationGraphs
  import opened RandomSample
  import opened Wrappers

  // ---------------------------------------------------------------------------
  // AdjustSampleSubspace
  // ---------------------------------------------------------------------------

  /** Replacing a set by one with the same id keeps the ids. */
  lemma ReplaceIds(t: Tuple, k: nat, a: ObjSet)
    requires k < |t| && t[k].id == a.id
    ensures Ids(t[k := a]) == Ids(t)
  {
    assert forall i :: 0 <= i < |t| ==> Ids(t[k := a])[i] == Ids(t)[i];
  }

  /** Tuples with the same ids carry the same ids. */
  lemma HasIdByIds(t: Tuple, u: Tuple, x: int)
    requires Ids(t) == Ids(u)
    ensures HasId(t, x) <==> HasId(u, x)
  {
    if HasId(t, x) {
      var i :| 0 <= i < |t| && t[i].id == x;
      assert Ids(u)[i] == x;
    }
    if HasId(u, x) {
      var i :| 0 <= i < |u| && u[i].id == x;
      assert Ids(t)[i] == x;
    }
  }

  /** The copies AdjustSampleSubspace makes of sample: for each position, the first set carrying its id. */
  function Copies(sample: Tuple): (r: Tuple)
    ensures |r| == |sample| && Ids(r) == Ids(sample)
  {
    seq(|sample|, i requires 0 <= i < |sample| => SetById(sample, sample[i].id))
  }

  /** Each copy is the first set of sample carrying the id of that position. */
  lemma CopiesAt(sample: Tuple, i: nat)
    requires i < |sample|
    ensures HasId(sample, sample[i].id) && Copies(sample)[i] == SetById(sample, sample[i].id)
  {
  }

  /** One of the first k sets of t carries x. */
  predicate IdAmong(t: Tuple, k: nat, x: int)
  {
    exists j :: 0 <= j < k && j < |t| && t[j].id == x
  }

  lemma IdAmongSnoc(t: Tuple, k: nat, x: int)
    requires k < |t|
    ensures IdAmong(t, k + 1, x) <==> IdAmong(t, k, x) || t[k].id == x
  {
    if t[k].id == x {
      assert 0 <= k < k + 1 && t[k].id == x;
    }
  }

  /**
    The sample space after the first k rounds of AdjustSampleSubspace: the first slot
    of each id that one of the first k sets of sample carries holds sample's first
    set with that id; every other slot is as in sub.
   */
  function Absorb(sub: Tuple, sample: Tuple, k: nat): (r: Tuple)
    ensures |r| == |sub| && forall i :: 0 <= i < |sub| ==> r[i].id == sub[i].id
  {
    seq(|sub|, i requires 0 <= i < |sub| =>
      if IndexOfId(sub, sub[i].id) == i && IdAmong(sample, k, sub[i].id) then SetById(sample, sub[i].id) else sub[i])
  }

  lemma AbsorbIds(sub: Tuple, sample: Tuple, k: nat)
    ensures Ids(Absorb(sub, sample, k)) == Ids(sub)
  {
    var r := Absorb(sub, sample, k);
    assert forall i :: 0 <= i < |sub| ==> Ids(r)[i] == Ids(sub)[i];
  }

  /** One more round of AdjustSampleSubspace is AssignSetById of the next set's copy. */
  lemma {:induction false} AbsorbStep(sub: Tuple, sample: Tuple, k: nat)
    requires k < |sample|
    ensures HasId(Absorb(sub, sample, k), sample[k].id) ==>
      Absorb(sub, sample, k + 1) ==
      Absorb(sub, sample, k)[IndexOfId(Absorb(sub, sample, k), sample[k].id) := SetById(sample, sample[k].id)]
    ensures !HasId(Absorb(sub, sample, k), sample[k].id) ==> Absorb(sub, sample, k + 1) == Absorb(sub, sample, k)
  {
    var cur := Absorb(sub, sample, k);
    var next := Absorb(sub, sample, k + 1);
    var x := sample[k].id;
    AbsorbIds(sub, sample, k);
    IndexOfIdByIds(cur, sub, x);
    HasIdByIds(cur, sub, x);
    forall y ensures IdAmong(sample, k + 1, y) <==> IdAmong(sample, k, y) || y == x {
      IdAmongSnoc(sample, k, y);
    }
    if HasId(cur, x) {
      var m := IndexOfId(cur, x);
      forall i | 0 <= i < |sub| ensures next[i] == cur[m := SetById(sample, x)][i] {
        if i == m {
          assert IdAmong(sample, k + 1, x);
        }
      }
    } else {
      forall i | 0 <= i < |sub| ensures next[i] == cur[i] {
        assert sub[i].id != x;
      }
    }
  }

  /**
    What AdjustSampleSubspace leaves in the sample space: every slot whose id one of
    the absorbed sets carries holds sample's first set with that id; every other
    slot is unchanged.
   */
  lemma AbsorbMeaning(sub: Tuple, sample: Tuple, k: nat, x: int)
    requires HasId(sub, x)
    ensures HasId(Absorb(sub, sample, k), x)
    ensures SetById(Absorb(sub, sample, k), x) == if IdAmong(sample, k, x) then SetById(sample, x) else SetById(sub, x)
  {
    AbsorbIds(sub, sample, k);
    IndexOfIdByIds(Absorb(sub, sample, k), sub, x);
    HasIdByIds(Absorb(sub, sample, k), sub, x);
  }

  /** The ids the domain set records: those of sample, as naturals. */
  predicate NatIds(t: Tuple)
  {
    forall i :: 0 <= i < |t| ==> t[i].id >= 0
  }

  /** The ids of a tuple whose ids are naturals. */
  function IdsNat(t: Tuple): (r: seq<nat>)
    requires NatIds(t)
    ensures |r| == |t| && forall i :: 0 <= i < |t| ==> r[i] == t[i].id
  {
    seq(|t|, i requires 0 <= i < |t| => t[i].id as nat)
  }

  /**
    AdjustSampleSubspace(sampleSubspace, sample, ret, completedDomains): for each set of
    sample, in order, a copy of the first set of sample with its id is added to ret, the
    id is recorded as completed, and the set of sampleSubspace with that id is
    overwritten by the same copy.
   */
  method AdjustSampleSubspace(sampleSubspace: NCluster, sample: Tuple, ret: NCluster, completed: IOSet)
    requires sampleSubspace != ret && NatIds(sample)
    modifies sampleSubspace, ret, completed
    ensures ret.sets == old(ret.sets) + Copies(sample)
    ensures completed.d == old(completed.d) + IdsNat(sample)
    ensures sampleSubspace.sets == Absorb(old(sampleSubspace.sets), sample, |sample|)
    ensures ret.quality == old(ret.quality) && ret.id == old(ret.id) && ret.marked == old(ret.marked)
    ensures sampleSubspace.quality == old(sampleSubspace.quality) && sampleSubspace.id == old(sampleSubspace.id)
    ensures sampleSubspace.marked == old(sampleSubspace.marked)
    ensures completed.id == old(completed.id) && completed.marked == old(completed.marked)
    ensures completed.quality == old(completed.quality)
  {
    var i := 0;
    assert sampleSubspace.sets == Absorb(sampleSubspace.sets, sample, 0);
    while i < |sample|
      invariant 0 <= i <= |sample|
      invariant ret.sets == old(ret.sets) + Copies(sample)[..i]
      invariant completed.d == old(completed.d) + IdsNat(sample)[..i]
      invariant sampleSubspace.sets == Absorb(old(sampleSubspace.sets), sample, i)
      invariant ret.quality == old(ret.quality) && ret.id == old(ret.id) && ret.marked == old(ret.marked)
      invariant sampleSubspace.quality == old(sampleSubspace.quality) && sampleSubspace.id == old(sampleSubspace.id)
      invariant sampleSubspace.marked == old(sampleSubspace.marked)
      invariant completed.id == old(completed.id) && completed.marked == old(completed.marked)
      invariant completed.quality == old(completed.quality)
    {
      var currId := sample[i].id;
      var tt := SetById(sample, currId);
      CopiesAt(sample, i);
      ret.AddSet(tt);
      PrefixSnoc(Copies(sample), i);
      completed.Add(currId);
      PrefixSnoc(IdsNat(sample), i);
      AbsorbStep(old(sampleSubspace.sets), sample, i);
      sampleSubspace.AssignSetById(currId, tt);
      i := i + 1;
    }
    PrefixAll(Copies(sample));
    PrefixAll(IdsNat(sample));
  }

  lemma PrefixSnoc<T>(s: seq<T>, i: nat)
    requires i < |s|
    ensures s[..i + 1] == s[..i] + [s[i]]
  {
  }

  lemma PrefixAll<T>(s: seq<T>)
    ensures s[..|s|] == s
  {
  }

  // ---------------------------------------------------------------------------
  // SubspaceFreqNetwork
  // ---------------------------------------------------------------------------

  /** Every set of t is drawn from the set of pool carrying the same id. */
  predicate Within(t: Tuple, pool: Tuple)
  {
    forall i, x :: 0 <= i < |t| && x in t[i].items ==> x in Slot(pool, t[i].id)
  }

  /** Every slot of sub is part of the slot of pool with the same id. */
  ghost predicate SlotsWithin(sub: Tuple, pool: Tuple)
  {
    forall d: int, x: nat :: x in Slot(sub, d) ==> x in Slot(pool, d)
  }

  /** A sample space for the network: ascending sets, one for every domain of g. */
  ghost predicate CoversDomains(g: RelationGraph, t: Tuple)
  {
    AllSorted(t) && forall d :: IsDomainId(g, d) ==> HasId(t, d)
  }

  /** The elements of ns that are articulation domains and not done, in order. */
  function Pushable(ns: seq<nat>, art: seq<nat>, done: seq<nat>): seq<nat>
  {
    if ns == [] then []
    else
      var last := ns[|ns| - 1];
      Pushable(ns[..|ns| - 1], art, done) + (if last in art && last !in done then [last] else [])
  }

  /** The pushable elements are exactly the elements of ns in art and not done. */
  lemma {:induction false} PushableMembers(ns: seq<nat>, art: seq<nat>, done: seq<nat>)
    ensures forall x :: x in Pushable(ns, art, done) <==> x in ns && x in art && x !in done
  {
    if ns != [] {
      var last := ns[|ns| - 1];
      PushableMembers(ns[..|ns| - 1], art, done);
      assert ns == ns[..|ns| - 1] + [last];
    }
  }

  /** The articulation neighbours of s, in ascending order: the queue the walk starts from. */
  function ArtNeighbours(g: RelationGraph, s: int): seq<nat>
  {
    Pushable(GetNeighbors(g, s), GetArtDomains(g), [])
  }

  /** The articulation neighbours of s are the neighbours of s that are articulation domains. */
  lemma ArtNeighboursMeaning(g: RelationGraph, s: int)
    requires RelationGraphs.Valid(g)
    ensures forall x :: x in ArtNeighbours(g, s) <==> IsEdge(g, s, x) && IsArtNodeId(g, x)
  {
    PushableMembers(GetNeighbors(g, s), GetArtDomains(g), []);
  }

  lemma PushableStep(ns: seq<nat>, art: seq<nat>, done: seq<nat>, j: nat)
    requires j < |ns|
    ensures Pushable(ns[..j + 1], art, done) ==
              Pushable(ns[..j], art, done) + (if ns[j] in art && ns[j] !in done then [ns[j]] else [])
  {
    assert ns[..j + 1][..j] == ns[..j];
  }

  /** Nothing is pushable once every element is done. */
  lemma {:induction false} PushableNone(ns: seq<nat>, art: seq<nat>, done: seq<nat>)
    requires forall x :: x in ns ==> x in done
    ensures Pushable(ns, art, done) == []
  {
    if ns != [] {
      assert forall x :: x in ns[..|ns| - 1] ==> x in ns;
      PushableNone(ns[..|ns| - 1], art, done);
      assert ns[|ns| - 1] in ns;
    }
  }

  /** The other domain of a context of a valid graph is a domain of the graph. */
  lemma OtherIsDomain(g: RelationGraph, s: int, c: Context)
    requires RelationGraphs.Valid(g) && c in g.contexts && HasDomain(c, s)
    ensures IsDomainId(g, Other(c, s))
  {
    var k :| 0 <= k < |g.contexts| && g.contexts[k] == c;
    assert HasDomain(g.contexts[k], Other(c, s));
  }

  /** A neighbour of a domain is a domain. */
  lemma NeighbourIsDomain(g: RelationGraph, s: int, x: int)
    requires RelationGraphs.Valid(g) && IsEdge(g, s, x)
    ensures IsDomainId(g, x)
  {
    var k :| 0 <= k < |g.contexts| && Links(g.contexts[k], s, x);
    assert HasDomain(g.contexts[k], x);
  }

  /** A sample space that covers the domains covers every star around a domain. */
  lemma CoversEveryStar(g: RelationGraph, s: int, t: Tuple)
    requires RelationGraphs.Valid(g) && IsDomainId(g, s) && CoversDomains(g, t)
    ensures CoversStar(g, s, t)
  {
    forall c | c in GetContexts(g, s) ensures HasId(t, Other(c, s)) {
      OtherIsDomain(g, s, c);
    }
  }

  /** Arms that fit their contexts are ascending and drawn from the sample. */
  lemma ArmsWithin(s: int, sample: Tuple, drawn: nat, arms: Tuple, open: seq<Context>)
    requires ArmsFit(s, sample, drawn, arms, open)
    ensures AllSorted(arms) && Within(arms, sample) && NatIds(arms)
  {
    forall i, x | 0 <= i < |arms| && x in arms[i].items ensures x in Slot(sample, arms[i].id) {
      assert SubsetOf(arms[i].items, Intersect(GetSet(open[i], s, drawn), Slot(sample, arms[i].id)));
    }
  }

  /** The centre of a star is drawn from sample[s]. */
  lemma CentreWithin(g: RelationGraph, s: nat, sample: Tuple, drawn: nat, arms: Tuple, ss: seq<nat>,
                     open: seq<Context>, from: nat)
    requires StarSoFar(g, s, sample, drawn, arms, ss, open, from)
    ensures Sorted(ss) && forall x :: x in ss ==> x in Slot(sample, s)
  {
  }

  /**
    What a star drawn from sample provides to the walk: ascending sets drawn from
    sample, natural ids, one of them s.
   */
  lemma StarWithin(g: RelationGraph, s: nat, sample: Tuple, done: seq<nat>, drawn: nat, from: nat, t: Tuple)
    requires StarSample(g, s, sample, done, drawn, from, t)
    ensures AllSorted(t) && Within(t, sample) && NatIds(t) && HasId(t, s)
  {
    var n := |t| - 1;
    var arms := t[..n];
    ArmsWithin(s, sample, drawn, arms, OpenContexts(GetContexts(g, s), s, done));
    CentreWithin(g, s, sample, drawn, arms, t[n].items, OpenContexts(GetContexts(g, s), s, done), from);
    WithinSnoc(t, sample, s);
  }

  /** Arms drawn from sample followed by a centre drawn from sample[s]. */
  lemma WithinSnoc(t: Tuple, sample: Tuple, s: nat)
    requires |t| > 0 && t[|t| - 1].id == s
    requires AllSorted(t[..|t| - 1]) && Within(t[..|t| - 1], sample) && NatIds(t[..|t| - 1])
    requires Sorted(t[|t| - 1].items) && forall x :: x in t[|t| - 1].items ==> x in Slot(sample, s)
    ensures AllSorted(t) && Within(t, sample) && NatIds(t) && HasId(t, s)
  {
    var n := |t| - 1;
    forall i | 0 <= i < n
      ensures Sorted(t[i].items) && t[i].id >= 0 && forall x :: x in t[i].items ==> x in Slot(sample, t[i].id)
    {
      assert t[i] == t[..n][i];
    }
  }

  /** Every context of s that is not done carries an arm with its other domain's id. */
  lemma ArmsCoverOpen(g: RelationGraph, s: int, done: seq<nat>, arms: Tuple, c: Context) returns (i: nat)
    requires ArmIds(s, arms, OpenContexts(GetContexts(g, s), s, done))
    requires c in GetContexts(g, s) && Other(c, s) !in done
    ensures i < |arms| && arms[i].id == Other(c, s)
  {
    var open := OpenContexts(GetContexts(g, s), s, done);
    assert c in open;
    i :| 0 <= i < |open| && open[i] == c;
  }

  /** After a star around s, every neighbour of s is done or carried by the star. */
  lemma StarNeighbours(g: RelationGraph, s: nat, sample: Tuple, done: seq<nat>, drawn: nat, from: nat, t: Tuple)
    requires RelationGraphs.Valid(g) && StarSample(g, s, sample, done, drawn, from, t)
    ensures NatIds(t) && forall x :: x in GetNeighbors(g, s) ==> x in done || x in IdsNat(t)
  {
    StarWithin(g, s, sample, done, drawn, from, t);
    StarArms(g, s, sample, done, drawn, from, t);
    ArmsNeighbours(g, s, done, t);
  }

  lemma StarArms(g: RelationGraph, s: int, sample: Tuple, done: seq<nat>, drawn: nat, from: nat, t: Tuple)
    requires StarSample(g, s, sample, done, drawn, from, t)
    ensures |t| > 0 && ArmIds(s, t[..|t| - 1], OpenContexts(GetContexts(g, s), s, done))
  {
  }

  /** The k-th arm carries the id of the other domain of the k-th open context. */
  predicate ArmIds(s: int, arms: Tuple, open: seq<Context>)
  {
    |arms| == |open| && forall k :: 0 <= k < |arms| ==> arms[k].id == Other(open[k], s)
  }

  /** Arms fitting the open contexts of s reach every neighbour of s that is not done. */
  lemma ArmsNeighbours(g: RelationGraph, s: nat, done: seq<nat>, t: Tuple)
    requires RelationGraphs.Valid(g) && |t| > 0 && NatIds(t)
    requires ArmIds(s, t[..|t| - 1], OpenContexts(GetContexts(g, s), s, done))
    ensures forall x :: x in GetNeighbors(g, s) ==> x in done || x in IdsNat(t)
  {
    var arms := t[..|t| - 1];
    var ids := IdsNat(t);
    forall x | x in GetNeighbors(g, s) && x !in done ensures x in ids {
      var c := NeighbourContext(g, s, x);
      var i := ArmsCoverOpen(g, s, done, arms, c);
      assert arms[i] == t[i];
      assert ids[i] == x;
    }
  }

  /** Every neighbour of s is the other domain of a context of s. */
  lemma NeighbourContext(g: RelationGraph, s: int, x: int) returns (c: Context)
    requires RelationGraphs.Valid(g) && IsEdge(g, s, x)
    ensures c in GetContexts(g, s) && Other(c, s) == x
  {
    var k :| 0 <= k < |g.contexts| && Links(g.contexts[k], s, x);
    c := g.contexts[k];
    assert Contexts.Valid(c);
  }

  /** Absorbing a star drawn from sub keeps the sample space ascending, its ids, and within pool. */
  lemma AbsorbKeeps(sub: Tuple, star: Tuple, pool: Tuple)
    requires AllSorted(star) && Within(star, sub) && AllSorted(sub) && SlotsWithin(sub, pool)
    ensures var r := Absorb(sub, star, |star|);
            Ids(r) == Ids(sub) && AllSorted(r) && SlotsWithin(r, pool)
  {
    var r := Absorb(sub, star, |star|);
    AbsorbIds(sub, star, |star|);
    forall i | 0 <= i < |r| ensures Sorted(r[i].items) {
      if IndexOfId(sub, sub[i].id) == i && IdAmong(star, |star|, sub[i].id) {
        assert r[i] == star[IndexOfId(star, sub[i].id)];
      }
    }
    forall d: int, x: nat | x in Slot(r, d) ensures x in Slot(pool, d) {
      HasIdByIds(r, sub, d);
      AbsorbMeaning(sub, star, |star|, d);
      if IdAmong(star, |star|, d) {
        var k := IndexOfId(star, d);
        assert x in star[k].items;
      }
    }
  }

  /** The copies of a star drawn from sub lie within pool. */
  lemma CopiesWithin(star: Tuple, sub: Tuple, pool: Tuple)
    requires AllSorted(star) && Within(star, sub) && SlotsWithin(sub, pool)
    ensures AllSorted(Copies(star)) && Within(Copies(star), pool)
  {
    forall i | 0 <= i < |star| ensures Sorted(Copies(star)[i].items) &&
                                       forall x :: x in Copies(star)[i].items ==> x in Slot(pool, Copies(star)[i].id) {
      CopiesAt(star, i);
      var k := IndexOfId(star, star[i].id);
      assert Copies(star)[i] == star[k];
    }
  }

  /** Sets drawn from pool, put one after another, are drawn from pool. */
  lemma WithinAppend(a: Tuple, b: Tuple, pool: Tuple)
    requires Within(a, pool) && Within(b, pool) && AllSorted(a) && AllSorted(b)
    ensures Within(a + b, pool) && AllSorted(a + b)
  {
    forall i, x | 0 <= i < |a + b| && x in (a + b)[i].items ensures x in Slot(pool, (a + b)[i].id) {
      if i >= |a| {
        assert (a + b)[i] == b[i - |a|];
      }
    }
  }

  /** An id carried by a prefix is carried by the whole. */
  lemma HasIdAppend(a: Tuple, b: Tuple, x: int)
    requires HasId(a, x)
    ensures HasId(a + b, x)
  {
    var i :| 0 <= i < |a| && a[i].id == x;
    assert (a + b)[i].id == x;
  }

  /** What absorbing a star around s1 does to the sample space, the result and the completed domains. */
  lemma AbsorbStar(g: RelationGraph, s1: nat, pool: Tuple, sub: Tuple, before: Tuple, star: Tuple, done: seq<nat>)
    requires RelationGraphs.Valid(g) && CoversDomains(g, sub) && SlotsWithin(sub, pool)
    requires AllSorted(before) && Within(before, pool) && forall x :: x in done ==> HasId(before, x)
    requires AllSorted(star) && Within(star, sub) && NatIds(star) && HasId(star, s1)
    requires forall x :: x in GetNeighbors(g, s1) ==> x in done || x in IdsNat(star)
    ensures CoversDomains(g, Absorb(sub, star, |star|)) && SlotsWithin(Absorb(sub, star, |star|), pool)
    ensures var r := before + Copies(star);
            AllSorted(r) && Within(r, pool) && |r| > |before| && r[..|before|] == before &&
            forall x :: x in done + IdsNat(star) ==> HasId(r, x)
    ensures s1 in done + IdsNat(star) && forall x :: x in GetNeighbors(g, s1) ==> x in done + IdsNat(star)
  {
    AbsorbSpace(g, pool, sub, star);
    AbsorbResult(pool, sub, before, star, done);
    var i :| 0 <= i < |star| && star[i].id == s1;
    assert IdsNat(star)[i] == s1;
  }

  /** Absorbing a star keeps the sample space covering the domains and within pool. */
  lemma AbsorbSpace(g: RelationGraph, pool: Tuple, sub: Tuple, star: Tuple)
    requires CoversDomains(g, sub) && SlotsWithin(sub, pool)
    requires AllSorted(star) && Within(star, sub)
    ensures CoversDomains(g, Absorb(sub, star, |star|)) && SlotsWithin(Absorb(sub, star, |star|), pool)
  {
    AbsorbKeeps(sub, star, pool);
    forall d | IsDomainId(g, d) ensures HasId(Absorb(sub, star, |star|), d) {
      HasIdByIds(Absorb(sub, star, |star|), sub, d);
    }
  }

  /** Appending copies of a star keeps the result ascending, within pool, and carrying every completed id. */
  lemma AbsorbResult(pool: Tuple, sub: Tuple, before: Tuple, star: Tuple, done: seq<nat>)
    requires SlotsWithin(sub, pool)
    requires AllSorted(before) && Within(before, pool) && forall x :: x in done ==> HasId(before, x)
    requires AllSorted(star) && Within(star, sub) && NatIds(star) && star != []
    ensures var r := before + Copies(star);
            AllSorted(r) && Within(r, pool) && |r| > |before| && r[..|before|] == before &&
            forall x :: x in done + IdsNat(star) ==> HasId(r, x)
  {
    CopiesWithin(star, sub, pool);
    WithinAppend(before, Copies(star), pool);
    assert Ids(Copies(star)) == Ids(star);
    forall x | x in done + IdsNat(star) ensures HasId(before + Copies(star), x) {
      if x in done {
        HasIdAppend(before, Copies(star), x);
      } else {
        var i :| 0 <= i < |star| && IdsNat(star)[i] == x;
        HasIdByIds(Copies(star), star, x);
        var k :| 0 <= k < |Copies(star)| && Copies(star)[k].id == x;
        assert (before + Copies(star))[|before| + k].id == x;
      }
    }
    assert (before + Copies(star))[..|before|] == before;
  }

  /**
    The state of the walk: the sample space covers the domains and lies within pool,
    the sets gathered are ascending and drawn from pool, and every completed domain
    has a set among them.
   */
  ghost predicate Sampling(g: RelationGraph, pool: Tuple, sub: Tuple, ret: Tuple, done: seq<nat>)
  {
    && CoversDomains(g, sub) && SlotsWithin(sub, pool)
    && AllSorted(ret) && Within(ret, pool) && forall x :: x in done ==> HasId(ret, x)
  }

  /**
    One step of the walk in SubspaceFreqNetwork: a star around s1 is drawn from the
    sample space and absorbed by AdjustSampleSubspace. After it every neighbour of s1
    is completed.
   */
  method NetworkStep(g: RelationGraph, s1: nat, ghost pool: Tuple, sampleSubspace: NCluster, ret: NCluster,
                     completed: IOSet, rng: Random)
    returns (ok: bool)
    requires RelationGraphs.Valid(g) && IsDomainId(g, s1)
    requires sampleSubspace != ret
    requires Sampling(g, pool, sampleSubspace.sets, ret.sets, completed.d)
    modifies sampleSubspace, ret, completed, rng
    ensures (forall x :: 0 <= x < NumObjsInDomain(g, s1) ==> RawWeight(g, s1, old(sampleSubspace.sets), x) == 0.0) ==> !ok
    ensures !ok ==> StarFails(g, s1, old(sampleSubspace.sets), old(completed.d))
    ensures ok ==> Sampling(g, pool, sampleSubspace.sets, ret.sets, completed.d)
    ensures ok ==> |ret.sets| > |old(ret.sets)| && ret.sets[..|old(ret.sets)|] == old(ret.sets)
    ensures ok ==> s1 in completed.d && Closed(g, s1, completed.d)
    ensures ok ==> forall x :: x in old(completed.d) ==> x in completed.d
  {
    CoversEveryStar(g, s1, sampleSubspace.sets);
    var star, drawn, from := SubspaceStarShapedFreqSample(g, s1, sampleSubspace.sets, completed, rng);
    if star.None? {
      return false;
    }
    StarWithin(g, s1, sampleSubspace.sets, completed.d, drawn, from, star.value);
    StarNeighbours(g, s1, sampleSubspace.sets, completed.d, drawn, from, star.value);
    AbsorbStar(g, s1, pool, sampleSubspace.sets, ret.sets, star.value, completed.d);
    AdjustSampleSubspace(sampleSubspace, star.value, ret, completed);
    return true;
  }

  /** Where a walk broke: the root whose star failed, and the sample space and completed domains it was drawn from. */
  datatype Breakdown = Breakdown(root: nat, sub: Tuple, done: seq<nat>)

  /** The star around f.root failed on a sample space that covers the domains and lies within pool. */
  ghost predicate BrokeWithin(g: RelationGraph, pool: Tuple, f: Breakdown)
  {
    CoversDomains(g, f.sub) && SlotsWithin(f.sub, pool) && StarFails(g, f.root, f.sub, f.done)
  }

  /** Every neighbour of x is in done. */
  predicate Closed(g: RelationGraph, x: int, done: seq<nat>)
  {
    forall y :: y in GetNeighbors(g, x) ==> y in done
  }

  /** Every root is in done, and so is each of its neighbours. */
  predicate Walked(g: RelationGraph, roots: seq<nat>, done: seq<nat>)
  {
    forall k :: 0 <= k < |roots| ==> roots[k] in done && Closed(g, roots[k], done)
  }

  /** t has a set for every root and for every neighbour of a root. */
  predicate Carries(g: RelationGraph, roots: seq<nat>, t: Tuple)
  {
    forall i :: 0 <= i < |roots| ==>
      HasId(t, roots[i]) && forall x :: x in GetNeighbors(g, roots[i]) ==> HasId(t, x)
  }

  /**
    At the end of the walk the sets gathered are ascending, drawn from pool, and carry
    every root and every neighbour of a root.
   */
  lemma WalkCovered(g: RelationGraph, roots: seq<nat>, pool: Tuple, sub: Tuple, done: seq<nat>, t: Tuple)
    requires Walked(g, roots, done) && Sampling(g, pool, sub, t, done)
    ensures AllSorted(t) && Within(t, pool)
    ensures Carries(g, roots, t)
  {
    forall i | 0 <= i < |roots|
      ensures HasId(t, roots[i]) && forall x :: x in GetNeighbors(g, roots[i]) ==> HasId(t, x)
    {
      assert Closed(g, roots[i], done);
    }
  }

  lemma WalkedSnoc(g: RelationGraph, roots: seq<nat>, x: nat, done: seq<nat>)
    requires Walked(g, roots, done) && x in done && Closed(g, x, done)
    ensures Walked(g, roots + [x], done)
  {
  }

  lemma WalkedGrows(g: RelationGraph, roots: seq<nat>, done: seq<nat>, more: seq<nat>)
    requires Walked(g, roots, done) && forall x :: x in done ==> x in more
    ensures Walked(g, roots, more)
  {
    forall k | 0 <= k < |roots| ensures roots[k] in more && Closed(g, roots[k], more) {
      assert Closed(g, roots[k], done);
    }
  }

  /**
    The queue q with the neighbours of s appended that are articulation domains (in
    art) and, when skipCompleted, not completed yet.
   */
  method PushNeighbours(g: RelationGraph, s: nat, art: seq<nat>, completed: IOSet, q: seq<nat>, skipCompleted: bool)
    returns (r: seq<nat>)
    ensures r == q + Pushable(GetNeighbors(g, s), art, if skipCompleted then completed.d else [])
  {
    var ns := GetNeighbors(g, s);
    ghost var done := if skipCompleted then completed.d else [];
    ghost var pushed: seq<nat> := [];
    r := q;
    var j := 0;
    while j < |ns|
      invariant 0 <= j <= |ns|
      invariant pushed == Pushable(ns[..j], art, done)
      invariant r == q + pushed
    {
      PushableStep(ns, art, done, j);
      var open := true;
      if skipCompleted {
        var c := completed.Contains(ns[j]);
        open := !c;
      }
      if ns[j] in art && open {
        r := r + [ns[j]];
        pushed := pushed + [ns[j]];
      }
      j := j + 1;
    }
    assert ns[..j] == ns;
  }

  /**
    SubspaceFreqNetwork(g, s, subspace): a star around s is drawn from a copy of the
    sample space and absorbed; the articulation neighbours of s are queued and a star
    is drawn and absorbed around each of them in turn, queueing the articulation
    neighbours of each that are not yet completed. None as soon as a draw fails.
    The sets returned are ascending, drawn from subspace, and carry every domain the
    walk rooted at (s and its articulation neighbours, in that order) and every
    neighbour of those roots: the queue never grows after the first level.
   */
  method SubspaceFreqNetwork(g: RelationGraph, s: nat, subspace: NCluster, rng: Random)
    returns (r: Option<Tuple>, ghost roots: seq<nat>, ghost broke: Breakdown)
    requires RelationGraphs.Valid(g) && IsDomainId(g, s) && CoversDomains(g, subspace.sets)
    modifies rng
    ensures (forall x :: 0 <= x < NumObjsInDomain(g, s) ==> RawWeight(g, s, subspace.sets, x) == 0.0) ==> r.None?
    ensures r.None? ==> broke.root in [s] + ArtNeighbours(g, s) && BrokeWithin(g, subspace.sets, broke)
    ensures r.Some? ==> roots == [s] + ArtNeighbours(g, s)
    ensures r.Some? ==> AllSorted(r.value) && Within(r.value, subspace.sets)
    ensures r.Some? ==> Carries(g, roots, r.value)
  {
    roots := [];
    var completed := new IOSet();
    var sampleSubspace := new NCluster.Copy(subspace);
    var ret := new NCluster.Empty();
    ghost var pool := subspace.sets;
    assert subspace != sampleSubspace && subspace != ret;
    assert Sampling(g, pool, sampleSubspace.sets, ret.sets, completed.d);
    ghost var zero := forall x :: 0 <= x < NumObjsInDomain(g, s) ==> RawWeight(g, s, pool, x) == 0.0;
    broke := Breakdown(s, sampleSubspace.sets, completed.d);
    var ok := NetworkStep(g, s, pool, sampleSubspace, ret, completed, rng);
    assert subspace.sets == pool;
    if !ok {
      return None, roots, broke;
    }
    assert !zero;
    assert subspace as object != completed && subspace as object != rng;
    ok, roots, broke := WalkFrom(g, s, pool, sampleSubspace, ret, completed, rng);
    if !ok {
      return None, roots, broke;
    }
    assert subspace.sets == pool;
    var t := ret.sets;
    WalkCovered(g, roots, pool, sampleSubspace.sets, completed.d, t);
    r := Some(t);
  }

  /**
    The walk after the star around s: the articulation neighbours of s are queued and
    walked by WalkQueue. The roots are s and those neighbours, in that order.
   */
  method WalkFrom(g: RelationGraph, s: nat, ghost pool: Tuple, sampleSubspace: NCluster, ret: NCluster,
                  completed: IOSet, rng: Random)
    returns (ok: bool, ghost roots: seq<nat>, ghost broke: Breakdown)
    requires RelationGraphs.Valid(g) && sampleSubspace != ret
    requires Sampling(g, pool, sampleSubspace.sets, ret.sets, completed.d)
    requires s in completed.d && Closed(g, s, completed.d)
    modifies sampleSubspace, ret, completed, rng
    ensures roots == [s] + ArtNeighbours(g, s)
    ensures !ok ==> broke.root in ArtNeighbours(g, s) && BrokeWithin(g, pool, broke)
    ensures ok ==> Walked(g, roots, completed.d) && Sampling(g, pool, sampleSubspace.sets, ret.sets, completed.d)
  {
    WalkedSnoc(g, [], s, completed.d);
    assert [] + [s] == [s];
    var artDomains := GetArtDomains(g);
    var q := PushNeighbours(g, s, artDomains, completed, [], false);
    assert q == ArtNeighbours(g, s) by {
      assert [] + ArtNeighbours(g, s) == ArtNeighbours(g, s);
    }
    roots := [s] + q;
    assert forall x :: x in q ==> x in GetNeighbors(g, s) by {
      assert q == Pushable(GetNeighbors(g, s), artDomains, []);
      PushableMembers(GetNeighbors(g, s), artDomains, []);
    }
    ghost var walked;
    ok, walked, broke := WalkQueue(g, s, pool, sampleSubspace, ret, completed, rng, artDomains, q, [s]);
  }

  /**
    The loop of SubspaceFreqNetwork over the queue q: a star around each queued
    domain in turn, then its articulation neighbours not yet completed are queued.
    Nothing is ever queued there, so the walk roots at exactly the queued domains.
   */
  method WalkQueue(g: RelationGraph, s: nat, ghost pool: Tuple, sampleSubspace: NCluster, ret: NCluster,
                   completed: IOSet, rng: Random, artDomains: seq<nat>, q: seq<nat>, ghost roots: seq<nat>)
    returns (ok: bool, ghost walked: seq<nat>, ghost broke: Breakdown)
    requires RelationGraphs.Valid(g) && sampleSubspace != ret
    requires Sampling(g, pool, sampleSubspace.sets, ret.sets, completed.d)
    requires forall x :: x in q ==> x in GetNeighbors(g, s)
    requires Walked(g, roots, completed.d)
    modifies sampleSubspace, ret, completed, rng
    ensures !ok ==> broke.root in q && BrokeWithin(g, pool, broke)
    ensures ok ==> walked == roots + q && Walked(g, walked, completed.d)
    ensures ok ==> Sampling(g, pool, sampleSubspace.sets, ret.sets, completed.d)
  {
    var queue := q;
    walked := roots;
    broke := Breakdown(s, [], []);
    ghost var k := 0;
    while queue != []
      invariant k <= |q| && queue == q[k..] && walked == roots + q[..k]
      invariant Sampling(g, pool, sampleSubspace.sets, ret.sets, completed.d)
      invariant Walked(g, walked, completed.d)
      decreases |queue|
    {
      var s1 := queue[0];
      assert s1 == q[k] && s1 in q;
      NeighbourIsDomain(g, s, s1);
      queue := queue[1..];
      broke := Breakdown(s1, sampleSubspace.sets, completed.d);
      ok, queue := WalkOne(g, s1, pool, sampleSubspace, ret, completed, rng, artDomains, queue, walked);
      if !ok {
        return;
      }
      assert q[..k + 1] == q[..k] + [s1];
      walked := walked + [s1];
      k := k + 1;
    }
    assert q[..k] == q;
    ok := true;
  }

  /**
    One turn of WalkQueue's loop: a star around s1, after which s1 is walked as well,
    and its articulation neighbours not yet completed join the queue rest; there are none.
   */
  method WalkOne(g: RelationGraph, s1: nat, ghost pool: Tuple, sampleSubspace: NCluster, ret: NCluster,
                 completed: IOSet, rng: Random, artDomains: seq<nat>, rest: seq<nat>, ghost walked: seq<nat>)
    returns (ok: bool, queue: seq<nat>)
    requires RelationGraphs.Valid(g) && IsDomainId(g, s1) && sampleSubspace != ret
    requires Sampling(g, pool, sampleSubspace.sets, ret.sets, completed.d)
    requires Walked(g, walked, completed.d)
    modifies sampleSubspace, ret, completed, rng
    ensures !ok ==> BrokeWithin(g, pool, Breakdown(s1, old(sampleSubspace.sets), old(completed.d)))
    ensures ok ==> queue == rest
    ensures ok ==> Sampling(g, pool, sampleSubspace.sets, ret.sets, completed.d)
    ensures ok ==> Walked(g, walked + [s1], completed.d)
  {
    ghost var done := completed.d;
    ok := NetworkStep(g, s1, pool, sampleSubspace, ret, completed, rng);
    if !ok {
      return ok, rest;
    }
    WalkedGrows(g, walked, done, completed.d);
    WalkedSnoc(g, walked, s1, completed.d);
    PushableNone(GetNeighbors(g, s1), artDomains, completed.d);
    queue := PushNeighbours(g, s1, artDomains, completed, rest, true);
    assert queue == rest + [];
  }
}
