/**
  The seed sampler of source/random_sample.cpp. A start object of the central domain s
  is drawn with a weight that is positive exactly when the object reaches the current
  sample space in every context of s; star-shaped sampling then draws a subset of its
  adjacency in every open arm and primes each back into s; a breadth-first walk over
  articulation domains extends the sample.
 */
module RandomSample {
  import opened Wrappers
  import opened IOSets
  import opened SetOps
  import opened Randomness
  import opened NClusters
  import opened Contexts
  import opened RelationGraphs
  import opened LatticeOps

  /** |adj(x) ∩ sub[t]| in context c, t the other domain of c. */
  function ArmLength(c: Context, s: int, sub: Tuple, x: nat): nat
  {
    |Intersect(GetSet(c, s, x), Slot(sub, Other(c, s)))|
  }

  /** The arm lengths of x, one per context of cs. */
  function ArmLengths(cs: seq<Context>, s: int, sub: Tuple, x: nat): (ls: seq<nat>)
    ensures |ls| == |cs| && forall k :: 0 <= k < |cs| ==> ls[k] == ArmLength(cs[k], s, sub, x)
  {
    seq(|cs|, k requires 0 <= k < |cs| => ArmLength(cs[k], s, sub, x))
  }

  /** The sum of a sequence of naturals. */
  function SumNat(ls: seq<nat>): nat
  {
    if ls == [] then 0 else SumNat(ls[..|ls| - 1]) + ls[|ls| - 1]
  }

  /** x reaches the sample space in every context of cs. */
  predicate AllArms(cs: seq<Context>, s: int, sub: Tuple, x: nat)
  {
    forall c :: c in cs ==> ArmLength(c, s, sub, x) > 0
  }

  /** No length is zero. */
  predicate AllPositive(ls: seq<nat>)
  {
    forall k :: 0 <= k < |ls| ==> ls[k] > 0
  }

  /** The summed arm lengths, or 0 as soon as one arm is empty. */
  function Support(cs: seq<Context>, s: int, sub: Tuple, x: nat): nat
  {
    var ls := ArmLengths(cs, s, sub, x);
    if AllPositive(ls) then SumNat(ls) else 0
  }

  /** A sum of positive naturals is positive unless empty. */
  lemma {:induction false} SumNatPositive(ls: seq<nat>)
    requires AllPositive(ls) && ls != []
    ensures SumNat(ls) > 0
  {
  }

  /** With every arm non-empty the support is positive, given at least one arm. */
  lemma SupportPositive(cs: seq<Context>, s: int, sub: Tuple, x: nat)
    requires cs != []
    ensures Support(cs, s, sub, x) > 0 <==> AllArms(cs, s, sub, x)
  {
    var ls := ArmLengths(cs, s, sub, x);
    assert AllPositive(ls) <==> AllArms(cs, s, sub, x) by {
      if AllPositive(ls) {
        forall c | c in cs ensures ArmLength(c, s, sub, x) > 0 {
          var k :| 0 <= k < |cs| && cs[k] == c;
        }
      }
    }
    if AllPositive(ls) {
      SumNatPositive(ls);
    }
  }

  /**
    The unnormalised weight of object x of s: the average arm length when x is in
    sub[s] and reaches sub[t] in every context (s, t), and 0 otherwise. The source
    raises 2 to that average; only whether the weight is zero matters below.
   */
  function RawWeight(g: RelationGraph, s: int, sub: Tuple, x: nat): real
  {
    var cs := GetContexts(g, s);
    if x in Intersect(RelationGraphs.GetLabels(g, s), Slot(sub, s)) && |cs| > 0 then
      (Support(cs, s, sub, x) as real) / (|cs| as real)
    else 0.0
  }

  /** The unnormalised weights of all objects of s. */
  function RawWeights(g: RelationGraph, s: int, sub: Tuple): (w: seq<real>)
    ensures |w| == NumObjsInDomain(g, s)
    ensures forall x :: 0 <= x < |w| ==> w[x] == RawWeight(g, s, sub, x)
  {
    seq(NumObjsInDomain(g, s), x requires 0 <= x => RawWeight(g, s, sub, x))
  }

  /** Weights are never negative, and positive for exactly the objects of sub[s] that reach sub[t] in every context. */
  lemma RawWeightMeaning(g: RelationGraph, s: int, sub: Tuple, x: nat)
    requires RelationGraphs.Valid(g) && AllSorted(sub)
    ensures RawWeight(g, s, sub, x) >= 0.0
    ensures RawWeight(g, s, sub, x) > 0.0 <==>
              x < NumObjsInDomain(g, s) && x in Slot(sub, s) && AllArms(GetContexts(g, s), s, sub, x)
  {
    var cs := GetContexts(g, s);
    SlotSorted(sub, s);
    var labels := RelationGraphs.GetLabels(g, s);
    assert x in Intersect(labels, Slot(sub, s)) <==> x < NumObjsInDomain(g, s) && x in Slot(sub, s);
    if x < NumObjsInDomain(g, s) {
      DomainHasContext(g, s);
      SupportPositive(cs, s, sub, x);
      DivPositive(Support(cs, s, sub, x), |cs|);
    }
  }

  /** No weight is negative, whatever the graph. */
  lemma RawNonNegative(g: RelationGraph, s: int, sub: Tuple, x: nat)
    ensures RawWeight(g, s, sub, x) >= 0.0
  {
    var cs := GetContexts(g, s);
    if |cs| > 0 {
      DivPositive(Support(cs, s, sub, x), |cs|);
    }
  }

  /** a / b for naturals b > 0 is not negative, and positive exactly when a is. */
  lemma DivPositive(a: nat, b: nat)
    requires b > 0
    ensures (a as real) / (b as real) >= 0.0
    ensures (a as real) / (b as real) > 0.0 <==> a > 0
  {
  }

  /** Every slot of a tuple of ascending sets is ascending. */
  lemma SlotSorted(t: Tuple, id: int)
    requires AllSorted(t)
    ensures Sorted(Slot(t, id))
  {
    if HasId(t, id) {
      assert SetById(t, id) == t[IndexOfId(t, id)];
    }
  }

  /** A domain with objects is touched by some context. */
  lemma DomainHasContext(g: RelationGraph, d: int)
    requires RelationGraphs.Valid(g) && NumObjsInDomain(g, d) > 0
    ensures |GetContexts(g, d)| > 0
  {
    var p := Slot(g.domainContextMap, d);
    assert p[0] in p;
    assert g.contexts[p[0]] in GetContexts(g, d);
  }

  /** Changing one entry changes the sum by the difference. */
  lemma {:induction false} SumUpdate(w: seq<real>, k: nat, v: real)
    requires k < |w|
    ensures Sum(w[k := v]) == Sum(w) - w[k] + v
  {
    if k > 0 {
      assert w[k := v][1..] == w[1..][k - 1 := v];
      SumUpdate(w[1..], k - 1, v);
    }
  }

  /** A sum of non-negative weights is zero exactly when every weight is. */
  lemma {:induction false} SumZero(w: seq<real>)
    requires forall i :: 0 <= i < |w| ==> w[i] >= 0.0
    ensures Sum(w) >= 0.0
    ensures Sum(w) == 0.0 <==> forall i :: 0 <= i < |w| ==> w[i] == 0.0
  {
    if w != [] {
      SumZero(w[1..]);
      assert forall i :: 1 <= i < |w| ==> w[i] == w[1..][i - 1];
    }
  }

  /** Every weight divided by d. */
  function Scaled(w: seq<real>, d: real): (r: seq<real>)
    requires d != 0.0
    ensures |r| == |w| && forall i :: 0 <= i < |w| ==> r[i] == w[i] / d
  {
    seq(|w|, i requires 0 <= i < |w| => w[i] / d)
  }

  /** Dividing every weight by d divides the sum by d. */
  lemma {:induction false} SumScale(w: seq<real>, d: real)
    requires d != 0.0
    ensures Sum(Scaled(w, d)) == Sum(w) / d
  {
    if w != [] {
      assert Scaled(w, d)[1..] == Scaled(w[1..], d);
      SumScale(w[1..], d);
      DivAdd(w[0], Sum(w[1..]), d);
    }
  }

  /** a / d + b / d = (a + b) / d. */
  lemma DivAdd(a: real, b: real, d: real)
    requires d != 0.0
    ensures a / d + b / d == (a + b) / d
  {
  }

  /** Every weight divided by their sum. */
  function Normalized(w: seq<real>): (r: seq<real>)
    requires Sum(w) != 0.0
  {
    Scaled(w, Sum(w))
  }

  /** Normalised weights sum to 1. */
  lemma NormalizedSumsToOne(w: seq<real>)
    requires Sum(w) != 0.0
    ensures Sum(Normalized(w)) == 1.0
  {
    var t := Sum(w);
    SumScale(w, t);
    assert Sum(Normalized(w)) == t / t;
    assert t / t == 1.0;
  }

  /** Normalised non-negative weights are non-negative. */
  lemma NormalizedNonNegative(w: seq<real>)
    requires Sum(w) != 0.0 && forall i :: 0 <= i < |w| ==> w[i] >= 0.0
    ensures forall i :: 0 <= i < |w| ==> Normalized(w)[i] >= 0.0
  {
    SumZero(w);
  }

  /** What GetFreqWeightsStar demands: sorted sample sets, with a set for s and for the other domain of every context of s. */
  predicate CoversStar(g: RelationGraph, s: int, sub: Tuple)
  {
    && AllSorted(sub) && HasId(sub, s)
    && forall c :: c in GetContexts(g, s) ==> HasId(sub, Other(c, s))
  }

  /** The inner loop of GetFreqWeightsStar: the summed arm lengths of x, reset to 0 at the first empty arm. */
  method ArmSupport(ctxs: seq<Context>, s: int, subSets: Tuple, x: nat) returns (avg: real)
    requires forall c :: c in ctxs ==> HasId(subSets, Other(c, s))
    ensures avg == Support(ctxs, s, subSets, x) as real
  {
    avg := 0.0;
    ghost var ls := ArmLengths(ctxs, s, subSets, x);
    var j := 0;
    while j < |ctxs|
      invariant 0 <= j <= |ctxs|
      invariant avg == SumNat(ls[..j]) as real
      invariant AllPositive(ls[..j])
    {
      var c := ctxs[j];
      assert c in ctxs;
      var t := Other(c, s);
      var tt := Intersect(GetSet(c, s, x), SetById(subSets, t).items);
      assert |tt| == ls[j];
      if |tt| == 0 {
        assert !AllPositive(ls);
        avg := 0.0;
        break;
      }
      SumNatStep(ls, j);
      avg := avg + |tt| as real;
      j := j + 1;
    }
    assert j == |ctxs| ==> ls[..j] == ls;
  }

  /** One more length: the sum grows by it and stays positive. */
  lemma SumNatStep(ls: seq<nat>, j: nat)
    requires j < |ls|
    ensures SumNat(ls[..j + 1]) == SumNat(ls[..j]) + ls[j]
    ensures AllPositive(ls[..j]) && ls[j] > 0 ==> AllPositive(ls[..j + 1])
  {
    assert ls[..j + 1][..j] == ls[..j];
  }

  /** The last loop of GetFreqWeightsStar: every weight divided, in place, by their sum. */
  method DivideBySum(weights: array<real>, sum: real)
    requires sum != 0.0
    modifies weights
    ensures weights[..] == Scaled(old(weights[..]), sum)
  {
    var k := 0;
    while k < weights.Length
      invariant 0 <= k <= weights.Length
      invariant forall x :: 0 <= x < k ==> weights[x] == old(weights[x]) / sum
      invariant forall x :: k <= x < weights.Length ==> weights[x] == old(weights[x])
    {
      weights[k] := weights[k] / sum;
      k := k + 1;
    }
  }

  /**
    GetFreqWeightsStar(g, s, subSets): the weights of the objects of s, zero outside
    subSets[s] and for objects with an empty arm, then divided by their sum; none when
    every weight is zero.
   */
  method GetFreqWeightsStar(g: RelationGraph, s: int, subSets: Tuple) returns (r: Option<seq<real>>)
    requires RelationGraphs.Valid(g) && CoversStar(g, s, subSets)
    ensures r.None? <==> forall x :: 0 <= x < NumObjsInDomain(g, s) ==> RawWeight(g, s, subSets, x) == 0.0
    ensures r.Some? ==> Sum(RawWeights(g, s, subSets)) != 0.0 && r.value == Normalized(RawWeights(g, s, subSets))
  {
    if NumObjsInDomain(g, s) > 0 {
      DomainHasContext(g, s);
    }
    SlotSorted(subSets, s);
    var weights, sum := FillWeights(g, s, subSets);
    RawZeroIff(g, s, subSets);
    if sum == 0.0 {
      return None;
    }
    DivideBySum(weights, sum);
    return Some(weights[..]);
  }

  /** What the first loop of GetFreqWeightsStar needs of the graph and the sample space. */
  ghost predicate WeighReady(g: RelationGraph, s: int, subSets: Tuple)
  {
    && (NumObjsInDomain(g, s) > 0 ==> |GetContexts(g, s)| > 0)
    && (forall c :: c in GetContexts(g, s) ==> HasId(subSets, Other(c, s)))
    && HasId(subSets, s) && Sorted(Slot(subSets, s))
  }

  /** The first loop of GetFreqWeightsStar: a fresh array of the unnormalised weights, and their sum. */
  method FillWeights(g: RelationGraph, s: int, subSets: Tuple) returns (weights: array<real>, sum: real)
    requires WeighReady(g, s, subSets)
    ensures fresh(weights) && weights[..] == RawWeights(g, s, subSets) && sum == Sum(weights[..])
  {
    var labels := RelationGraphs.GetLabels(g, s);
    var n := |labels|;
    weights := ZeroWeights(n);
    var sObjs := Intersect(labels, SetById(subSets, s).items);
    var ctxs := GetContexts(g, s);
    ghost var raw := RawWeights(g, s, subSets);
    sum := 0.0;
    FillStart(weights[..], raw, sObjs);
    assert FillSetup(g, s, subSets, ctxs, sObjs, raw);
    var i := 0;
    while i < |sObjs|
      invariant 0 <= i <= |sObjs|
      invariant FilledUpTo(weights[..], raw, sObjs[..i])
      invariant sum == Sum(weights[..])
    {
      sum := FillOne(weights, g, s, subSets, ctxs, sObjs, i, raw, sum);
      i := i + 1;
    }
    assert sObjs[..|sObjs|] == sObjs;
    FilledIsRaw(g, s, subSets, sObjs, weights[..]);
  }

  /** The values the first loop of GetFreqWeightsStar works with, before it starts. */
  ghost predicate FillSetup(g: RelationGraph, s: int, subSets: Tuple, ctxs: seq<Context>, sObjs: seq<nat>, raw: seq<real>)
  {
    && ctxs == GetContexts(g, s) && (sObjs != [] ==> |ctxs| > 0)
    && (forall c :: c in ctxs ==> HasId(subSets, Other(c, s)))
    && sObjs == Intersect(RelationGraphs.GetLabels(g, s), Slot(subSets, s)) && Sorted(sObjs)
    && raw == RawWeights(g, s, subSets)
  }

  /** One round of the first loop of GetFreqWeightsStar: the weight of the i-th object of sub[s] is filled in. */
  method FillOne(weights: array<real>, g: RelationGraph, s: int, subSets: Tuple, ctxs: seq<Context>,
                 sObjs: seq<nat>, i: nat, ghost raw: seq<real>, sum: real) returns (sum': real)
    requires FillSetup(g, s, subSets, ctxs, sObjs, raw) && i < |sObjs|
    requires FilledUpTo(weights[..], raw, sObjs[..i]) && sum == Sum(weights[..])
    modifies weights
    ensures FilledUpTo(weights[..], raw, sObjs[..i + 1]) && sum' == Sum(weights[..])
  {
    var x := sObjs[i];
    WeighOne(g, s, subSets, sObjs, i);
    assert x in sObjs;
    var wx := WeighObject(g, s, subSets, ctxs, x);
    ghost var before := weights[..];
    FillStep(before, raw, sObjs, i, wx);
    weights[x] := wx;
    assert weights[..] == before[x := wx];
    sum' := sum + wx;
  }

  /** w holds the weight raw[x] of every object x of done and 0 elsewhere. */
  predicate FilledUpTo(w: seq<real>, raw: seq<real>, done: seq<nat>)
  {
    |w| == |raw| && forall x :: 0 <= x < |w| ==> w[x] == (if x in done then raw[x] else 0.0)
  }

  /** Every weight is 0. */
  predicate AllZero(w: seq<real>)
  {
    forall x :: 0 <= x < |w| ==> w[x] == 0.0
  }

  /** A new weight vector of n entries, filled with 0. */
  method ZeroWeights(n: nat) returns (weights: array<real>)
    ensures fresh(weights) && weights.Length == n && AllZero(weights[..])
  {
    weights := new real[n];
    var k := 0;
    while k < n
      invariant 0 <= k <= n
      invariant forall x :: 0 <= x < k ==> weights[x] == 0.0
    {
      weights[k] := 0.0;
      k := k + 1;
    }
  }

  /** Nothing filled in yet: all zero, summing to zero. */
  lemma FillStart(w: seq<real>, raw: seq<real>, q: seq<nat>)
    requires |w| == |raw| && AllZero(w)
    ensures FilledUpTo(w, raw, q[..0]) && Sum(w) == 0.0
  {
    assert q[..0] == [];
    SumZero(w);
  }

  /** Filling in the weight of the i-th object: the sum grows by that weight. */
  lemma FillStep(w: seq<real>, raw: seq<real>, q: seq<nat>, i: nat, v: real)
    requires i < |q| && q[i] < |w| == |raw| && q[i] !in q[..i] && raw[q[i]] == v
    requires FilledUpTo(w, raw, q[..i])
    ensures FilledUpTo(w[q[i] := v], raw, q[..i + 1])
    ensures Sum(w[q[i] := v]) == Sum(w) + v
  {
    assert q[..i + 1] == q[..i] + [q[i]];
    SumUpdate(w, q[i], v);
  }

  /** Once every object of sub[s] is filled in, the weights are RawWeights: the other objects weigh 0. */
  lemma FilledIsRaw(g: RelationGraph, s: int, sub: Tuple, sObjs: seq<nat>, w: seq<real>)
    requires sObjs == Intersect(RelationGraphs.GetLabels(g, s), Slot(sub, s))
    requires FilledUpTo(w, RawWeights(g, s, sub), sObjs)
    ensures w == RawWeights(g, s, sub)
  {
    var raw := RawWeights(g, s, sub);
    forall x | 0 <= x < |w| ensures w[x] == raw[x] {
      assert raw[x] == RawWeight(g, s, sub, x);
    }
  }

  /** The weights sum to zero exactly when every weight is zero, since none is negative. */
  lemma RawZeroIff(g: RelationGraph, s: int, sub: Tuple)
    ensures Sum(RawWeights(g, s, sub)) >= 0.0
    ensures Sum(RawWeights(g, s, sub)) == 0.0 <==> forall x :: 0 <= x < NumObjsInDomain(g, s) ==> RawWeight(g, s, sub, x) == 0.0
  {
    var raw := RawWeights(g, s, sub);
    forall x | 0 <= x < |raw| ensures raw[x] >= 0.0 {
      RawNonNegative(g, s, sub, x);
    }
    SumZero(raw);
  }

  /** The body of the outer loop of GetFreqWeightsStar: the weight of one object of sub[s]. */
  method WeighObject(g: RelationGraph, s: int, subSets: Tuple, ctxs: seq<Context>, x: nat) returns (wx: real)
    requires ctxs == GetContexts(g, s) && |ctxs| > 0 && forall c :: c in ctxs ==> HasId(subSets, Other(c, s))
    requires x in Intersect(RelationGraphs.GetLabels(g, s), Slot(subSets, s))
    ensures wx == RawWeight(g, s, subSets, x)
  {
    var avg := ArmSupport(ctxs, s, subSets, x);
    avg := avg / |ctxs| as real;
    if avg == 0.0 {
      wx := 0.0;
    } else {
      wx := avg;
    }
  }

  /** The facts the outer loop of GetFreqWeightsStar needs about its i-th object. */
  lemma WeighOne(g: RelationGraph, s: int, sub: Tuple, sObjs: seq<nat>, i: nat)
    requires sObjs == Intersect(RelationGraphs.GetLabels(g, s), Slot(sub, s)) && Sorted(sObjs) && i < |sObjs|
    ensures sObjs[i] < NumObjsInDomain(g, s) && sObjs[i] !in sObjs[..i]
  {
    assert sObjs[i] in sObjs;
    assert forall k :: 0 <= k < i ==> sObjs[k] < sObjs[i];
  }

  // ---------------------------------------------------------------------------
  // Star-shaped sampling around one domain
  // ---------------------------------------------------------------------------

  /** The contexts of cs whose other domain is not in done, in order: the arms still to sample. */
  function OpenContexts(cs: seq<Context>, s: int, done: seq<nat>): (r: seq<Context>)
    ensures forall c :: c in r <==> c in cs && Other(c, s) !in done
  {
    if cs == [] then []
    else
      var last := cs[|cs| - 1];
      var front := cs[..|cs| - 1];
      assert forall c :: c in cs <==> c in front || c == last;
      OpenContexts(front, s, done) + (if Other(last, s) in done then [] else [last])
  }

  /**
    x lies in the prime, within its context, of every arm from position from on: the
    arms from there on form a star around s whose centre may contain x.
   */
  predicate StarRelated(g: RelationGraph, s: int, arms: Tuple, from: nat, x: nat)
  {
    forall k :: from <= k < |arms| ==>
      HasId(arms, arms[k].id) && IsEdge(g, arms[k].id, s) &&
      RelatedToAll(EdgeContext(g, arms[k].id, s), arms[k].id, SetById(arms, arms[k].id).items, x)
  }

  /**
    The k-th arm was drawn from the neighbours of the start object in the k-th open
    context, within the sample; the first arm carrying each id is not empty.
   */
  predicate ArmsFit(s: int, sample: Tuple, drawn: nat, arms: Tuple, open: seq<Context>)
  {
    && |arms| == |open|
    && forall k :: 0 <= k < |arms| ==> ArmFits(s, sample, drawn, arms, arms[k], open[k])
  }

  /**
    One arm of a star in t: it is drawn for the other domain of context c, it is the
    set t carries for that domain, non-empty and ascending, and it lies in the prime of
    the drawn object under c and in the sample's set for its domain.
   */
  predicate ArmFits(s: int, sample: Tuple, drawn: nat, t: Tuple, arm: ObjSet, c: Context)
  {
    && arm.id == Other(c, s)
    && HasId(t, arm.id) && SetById(t, arm.id).items != [] && Sorted(arm.items)
    && SubsetOf(arm.items, Intersect(GetSet(c, s, drawn), Slot(sample, arm.id)))
  }

  /**
    A partial star around s: the arms fit the open contexts seen so far. The centre ss
    holds exactly the objects of sample[s] in the prime of every arm from position
    from on (nothing before the first arm). The running centre restarts at from only
    after it became empty, so from > 0 means that no object of sample[s] is in the
    primes of all the arms.
   */
  ghost predicate StarSoFar(g: RelationGraph, s: int, sample: Tuple, drawn: nat, arms: Tuple, ss: seq<nat>,
                            open: seq<Context>, from: nat)
  {
    && ArmsFit(s, sample, drawn, arms, open)
    && Sorted(ss)
    && (if arms == [] then from == 0 else from < |arms|)
    && (forall x: nat :: x in ss <==> arms != [] && x in Slot(sample, s) && StarRelated(g, s, arms, from, x))
    && (from > 0 ==> forall x: nat :: x in Slot(sample, s) ==> !StarRelated(g, s, arms, 0, x))
  }

  /**
    What SubspaceStarShapedFreqSample promises of its result t: the start object drawn
    has positive weight; one arm per open context of s; last, the centre with id s.
   */
  ghost predicate StarSample(g: RelationGraph, s: int, sample: Tuple, done: seq<nat>, drawn: nat, from: nat, t: Tuple)
  {
    && drawn < NumObjsInDomain(g, s) && drawn in Slot(sample, s) && AllArms(GetContexts(g, s), s, sample, drawn)
    && |t| > 0 && t[|t| - 1].id == s
    && StarSoFar(g, s, sample, drawn, t[..|t| - 1], t[|t| - 1].items, OpenContexts(GetContexts(g, s), s, done), from)
  }

  /** An arm drawn for context c: ascending, among the start object's neighbours in c within the sample. */
  predicate ArmDrawn(s: int, sample: Tuple, drawn: nat, c: Context, a: ObjSet)
  {
    && a.id == Other(c, s) && Sorted(a.items)
    && SubsetOf(a.items, Intersect(GetSet(c, s, drawn), Slot(sample, a.id)))
  }

  /**
    The star around s breaks at the j-th open context: the arms before it fit the
    earlier open contexts, and the arm a drawn there primes back into s to NULL.
   */
  ghost predicate ArmFailsAt(g: RelationGraph, s: int, sample: Tuple, drawn: nat, open: seq<Context>,
                             arms: Tuple, j: nat, a: ObjSet)
  {
    && j < |open| && ArmsFit(s, sample, drawn, arms, open[..j])
    && ArmDrawn(s, sample, drawn, open[j], a) && IsEdge(g, a.id, s) && HasId(arms + [a], a.id)
    && Prime(arms + [a], g, a.id, s, 1).None?
  }

  /**
    How SubspaceStarShapedFreqSample can fail: no object of s has weight, or a start
    object of positive weight was drawn and the prime of one of its open arms is NULL.
   */
  ghost predicate StarFails(g: RelationGraph, s: int, sample: Tuple, done: seq<nat>)
  {
    || (forall x :: 0 <= x < NumObjsInDomain(g, s) ==> RawWeight(g, s, sample, x) == 0.0)
    || exists drawn: nat, arms: Tuple, j: nat, a: ObjSet ::
         && drawn < NumObjsInDomain(g, s) && drawn in Slot(sample, s) && AllArms(GetContexts(g, s), s, sample, drawn)
         && ArmFailsAt(g, s, sample, drawn, OpenContexts(GetContexts(g, s), s, done), arms, j, a)
  }

  /** A failure at an open context stays one when more open contexts follow. */
  lemma ArmFailsLonger(g: RelationGraph, s: int, sample: Tuple, drawn: nat, open: seq<Context>, more: seq<Context>,
                       arms: Tuple, j: nat, a: ObjSet)
    requires ArmFailsAt(g, s, sample, drawn, open, arms, j, a)
    requires |open| <= |more| && more[..|open|] == open
    ensures ArmFailsAt(g, s, sample, drawn, more, arms, j, a)
  {
    assert more[..j] == open[..j] && more[j] == open[j];
  }

  /** A failure at the open context cs[i] is a failure among all the open contexts of cs. */
  lemma FailsInLoop(g: RelationGraph, s: int, sample: Tuple, drawn: nat, cs: seq<Context>, done: seq<nat>, i: nat,
                    arms: Tuple, a: ObjSet)
    requires i < |cs| && Other(cs[i], s) !in done
    requires var open := OpenContexts(cs[..i], s, done);
             ArmFailsAt(g, s, sample, drawn, open + [cs[i]], arms, |open|, a)
    ensures ArmFailsAt(g, s, sample, drawn, OpenContexts(cs, s, done), arms, |OpenContexts(cs[..i], s, done)|, a)
  {
    var open := OpenContexts(cs[..i], s, done);
    OpenStep(cs, s, done, i);
    OpenPrefix(cs, s, done, i + 1);
    ArmFailsLonger(g, s, sample, drawn, open + [cs[i]], OpenContexts(cs, s, done), arms, |open|, a);
  }

  /** The open contexts among a prefix of cs are a prefix of those among cs. */
  lemma {:induction false} OpenPrefix(cs: seq<Context>, s: int, done: seq<nat>, i: nat)
    requires i <= |cs|
    decreases |cs|
    ensures var p, q := OpenContexts(cs[..i], s, done), OpenContexts(cs, s, done);
            |p| <= |q| && q[..|p|] == p
  {
    if i == |cs| {
      assert cs[..i] == cs;
    } else {
      var front := cs[..|cs| - 1];
      assert cs[..i] == front[..i];
      OpenPrefix(front, s, done, i);
    }
  }

  /** Adding an arm keeps the earlier arms' primes and adds the new arm's. */
  lemma StarRelatedAppend(g: RelationGraph, s: int, arms: Tuple, a: ObjSet, from: nat, x: nat)
    requires IsEdge(g, a.id, s) && from <= |arms|
    ensures HasId(arms + [a], a.id)
    ensures StarRelated(g, s, arms + [a], from, x) <==>
              StarRelated(g, s, arms, from, x) &&
              RelatedToAll(EdgeContext(g, a.id, s), a.id, SetById(arms + [a], a.id).items, x)
  {
    var t := arms + [a];
    assert t[|arms|].id == a.id;
    forall k | 0 <= k < |arms|
      ensures HasId(arms, arms[k].id) && HasId(t, arms[k].id) && SetById(t, arms[k].id) == SetById(arms, arms[k].id)
    {
      assert arms[k] == t[k];
      IndexOfIdPrefix(arms, [a], arms[k].id);
    }
    if StarRelated(g, s, arms, from, x) && RelatedToAll(EdgeContext(g, a.id, s), a.id, SetById(t, a.id).items, x) {
      forall k | from <= k < |t|
        ensures HasId(t, t[k].id) && IsEdge(g, t[k].id, s) &&
                RelatedToAll(EdgeContext(g, t[k].id, s), t[k].id, SetById(t, t[k].id).items, x)
      {
        if k < |arms| {
          assert t[k] == arms[k];
        }
      }
    }
    if StarRelated(g, s, t, from, x) {
      assert HasId(t, t[|arms|].id) && IsEdge(g, t[|arms|].id, s);
      forall k | from <= k < |arms|
        ensures HasId(arms, arms[k].id) && IsEdge(g, arms[k].id, s) &&
                RelatedToAll(EdgeContext(g, arms[k].id, s), arms[k].id, SetById(arms, arms[k].id).items, x)
      {
        assert t[k] == arms[k];
      }
    }
  }

  /** A context of s links its other domain back to s. */
  lemma ArmIsEdge(g: RelationGraph, s: int, c: Context)
    requires c in g.contexts && HasDomain(c, s)
    ensures IsEdge(g, Other(c, s), s)
  {
    var k :| 0 <= k < |g.contexts| && g.contexts[k] == c;
    assert Links(g.contexts[k], Other(c, s), s);
  }

  /**
    One open arm of SubspaceStarShapedFreqSample (the body of its loop): a uniform subset
    tt of the start object's neighbours in c within the sample is drawn; the arm is
    added and primed back into s; the prime is cut down to sample[s]. None exactly when
    the prime of the arm drawn (the ghost a) is NULL.
   */
  method SampleArm(g: RelationGraph, s: int, sample: Tuple, c: Context, drawn: nat, arms: Tuple, rng: Random)
    returns (r: Option<(ObjSet, seq<nat>)>, ghost a: ObjSet)
    requires ContextsValid(g) && AllSorted(sample) && c in g.contexts && HasDomain(c, s)
    modifies rng
    ensures ArmDrawn(s, sample, drawn, c, a) && IsEdge(g, a.id, s) && HasId(arms + [a], a.id)
    ensures r.None? <==> Prime(arms + [a], g, a.id, s, 1).None?
    ensures r.Some? ==>
              && r.value.0 == a
              && r.value.0.id == Other(c, s) && Sorted(r.value.0.items)
              && HasId(arms + [r.value.0], Other(c, s)) && SetById(arms + [r.value.0], Other(c, s)).items != []
              && SubsetOf(r.value.0.items, Intersect(GetSet(c, s, drawn), Slot(sample, Other(c, s))))
              && IsEdge(g, Other(c, s), s)
              && Sorted(r.value.1)
              && forall x: nat :: x in r.value.1 <==>
                   x in Slot(sample, s) &&
                   RelatedToAll(EdgeContext(g, Other(c, s), s), Other(c, s), SetById(arms + [r.value.0], Other(c, s)).items, x)
  {
    var t := Other(c, s);
    ArmIsEdge(g, s, c);
    SlotSorted(sample, t);
    SlotSorted(sample, s);
    Contexts.AdjacencySorted(c, s, drawn);
    var currT := Intersect(GetSet(c, s, drawn), Slot(sample, t));
    var tt := UniformSubsetDraw(currT, rng);
    var arm := ObjSet(t, tt);
    a := arm;
    var ret := arms + [arm];
    assert ret[|arms|] == arm;
    var sPrime := Prime(ret, g, t, s, 1);
    if sPrime.None? {
      return None, a;
    }
    PrimeIsDerivation(ret, g, t, s, 1);
    var cut := Intersect(sPrime.value, Slot(sample, s));
    return Some((arm, cut)), a;
  }

  /**
    The centre after one more arm: while the running centre is non-empty it is cut
    down by the new arm's prime; an empty centre is replaced by that prime, and the
    star restarts at the new arm.
   */
  lemma CentreStep(g: RelationGraph, s: int, sample: Tuple, arms: Tuple, a: ObjSet, ss: seq<nat>, cut: seq<nat>, from: nat)
    requires IsEdge(g, a.id, s) && HasId(arms + [a], a.id)
    requires Sorted(ss) && Sorted(cut)
    requires if arms == [] then from == 0 else from < |arms|
    requires forall x: nat :: x in ss <==> arms != [] && x in Slot(sample, s) && StarRelated(g, s, arms, from, x)
    requires from > 0 ==> forall x: nat :: x in Slot(sample, s) ==> !StarRelated(g, s, arms, 0, x)
    requires forall x: nat :: x in cut <==>
               x in Slot(sample, s) && RelatedToAll(EdgeContext(g, a.id, s), a.id, SetById(arms + [a], a.id).items, x)
    ensures var next := if |ss| > 0 then Intersect(ss, cut) else cut;
            var from' := if |ss| > 0 then from else |arms|;
            && Sorted(next) && from' < |arms + [a]|
            && (forall x: nat :: x in next <==> x in Slot(sample, s) && StarRelated(g, s, arms + [a], from', x))
            && (from' > 0 ==> forall x: nat :: x in Slot(sample, s) ==> !StarRelated(g, s, arms + [a], 0, x))
  {
    var t := arms + [a];
    if |ss| > 0 {
      assert ss[0] in ss;
      assert arms != [];
      SortedIntersectMeaning(ss, cut);
      forall x: nat ensures x in Intersect(ss, cut) <==> x in Slot(sample, s) && StarRelated(g, s, t, from, x) {
        StarRelatedAppend(g, s, arms, a, from, x);
      }
      if from > 0 {
        forall x: nat | x in Slot(sample, s) ensures !StarRelated(g, s, t, 0, x) {
          StarRelatedAppend(g, s, arms, a, 0, x);
        }
      }
    } else {
      forall x: nat ensures x in cut <==> x in Slot(sample, s) && StarRelated(g, s, t, |arms|, x) {
        StarRelatedAppend(g, s, arms, a, |arms|, x);
      }
      if arms != [] {
        forall x: nat | x in Slot(sample, s) ensures !StarRelated(g, s, t, 0, x) {
          assert !StarRelated(g, s, arms, from, x);
          StarRelatedAppend(g, s, arms, a, 0, x);
        }
      }
    }
  }

  /** The intersection of ascending sets is ascending and holds the common elements. */
  lemma SortedIntersectMeaning(a: seq<nat>, b: seq<nat>)
    requires Sorted(a) && Sorted(b)
    ensures Sorted(Intersect(a, b)) && forall x :: x in Intersect(a, b) <==> x in a && x in b
  {
  }

  /** One more context: it joins the open ones unless its other domain is done. */
  lemma OpenStep(cs: seq<Context>, s: int, done: seq<nat>, i: nat)
    requires i < |cs|
    ensures OpenContexts(cs[..i + 1], s, done) ==
              OpenContexts(cs[..i], s, done) + (if Other(cs[i], s) in done then [] else [cs[i]])
  {
    assert cs[..i + 1][..i] == cs[..i];
  }

  /** A positive normalised weight comes from a positive weight. */
  lemma PositiveNormalized(w: seq<real>, k: nat)
    requires Sum(w) != 0.0 && (forall i :: 0 <= i < |w| ==> w[i] >= 0.0) && k < |w|
    requires Normalized(w)[k] > 0.0
    ensures w[k] > 0.0
  {
    SumZero(w);
    assert Normalized(w)[k] == w[k] / Sum(w);
  }

  /** The start object of SubspaceStarShapedFreqSample: drawn by its normalised weight, so its weight is positive. */
  method DrawStart(g: RelationGraph, s: int, sample: Tuple, w: seq<real>, rng: Random) returns (k: nat)
    requires RelationGraphs.Valid(g) && AllSorted(sample)
    requires Sum(RawWeights(g, s, sample)) != 0.0 && w == Normalized(RawWeights(g, s, sample))
    modifies rng
    ensures k < NumObjsInDomain(g, s) && k in Slot(sample, s) && AllArms(GetContexts(g, s), s, sample, k)
  {
    RawWeightsDrawable(g, s, sample);
    k := WeightedUniformDraw(w, rng);
    DrawnStartFits(g, s, sample, k);
  }

  /** The raw weights of s are not negative, and normalised they are a distribution. */
  lemma RawWeightsDrawable(g: RelationGraph, s: int, sample: Tuple)
    requires Sum(RawWeights(g, s, sample)) != 0.0
    ensures var raw := RawWeights(g, s, sample);
            && (forall x :: 0 <= x < |raw| ==> raw[x] >= 0.0)
            && |Normalized(raw)| > 0 && Sum(Normalized(raw)) == 1.0
            && forall x :: 0 <= x < |raw| ==> Normalized(raw)[x] >= 0.0
  {
    var raw := RawWeights(g, s, sample);
    forall x | 0 <= x < |raw| ensures raw[x] >= 0.0 {
      RawNonNegative(g, s, sample, x);
    }
    NormalizedSumsToOne(raw);
    NormalizedNonNegative(raw);
    assert raw != [];
  }

  /** An object drawn with positive normalised weight is a start object with every arm available. */
  lemma DrawnStartFits(g: RelationGraph, s: int, sample: Tuple, k: nat)
    requires RelationGraphs.Valid(g) && AllSorted(sample)
    requires var raw := RawWeights(g, s, sample);
             && Sum(raw) != 0.0 && (forall x :: 0 <= x < |raw| ==> raw[x] >= 0.0)
             && k < |raw| && Normalized(raw)[k] > 0.0
    ensures k < NumObjsInDomain(g, s) && k in Slot(sample, s) && AllArms(GetContexts(g, s), s, sample, k)
  {
    PositiveNormalized(RawWeights(g, s, sample), k);
    RawWeightMeaning(g, s, sample, k);
  }

  /**
    SubspaceStarShapedFreqSample(g, s, sample, completed): a start object of s is drawn by
    GetFreqWeightsStar's weights; for every context of s whose other domain t is not
    completed, an arm is drawn uniformly among the start object's neighbours within
    sample[t], added, and primed back into s. The centre, last, is the running
    intersection of the primes within sample[s], restarted by the next prime whenever it
    became empty. None when s has no weight or a prime is NULL.
   */
  method SubspaceStarShapedFreqSample(g: RelationGraph, s: int, sample: Tuple, completed: IOSet, rng: Random)
    returns (r: Option<Tuple>, ghost drawn: nat, ghost from: nat)
    requires RelationGraphs.Valid(g) && CoversStar(g, s, sample)
    modifies rng
    ensures (forall x :: 0 <= x < NumObjsInDomain(g, s) ==> RawWeight(g, s, sample, x) == 0.0) ==> r.None?
    ensures r.None? ==> StarFails(g, s, sample, completed.d)
    ensures r.Some? ==> StarSample(g, s, sample, completed.d, drawn, from, r.value)
  {
    var sWeights := GetFreqWeightsStar(g, s, sample);
    if sWeights.None? {
      return None, 0, 0;
    }
    var randS := DrawStart(g, s, sample, sWeights.value, rng);
    drawn := randS;
    var ctxs := GetContexts(g, s);
    ghost var arms, j, a;
    r, from, arms, j, a := SampleArms(g, s, sample, ctxs, completed, randS, rng);
    if r.None? {
      assert ArmFailsAt(g, s, sample, drawn, OpenContexts(ctxs, s, completed.d), arms, j, a);
    }
  }

  /** Every context of g is valid. */
  ghost predicate ContextsValid(g: RelationGraph)
  {
    forall c :: c in g.contexts ==> Contexts.Valid(c)
  }

  /** The loop of SubspaceStarShapedFreqSample over the contexts of s, once the start object is drawn. */
  method SampleArms(g: RelationGraph, s: int, sample: Tuple, ctxs: seq<Context>, completed: IOSet, drawn: nat, rng: Random)
    returns (r: Option<Tuple>, ghost from: nat, ghost arms: Tuple, ghost j: nat, ghost a: ObjSet)
    requires ContextsValid(g) && AllSorted(sample)
    requires forall c :: c in ctxs ==> c in g.contexts && HasDomain(c, s)
    modifies rng
    ensures r.None? ==> ArmFailsAt(g, s, sample, drawn, OpenContexts(ctxs, s, completed.d), arms, j, a)
    ensures r.Some? ==>
              && |r.value| > 0 && r.value[|r.value| - 1].id == s
              && StarSoFar(g, s, sample, drawn, r.value[..|r.value| - 1], r.value[|r.value| - 1].items,
                           OpenContexts(ctxs, s, completed.d), from)
  {
    var ret: Tuple := [];
    var ss: seq<nat> := [];
    from := 0;
    var i := 0;
    while i < |ctxs|
      invariant 0 <= i <= |ctxs|
      invariant StarSoFar(g, s, sample, drawn, ret, ss, OpenContexts(ctxs[..i], s, completed.d), from)
    {
      var ok, ret', ss', from', failed := ContextRound(g, s, sample, ctxs, completed, drawn, i, ret, ss, from, rng);
      if !ok {
        return None, 0, ret, |OpenContexts(ctxs[..i], s, completed.d)|, failed;
      }
      ret, ss, from := ret', ss', from';
      i := i + 1;
    }
    assert ctxs[..|ctxs|] == ctxs;
    var result := ret + [ObjSet(s, ss)];
    StarClosed(g, s, sample, drawn, ret, ss, OpenContexts(ctxs, s, completed.d), from);
    r := Some(result);
    arms, j, a := [], 0, ObjSet(s, []);
  }

  /** The arms followed by the centre, carrying id s, make the star. */
  lemma StarClosed(g: RelationGraph, s: int, sample: Tuple, drawn: nat, arms: Tuple, ss: seq<nat>,
                   open: seq<Context>, from: nat)
    requires StarSoFar(g, s, sample, drawn, arms, ss, open, from)
    ensures var t := arms + [ObjSet(s, ss)];
            && |t| > 0 && t[|t| - 1].id == s
            && StarSoFar(g, s, sample, drawn, t[..|t| - 1], t[|t| - 1].items, open, from)
  {
    var t := arms + [ObjSet(s, ss)];
    assert t[..|t| - 1] == arms;
  }

  /**
    One pass of the loop of SubspaceStarShapedFreqSample over the contexts of s: context
    ctxs[i] is skipped when its other domain is completed, otherwise an arm is drawn in
    it. On failure the star breaks there.
   */
  method ContextRound(g: RelationGraph, s: int, sample: Tuple, ctxs: seq<Context>, completed: IOSet, drawn: nat, i: nat,
                      ret: Tuple, ss: seq<nat>, ghost from: nat, rng: Random)
    returns (ok: bool, ret': Tuple, ss': seq<nat>, ghost from': nat, ghost failed: ObjSet)
    requires ContextsValid(g) && AllSorted(sample)
    requires forall c :: c in ctxs ==> c in g.contexts && HasDomain(c, s)
    requires i < |ctxs| && StarSoFar(g, s, sample, drawn, ret, ss, OpenContexts(ctxs[..i], s, completed.d), from)
    modifies rng
    ensures ok ==> StarSoFar(g, s, sample, drawn, ret', ss', OpenContexts(ctxs[..i + 1], s, completed.d), from')
    ensures !ok ==> ArmFailsAt(g, s, sample, drawn, OpenContexts(ctxs, s, completed.d), ret,
                               |OpenContexts(ctxs[..i], s, completed.d)|, failed)
  {
    var c := ctxs[i];
    assert c in ctxs;
    var t := Other(c, s);
    var done := completed.Contains(t);
    ghost var open := OpenContexts(ctxs[..i], s, completed.d);
    OpenStep(ctxs, s, completed.d, i);
    failed := ObjSet(t, []);
    if done {
      assert OpenContexts(ctxs[..i + 1], s, completed.d) == open + [] == open;
      return true, ret, ss, from, failed;
    }
    var next;
    next, from', failed := SampleArmRound(g, s, sample, c, drawn, ret, ss, open, from, rng);
    if next.None? {
      FailsInLoop(g, s, sample, drawn, ctxs, completed.d, i, ret, failed);
      return false, ret, ss, 0, failed;
    }
    ret', ss' := next.value.0, next.value.1;
    ok := true;
  }

  /**
    One open context of the loop of SubspaceStarShapedFreqSample: an arm is drawn and
    added; the centre is cut down by its prime within sample[s] while it is non-empty,
    and replaced by that prime when it is empty.
   */
  method SampleArmRound(g: RelationGraph, s: int, sample: Tuple, c: Context, drawn: nat, ret: Tuple, ss: seq<nat>,
                        ghost open: seq<Context>, ghost from: nat, rng: Random)
    returns (r: Option<(Tuple, seq<nat>)>, ghost from': nat, ghost a: ObjSet)
    requires ContextsValid(g) && AllSorted(sample) && c in g.contexts && HasDomain(c, s)
    requires StarSoFar(g, s, sample, drawn, ret, ss, open, from)
    modifies rng
    ensures r.Some? ==> r.value.0 != [] && StarSoFar(g, s, sample, drawn, r.value.0, r.value.1, open + [c], from')
    ensures r.None? ==> ArmFailsAt(g, s, sample, drawn, open + [c], ret, |open|, a)
  {
    var arm;
    arm, a := SampleArm(g, s, sample, c, drawn, ret, rng);
    if arm.None? {
      assert (open + [c])[..|open|] == open && (open + [c])[|open|] == c;
      return None, 0, a;
    }
    var drawnArm := arm.value.0;
    var cut := arm.value.1;
    CentreStep(g, s, sample, ret, a, ss, cut, from);
    var centre;
    if |ss| > 0 {
      centre := Intersect(ss, cut);
      from' := from;
    } else {
      centre := cut;
      from' := |ret|;
    }
    assert ArmFits(s, sample, drawn, ret + [a], a, c);
    ArmsFitStep(s, sample, drawn, ret, open, a, c);
    return Some((ret + [drawnArm], centre)), from', a;
  }

  /** A fitting arm drawn in the next open context keeps the arms fitting. */
  lemma ArmsFitStep(s: int, sample: Tuple, drawn: nat, arms: Tuple, open: seq<Context>, a: ObjSet, c: Context)
    requires ArmsFit(s, sample, drawn, arms, open)
    requires ArmFits(s, sample, drawn, arms + [a], a, c)
    ensures ArmsFit(s, sample, drawn, arms + [a], open + [c])
  {
    var t := arms + [a];
    var o := open + [c];
    forall k | 0 <= k < |t| ensures ArmFits(s, sample, drawn, t, t[k], o[k]) {
      if k < |arms| {
        ArmFitsAt(s, sample, drawn, arms, open, a, c, k);
      } else {
        assert t[k] == a && o[k] == c;
      }
    }
  }

  /** The arm at position k < |arms| still fits once a follows it. */
  lemma ArmFitsAt(s: int, sample: Tuple, drawn: nat, arms: Tuple, open: seq<Context>, a: ObjSet, c: Context, k: nat)
    requires ArmsFit(s, sample, drawn, arms, open) && k < |arms|
    ensures ArmFits(s, sample, drawn, arms + [a], (arms + [a])[k], (open + [c])[k])
  {
    assert (arms + [a])[k] == arms[k] && (open + [c])[k] == open[k];
    ArmFitsPrefix(s, sample, drawn, arms, [a], arms[k], open[k]);
  }

  /** An arm of a star in arms is still one once more sets follow. */
  lemma ArmFitsPrefix(s: int, sample: Tuple, drawn: nat, arms: Tuple, u: Tuple, arm: ObjSet, c: Context)
    requires ArmFits(s, sample, drawn, arms, arm, c)
    ensures ArmFits(s, sample, drawn, arms + u, arm, c)
  {
    IndexOfIdPrefix(arms, u, arm.id);
    assert SetById(arms + u, arm.id) == SetById(arms, arm.id);
  }

}
