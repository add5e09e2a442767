# GHIN search engine, modelled in Dafny

GHIN clusters a heterogeneous information network: several domains of objects, linked
pairwise by binary relations (contexts). A cluster (an n-cluster) holds one set of
objects per domain. GHIN treats clustering as a game: each domain is a player who adds
the outsiders it rewards and drops the members it penalises. A candidate is accepted as
a cluster once no player wants to move (a Nash equilibrium of the reward).

The model follows the program's layers, one Dafny module per source file:

- `ioset.dfy` (`IOSets`): the id-tagged object set `IOSet`, a class over a
  `seq<nat>`. The value `ObjSet(id, items)` is how a set sits inside an n-cluster.
- `ops.dfy` (`SetOps`): the sorted-set algebra of `Ops.h`, plus:
  - FIMI transposition;
  - Cantor pairing, bounded to the C `int` range;
  - the operation counters, as counting wrappers (the search itself does not
    count, see "Left out");
  - the two random draws.
- `ncluster.dfy` (`NClusters`): `NCluster`, a class whose `sets` field is a sequence
  of `ObjSet` values, with id lookup (`IndexOfId`, `SetById`).
- `context.dfy` (`Contexts`): a context stores one relation from both sides. Its
  queries are functions over that value.
- `relation_graph.dfy` (`RelationGraphs`): the network of contexts, with its two
  indexes (domain → contexts, domain → neighbours) and its queries.
- `lattice_ops.dfy` (`LatticeOps`): the derivation operator `Prime` of formal
  concept analysis, aware of `min`, and `GetTop`/`GetBottom`.
- `count_rewards.dfy` (`CountRewards`): the simple weighted reward
  `Simple_Weighted_Score`.
- `quality_measures.dfy` (`QualityMeasures`): the integer star-shaped `Area`.
- `misc_ops.dfy` (`MiscOps`): `Sort_Map_By_Value` over a map given as its entry
  list in key order.
- `basic.dfy` (`Basic`): the cluster-list and edge-map helpers of `basic.h`.
- `randomness.dfy` (`Randomness`): `rand()` as a stream of numbers the caller
  supplies, and `random_shuffle` over it.
- `random_sample.dfy` and `sample_network.dfy` (`RandomSample`, `SampleNetwork`):
  the seed sampler.
  - Support weights of the start objects.
  - The star-shaped sample around a domain, with its back-primes and its running
    centre.
  - `AdjustSampleSubspace`.
  - The walk over articulation domains.
- `framework.dfy` (`Framework`): the search, in two parts.
  - Class `Ghin` holds the network, the reward, the accepted concepts and the
    counters. Its methods:
    - `MakeDeal`, with its add/remove state machine and round budget;
    - `MaximizeDomain`, `AddSet_Reward`, `RemoveSet_Reward`;
    - the pool bookkeeping, `CheckRepeat`, seed selection;
    - the outer loop `GHIN_Alg`.
  - Functions that specify those methods on values, each with its lemmas: `Deal`
    (the generic loop `Loop` over the rounds of `Round`), `Round`, `Step`, `Taken`,
    `Gathered`, `Repeats`, `Equilibrium`, `Pools`.

Where the source updates an object in place (`IOSet`, `NCluster`, the cluster list,
the edge map, the weight vector, `Ghin`), the model has a class with `modifies`
clauses. Each of its methods is proved against a function of the old state. The
properties the program relies on are lemmas about those functions:
- a deal stops within the budget;
- a converged deal is an equilibrium, and a second deal on it changes nothing;
- the two pools stay disjoint and together cover every object;
- `Prime` is the derivation operator and is antitone;
- Cantor pairing round-trips.

The reward function is an abstract parameter `(tuple, object, domain) -> real`.
Randomness is a stream of numbers the caller supplies.

## Model

| member | source | states |
|---|---|---|
| IOSets.IOSet.constructor | headers/core/IOSet.h:38 | a new set is empty, with id 0, unmarked, quality 0 |
| IOSets.IOSet.Copy | headers/core/IOSet.h:42 | the copy has the same elements, id, mark and quality as the original |
| IOSets.IOSet.SetId | headers/core/IOSet.h:50 | only the id changes |
| IOSets.IOSet.SetMarked | headers/core/IOSet.h:93 | only the mark changes |
| IOSets.IOSet.SetQuality | headers/core/IOSet.h:101 | only the quality changes |
| IOSets.IOSet.Add | headers/core/IOSet.h:59-60 | x is appended at the end; the earlier elements and the tags stay |
| IOSets.IOSet.Equal | headers/core/IOSet.h:70-71 | true iff both have the same size and the same element at every position (sequence equality, not set equality) |
| IOSets.IOSet.GetIndex | headers/core/IOSet.h:80-81 | the first position of x, or -1 exactly when x is absent |
| IOSets.IOSet.Contains | headers/core/IOSet.h:72-73 | true iff x occurs |
| IOSets.IOSet.Remove | headers/core/IOSet.h:76-77 | the element at position i is gone and the rest keep their order |
| IOSets.IOSet.FindRemove | headers/core/IOSet.h:78-79 | the first occurrence of x is gone; an absent x leaves the set as it was |
| IOSets.IOSet.Sort | headers/core/IOSet.h:82-83 | the elements end in ascending order with the same multiset |
| IOSets.IOSet.Clear | headers/core/IOSet.h:86-87 | the set becomes empty; the tags stay |
| IOSets.IOSet.DeepCopy | headers/core/IOSet.h:74-75 | self takes a's elements and id |
| IOSets.IOSet.GetMaxElement | headers/core/IOSet.h:96-97 | an element that no element exceeds; -1 for the empty set |
| SetOps.Intersect | headers/core/Ops.h:77-78 | only common elements; on ascending inputs, ascending and holding every common element |
| SetOps.Difference | headers/core/Ops.h:80-81 | on ascending inputs, ascending and holding exactly the elements of a that are not in b |
| SetOps.Union | headers/core/Ops.h:86-87 | exactly the elements of either input, ascending when the inputs are |
| SetOps.SymmDifference | headers/core/Ops.h:83-84 | on ascending inputs, exactly the elements in one input but not the other |
| SetOps.Contains | headers/core/Ops.h:91-92 | true iff b is a subset of a (both directions on ascending inputs) |
| SetOps.ProperSubSetMeaning | headers/core/Ops.h:96-97 | ProperSubSet(a, b) iff b is a subset of a and a has an element b lacks |
| SetOps.SortedUnique | headers/core/Ops.h:2-5 | two ascending sets with the same elements are the same sequence, so set equality is sequence equality |
| SetOps.SortedSubsetSize | headers/core/Ops.h:91-92 | a subset is no larger than its superset |
| SetOps.IntersectCommutes | headers/core/Ops.h:77-78 | intersection does not depend on the order of its arguments |
| SetOps.IntersectDifferenceSize | headers/core/Ops.h:77-81 | every element of a lands in exactly one of Intersect(a, b) and Difference(a, b) |
| SetOps.UnionSize | headers/core/Ops.h:77-87 | inclusion–exclusion: the union and intersection sizes add up to the two input sizes |
| SetOps.DifferenceIntersectRebuild | headers/core/Ops.h:80-87 | the union of a - b and a ∩ b gives back a |
| SetOps.Column | headers/core/Ops.h:116-117 | one transposed row: exactly the rows that hold column j, ascending |
| SetOps.TransposeFimi | headers/core/Ops.h:116-117 | i is in row j of the result iff j is in row i of the input |
| SetOps.MaxOfRows | headers/core/Ops.h:113-114 | the largest id in any row, -1 when there is none |
| SetOps.TransposeFimiUnsized | headers/core/Ops.h:113-114 | the transpose is wide enough for every id, with the same membership law |
| SetOps.TransposeTwice | headers/core/Ops.h:113-117 | transposing twice gives back ascending rows |
| SetOps.CantorPairing | headers/core/Ops.h:136-141 | the Cantor code of a pair, within the C int range for every admitted pair |
| SetOps.TriangleRoot | headers/core/Ops.h:143-148 | the diagonal a code lies on |
| SetOps.CantorRoundTrip | headers/core/Ops.h:136-148 | InverseCantor(CantorPairing(k1, k2)) == (k1, k2) |
| SetOps.InverseCantorRoundTrip | headers/core/Ops.h:143-148 | every code in range decodes to an admitted pair that encodes back to it |
| SetOps.CantorInjective | headers/core/Ops.h:136-141 | different pairs never share a code |
| SetOps.OpCounters.constructor | headers/core/Ops.h:151-163 | all four counters start at 0 |
| SetOps.OpCounters.CountedIntersect | headers/core/Ops.h:156-157 | the intersection; numIntersection grows by one and no other counter moves |
| SetOps.OpCounters.CountedDifference | headers/core/Ops.h:162-163 | the difference; numDifference grows by one and no other counter moves |
| SetOps.OpCounters.CountedUnion | headers/core/Ops.h:160-161 | the union; numUnion grows by one and no other counter moves |
| SetOps.OpCounters.CountedContains | headers/core/Ops.h:158-159 | the subset test; numSubset grows by one and no other counter moves |
| SetOps.OpCounters.CountedProperSubSet | headers/core/Ops.h:158-159 | the proper-subset test; numSubset grows by one and no other counter moves |
| SetOps.WeightedUniformDraw | headers/core/Ops.h:119-123 | an index within the weights; for a distribution (non-negative, summing to 1) an index of positive weight |
| SetOps.UniformSubsetDraw | headers/core/Ops.h:125-126 | a subsequence of t, so a subset, ascending when t is |
| NClusters.IndexOfId | headers/core/NCluster.h:67-68 | the position of the first set carrying the id, -1 exactly when none does |
| NClusters.SetById | headers/core/NCluster.h:67-68 | a set of the cluster that carries the id |
| NClusters.UniqueIndex | headers/core/NCluster.h:67-68 | with unique ids, each set is found by its own id at its own position |
| NClusters.ReplaceKeepsIds | headers/core/NCluster.h:73-74 | replacing the set of an id by one with that id keeps every id and its position |
| NClusters.IndexOfIdByIds | headers/core/NCluster.h:67-68 | lookup by id depends on the ids alone |
| NClusters.NCluster.Empty | headers/core/NCluster.h:16 | NCluster(): no sets, default tags |
| NClusters.NCluster.constructor | headers/core/NCluster.h:18-22 | NCluster(n): exactly n empty sets, so GetN() == n |
| NClusters.NCluster.Copy | headers/core/NCluster.h:39 | the copy constructor: equal sets in the same order and equal tags, in a fresh object |
| NClusters.NCluster.DeepCopy | headers/core/NCluster.h:42-43 | self takes a's sets (as values, so later edits do not reach a) and id |
| NClusters.NCluster.GetSetById | headers/core/NCluster.h:67-68 | demands a set carrying the id (the source asserts it) and returns such a set |
| NClusters.NCluster.SetQuality | headers/core/NCluster.h:77-78 | only the quality changes |
| NClusters.NCluster.SetId | headers/core/NCluster.h:81-82 | only the id changes |
| NClusters.NCluster.SetMarked | headers/core/NCluster.h:85-86 | only the mark changes |
| NClusters.NCluster.AddSet | headers/core/NCluster.h:69-70 | one set appended; the earlier sets stay |
| NClusters.NCluster.AssignSet | headers/core/NCluster.h:71-72 | only position i is replaced |
| NClusters.NCluster.AssignSetById | headers/core/NCluster.h:73-74 | only the first set carrying the id is replaced; nothing changes when no set carries it |
| NClusters.NCluster.RemoveSet | headers/core/NCluster.h:91-92 | position i is dropped and the rest keep their order |
| NClusters.NCluster.ContainsIOSetId | headers/core/NCluster.h:87-88 | true iff some set carries the id |
| NClusters.NCluster.GetMaxElement | headers/core/NCluster.h:89-90 | an element of some set that no element exceeds; -1 exactly when every set is empty |
| Contexts.MakeContext | headers/core/Context.h:20-26 | a well-formed context with num1 and num2 objects and no related pair |
| Contexts.Range | headers/core/Context.h:50-55 | the ids 0 .. n-1, ascending |
| Contexts.Other | headers/core/Context.h:123-126 | the domain paired with d |
| Contexts.GetNumSets | headers/core/Context.h:111-112 | the number of objects on d's side; 0 for a foreign domain |
| Contexts.GetSet | headers/core/Context.h:43-48 | the adjacency of object k on d's side; empty past the end |
| Contexts.ViewsAgree | headers/core/Context.h:4-8 | j is in the row of i iff i is in the column of j: the two views are one relation |
| Contexts.AdjacencySorted | headers/core/Context.h:43-48 | every adjacency is ascending and names objects of the other domain |
| Contexts.GetLabels | headers/core/Context.h:50-55 | exactly the object ids 0 .. GetNumSets(d)-1, ascending |
| Contexts.GetDomainIds | headers/core/Context.h:59-60 | the pair (GetDomainId(0), GetDomainId(1)) |
| Contexts.SetDomainId | headers/core/Context.h:85-90 | the chosen side takes the new id; the other side and both views stay |
| Contexts.NumOnesBothSides | headers/core/Context.h:113-114 | the related pairs counted over the rows equal the count over the columns |
| Contexts.GetSubContext | headers/core/Context.h:99-105 | the same domains and sizes |
| Contexts.SubContextMeaning | headers/core/Context.h:99-105 | well-formed, and j is related to i in it iff i is in a, j is in b, and they are related in the original |
| Contexts.Longest | headers/core/Context.h:118-119 | the size of the longest adjacency in a list |
| Contexts.GetLongestSet | headers/core/Context.h:118-119 | no adjacency on either side is longer, and some row reaches it unless it is 0 |
| RelationGraphs.EmptyGraph | headers/core/RelationGraph.h:23-24 | a well-formed graph with no domain |
| RelationGraphs.AddToSlot | headers/core/RelationGraph.h:29-36 | one entry is added to the index set of d, created when missing; the ids stay unique and the sets ascending |
| RelationGraphs.AddContext | headers/core/RelationGraph.h:29-36 | the graph stays well-formed, the context is appended, both its domains become domains and they form an edge |
| RelationGraphs.IsDomainId | headers/core/RelationGraph.h:74-75 | true iff some context touches d |
| RelationGraphs.AnyLinks | headers/core/RelationGraph.h:49-55 | true iff some context links the two domains |
| RelationGraphs.IsEdge | headers/core/RelationGraph.h:49-55 | true iff some context has domains id1 and id2 |
| RelationGraphs.IsEdgeSymmetric | headers/core/RelationGraph.h:49-55 | edges have no direction |
| RelationGraphs.GetContext | headers/core/RelationGraph.h:88-89 | a context of the graph linking s and t; none exactly when (s, t) is not an edge |
| RelationGraphs.GetContexts | headers/core/RelationGraph.h:57-58 | exactly the contexts that touch d |
| RelationGraphs.GetNeighbors | headers/core/RelationGraph.h:65-66 | exactly the domains sharing an edge with d, ascending |
| RelationGraphs.BusyIds | headers/core/RelationGraph.h:59-60 | exactly the ids whose index set has more than one entry |
| RelationGraphs.GetArtDomains | headers/core/RelationGraph.h:59-80 | exactly the domains for which IsArtNodeId holds |
| RelationGraphs.ArtNodeMeaning | headers/core/RelationGraph.h:79-80 | IsArtNodeId(d) iff two different contexts touch d |
| RelationGraphs.NumObjsInDomain | headers/core/RelationGraph.h:44-45 | 0 for an id that is no domain |
| RelationGraphs.GetLabels | headers/core/RelationGraph.h:47-48 | exactly the ids 0 .. NumObjsInDomain(d)-1, ascending |
| RelationGraphs.SumObjs | headers/core/RelationGraph.h:94-95 | no listed domain has more objects than the sum |
| RelationGraphs.GetTotalNumObjs | headers/core/RelationGraph.h:94-95 | no domain has more objects than the total |
| RelationGraphs.FilterSupported | headers/core/RelationGraph.h:85-86 | exactly the objects of xs that are related to something in every given context |
| RelationGraphs.GetCommonObjectsArtNode | headers/core/RelationGraph.h:85-86 | exactly the objects of s with a non-empty adjacency in every context of s, ascending |
| LatticeOps.Derive | headers/core/LatticeOps.h:15-25 | the running intersection only shrinks |
| LatticeOps.PrimeFold | headers/core/LatticeOps.h:18-25 | a result that survives has at least min elements |
| LatticeOps.EdgeContext | headers/core/LatticeOps.h:21-22 | the context of the edge (s, t) |
| LatticeOps.Prime | headers/core/LatticeOps.h:15-28 | demands (s, t) be an edge; NULL (None) for an empty a[s]; any result has at least min elements |
| LatticeOps.EarlyExitIsFinalTest | headers/core/LatticeOps.h:18-25 | giving up as soon as the running result is below min is the same as testing the final result |
| LatticeOps.DeriveMeaning | headers/core/LatticeOps.h:15-25 | the fold keeps, ascending, exactly the elements related to every object folded in |
| LatticeOps.CommonMeaning | headers/core/LatticeOps.h:15-25 | the extent of a non-empty list is exactly the objects related to all of it |
| LatticeOps.PrimeIsDerivation | headers/core/LatticeOps.h:15-25 | Prime is the derivation operator: for non-empty a[s], the t-objects related to all of a[s] if there are at least min of them, else NULL |
| LatticeOps.RelatedToFewer | headers/core/LatticeOps.h:15 | related to all of a set implies related to all of any subset |
| LatticeOps.PrimeAntitone | headers/core/LatticeOps.h:15 | shrinking a non-empty a[s] keeps a non-NULL Prime non-NULL and can only grow it |
| LatticeOps.FullRows | headers/core/LatticeOps.h:11-14 | exactly the rows whose adjacency contains the wanted set, ascending |
| LatticeOps.GetTop | headers/core/LatticeOps.h:11-12 | all of domain2, paired with the domain1 objects related to all of it |
| LatticeOps.GetBottom | headers/core/LatticeOps.h:13-14 | all of domain1, paired with the domain2 objects related to all of it |
| CountRewards.SimpleWeightedScore | source/Count_Rewards.cpp:3-22 | the loop over the neighbours sums the contributions of the recursive Score; it changes neither a nor the graph |
| CountRewards.OnesZerosPartition | source/Count_Rewards.cpp:8-14 | ones + zeros == B == the slot size |
| CountRewards.QuotientBounds | source/Count_Rewards.cpp:15 | (ones − w·zeros)/B lies in [−w, 1] for w ≥ 0 |
| CountRewards.QuotientFull | source/Count_Rewards.cpp:15 | a slot of ones only contributes exactly 1 |
| CountRewards.ContributionBounds | source/Count_Rewards.cpp:9-15 | each neighbour's contribution lies in [−w, 1] for w ≥ 0 |
| CountRewards.NonEmptySlots | source/Count_Rewards.cpp:7-9 | the number of contributing neighbours is at most the number of neighbours |
| CountRewards.ScoreBounds | source/Count_Rewards.cpp:7-19 | the score lies between −w and 1 times the number of non-empty neighbour slots |
| CountRewards.ScoreZero | source/Count_Rewards.cpp:6-21 | with no non-empty neighbour slot the score is 0 |
| CountRewards.FullContribution | source/Count_Rewards.cpp:11-15 | a non-empty slot whose every member is related to obj contributes exactly 1, whatever w |
| CountRewards.ScoreOfFullRelation | source/Count_Rewards.cpp:7-19 | if obj relates to every member of every neighbour slot, the score is the number of non-empty slots |
| QualityMeasures.OtherSizes | headers/core/QualityMeasures.h:14-20 | zero exactly when every non-articulation set is empty |
| QualityMeasures.Area | headers/core/QualityMeasures.h:14-20 | a natural number, zero exactly when the articulation set or every other set is empty |
| QualityMeasures.AreaGrows | headers/core/QualityMeasures.h:14-20 | one more object in another set grows the area by exactly the articulation set's size, so strictly when that set is non-empty |
| QualityMeasures.OtherSizesGrow | headers/core/QualityMeasures.h:14-20 | one more object in a non-articulation set adds one to the other sizes |
| QualityMeasures.SameArtSlot | headers/core/QualityMeasures.h:14-20 | replacing a non-articulation set leaves the articulation set alone |
| MiscOps.InsertByValue | headers/core/MiscOps.h:26-35 | inserting an entry adds exactly that entry |
| MiscOps.InsertKeepsOrder | headers/core/MiscOps.h:28-29 | inserting in key order keeps the result ordered by value, ties by key |
| MiscOps.SortMapByValue | headers/core/MiscOps.h:26-35 | exactly the map's entries, as many as the map has, ordered by ascending value (ties by key); the map is a value, so it is unchanged |
| MiscOps.SortedKeysDistinct | headers/core/MiscOps.h:28-35 | the keys of the result are distinct |
| MiscOps.KeyDeterminesEntry | headers/core/MiscOps.h:26-35 | in a map an entry is determined by its key |
| Basic.Snapshot | headers/algos_helpers/basic.h:18-19 | the copy new NCluster(*c) makes: the sets and tags of c |
| Basic.ClusterList.constructor | headers/algos_helpers/basic.h:18-19 | an empty list |
| Basic.ClusterList.StoreCluster | headers/algos_helpers/basic.h:18-19 | a copy of c appended; the earlier entries stay |
| Basic.ClusterList.SwapDelete | headers/algos_helpers/basic.h:22-23 | position i becomes a copy of c; the length and the other entries stay |
| Basic.SetQuality | headers/algos_helpers/basic.h:28-39 | c's quality becomes Quality(c, params); nothing else of c changes |
| Basic.RowEdges | headers/algos_helpers/basic.h:50-52 | exactly one edge from a to each object of ys, each stored under its Cantor code |
| Basic.PairEdges | headers/algos_helpers/basic.h:50-52 | exactly the edges of A × B, each stored under its Cantor code |
| Basic.PairEdgesLookup | headers/algos_helpers/basic.h:50-52 | every pair (a, b) of the bi-cluster is found under CantorPairing(a, b) |
| Basic.EdgeMap.constructor | headers/algos_helpers/basic.h:50-52 | an empty edge map |
| Basic.EdgeMap.AddRow | headers/algos_helpers/basic.h:50-52 | the inner loop adds the edges from a to every object of ys |
| Basic.EdgeMap.AddRowOf | headers/algos_helpers/basic.h:50-52 | the row of the (i+1)-th object of A joins the edges of the rows before it |
| Basic.EdgeMap.AddBiClusterEdges | headers/algos_helpers/basic.h:50-52 | the map gains an edge for every pair of c's sets id1 and id2 |
| Randomness.Random.constructor | source/Framework.cpp:217 | the generator is seeded with the given stream |
| Randomness.Random.Next | source/Framework.cpp:300 | a number in 0 .. RAND_MAX taken from the front of the stream |
| Randomness.RandomShuffle | source/Framework.cpp:68-71 | a permutation of its input |
| RandomSample.ArmLengths | source/random_sample.cpp:58-72 | one arm length per context: the size of x's adjacency within the sample set of the other domain |
| RandomSample.SupportPositive | source/random_sample.cpp:58-72 | the support is positive iff x reaches the sample in every context |
| RandomSample.RawWeights | source/random_sample.cpp:50-82 | one weight per object of s, each the object's support-based weight |
| RandomSample.RawWeightMeaning | source/random_sample.cpp:50-82 | no weight is negative; a weight is positive iff the object is in sample[s] and reaches the sample in every context of s |
| RandomSample.SumZero | source/random_sample.cpp:85-88 | non-negative weights sum to 0 iff each is 0 |
| RandomSample.Scaled | source/random_sample.cpp:89-93 | every weight divided by the same number |
| RandomSample.SumScale | source/random_sample.cpp:89-93 | dividing every weight divides the sum |
| RandomSample.NormalizedSumsToOne | source/random_sample.cpp:85-93 | the normalised weights sum to 1 |
| RandomSample.NormalizedNonNegative | source/random_sample.cpp:89-93 | the normalised weights are not negative |
| RandomSample.ArmSupport | source/random_sample.cpp:58-72 | the inner loop yields the support: summed arm lengths, 0 once an arm is empty |
| RandomSample.DivideBySum | source/random_sample.cpp:89-93 | in place, every weight is divided by the sum |
| RandomSample.GetFreqWeightsStar | source/random_sample.cpp:47-95 | NULL (None) iff every weight is 0; otherwise the weights divided by their sum |
| RandomSample.FillWeights | source/random_sample.cpp:50-82 | a fresh vector of exactly the raw weights, and their sum |
| RandomSample.FillOne | source/random_sample.cpp:56-82 | one object of sample[s] weighed, the running sum kept |
| RandomSample.ZeroWeights | source/random_sample.cpp:50 | a fresh vector of NumObjsInDomain(s) zeros |
| RandomSample.FilledIsRaw | source/random_sample.cpp:50-56 | objects outside sample[s] keep weight 0, so the filled vector is the raw weights |
| RandomSample.RawZeroIff | source/random_sample.cpp:85-88 | the sum is never negative and is 0 iff every weight is 0 |
| RandomSample.WeighObject | source/random_sample.cpp:58-78 | the weight of one object of sample[s] |
| RandomSample.OpenContexts | source/random_sample.cpp:152-156 | exactly the contexts of s whose other domain is not completed |
| RandomSample.StarRelatedAppend | source/random_sample.cpp:167-174 | adding an arm keeps the earlier arms' primes and adds the new one's |
| RandomSample.ArmIsEdge | source/random_sample.cpp:152-167 | a context of s is an edge from its other domain back to s |
| RandomSample.SampleArm | source/random_sample.cpp:156-179 | the arm drawn carries the other domain's id and lies in adj(start) ∩ sample[t]; None exactly when its prime back into s is NULL; otherwise the cut prime is exactly the objects of sample[s] related to the whole arm |
| RandomSample.CentreStep | source/random_sample.cpp:179-188 | the running centre after an arm: the intersection while non-empty, else the new prime, as the star invariant describes |
| RandomSample.DrawStart | source/random_sample.cpp:146 | the start object has positive weight: it is in sample[s] and reaches the sample in every context |
| RandomSample.SubspaceStarShapedFreqSample | source/random_sample.cpp:137-197 | None when every weight is 0, and None only then or when a start of positive weight was drawn and the prime of one of its open arms is NULL; otherwise one arm per open context with the arm properties above, then the centre with id s, drawn from sample[s] |
| RandomSample.SampleArms | source/random_sample.cpp:152-192 | the loop over the contexts keeps the star invariant; None only when the prime of an open arm is NULL, the arms before it fitting the earlier open contexts |
| RandomSample.SampleArmRound | source/random_sample.cpp:156-191 | one open context: an arm is added and the centre updated; None only when that arm's prime is NULL |
| RandomSample.ContextRound | source/random_sample.cpp:152-191 | one pass of that loop: completed contexts are skipped, open ones add an arm; a failure is a NULL prime at that open context |
| RandomSample.OpenPrefix | source/random_sample.cpp:152-156 | the open contexts among a prefix of the contexts are a prefix of all the open contexts |
| RandomSample.FailsInLoop | source/random_sample.cpp:167-174 | a NULL prime at the current open context is a failure among all the open contexts of s |
| RandomSample.ArmsFitStep | source/random_sample.cpp:158-165 | a drawn arm keeps the arms matched to the open contexts |
| SampleNetwork.Copies | source/random_sample.cpp:258-267 | the copies AdjustSampleSubspace appends have the sample's ids, in order |
| SampleNetwork.CopiesAt | source/random_sample.cpp:258-267 | each copy is the first set of the sample carrying that position's id |
| SampleNetwork.AbsorbStep | source/random_sample.cpp:258-267 | one more round is AssignSetById of the next copy |
| SampleNetwork.AbsorbMeaning | source/random_sample.cpp:258-267 | after absorbing, the set of each id is the sample's when the sample carries it, else the old one |
| SampleNetwork.IdsNat | source/random_sample.cpp:264 | the ids of a sample, in order |
| SampleNetwork.AdjustSampleSubspace | source/random_sample.cpp:258-267 | ret gains copies of the sample's sets in order; completedDomains gains their ids, duplicates kept; the sample space takes each id's set; nothing else changes |
| SampleNetwork.PushableMembers | source/random_sample.cpp:220-250 | a neighbour is queued exactly when it is an articulation domain and not done |
| SampleNetwork.ArtNeighboursMeaning | source/random_sample.cpp:220-228 | the first queue holds exactly the neighbours of s that are articulation domains |
| SampleNetwork.PushableNone | source/random_sample.cpp:244-250 | nothing is pushed once every neighbour is completed |
| SampleNetwork.CoversEveryStar | source/random_sample.cpp:206-214 | a sample space with a set for every domain can be sampled around any domain |
| SampleNetwork.StarWithin | source/random_sample.cpp:137-197 | a star is ascending, drawn from the sample, and carries s |
| SampleNetwork.StarNeighbours | source/random_sample.cpp:152-194 | after a star around s every neighbour of s is completed or carried by the star |
| SampleNetwork.ArmsNeighbours | source/random_sample.cpp:152-165 | arms matched to the open contexts reach every neighbour not completed |
| SampleNetwork.NeighbourContext | headers/core/RelationGraph.h:57-66 | every neighbour of s is the other domain of a context of s |
| SampleNetwork.AbsorbKeeps | source/random_sample.cpp:258-267 | absorbing a star keeps the sample space ascending, with its ids, within the pool |
| SampleNetwork.CopiesWithin | source/random_sample.cpp:258-267 | the copies of a star lie within the pool |
| SampleNetwork.AbsorbStar | source/random_sample.cpp:206-241 | absorbing a star around s1 keeps the walk's invariant and completes s1 and its neighbours |
| SampleNetwork.NetworkStep | source/random_sample.cpp:206-241 | one star drawn and absorbed: None when every weight is 0, and None only when the star around s1 fails (no weight, or a NULL prime); else ret grows, s1 and its neighbours are completed, the invariant holds |
| SampleNetwork.WalkCovered | source/random_sample.cpp:231-252 | the sets gathered carry every root and every neighbour of a root |
| SampleNetwork.PushNeighbours | source/random_sample.cpp:220-250 | the queue gains exactly the articulation neighbours (not completed, when asked) in order |
| SampleNetwork.SubspaceFreqNetwork | source/random_sample.cpp:200-256 | works on a copy of the pool; None when the start has no weight, and None only when the star around s or one of its articulation neighbours failed on a sample space within the pool; otherwise ascending sets drawn from the pool, carrying s, its articulation neighbours and all their neighbours |
| SampleNetwork.WalkFrom | source/random_sample.cpp:218-252 | the walk roots at s and then its articulation neighbours in order, keeps the invariant and closes every root; it fails only when the star around one of those neighbours fails |
| SampleNetwork.WalkOne | source/random_sample.cpp:232-250 | one dequeued domain is walked and the invariant kept; nothing joins the queue; a failure is the failure of the star around that domain |
| SampleNetwork.WalkQueue | source/random_sample.cpp:231-252 | the queue loop walks exactly the queued domains and keeps the invariant; it fails only when the star around a queued domain fails |
| Framework.Domains | source/Framework.cpp:68-69 | the order vector before shuffling: exactly the ids 1 .. N |
| Framework.Rewarded | source/Framework.cpp:187-205 | exactly the elements whose reward passes the mode's test, ascending when the input is |
| Framework.OutsidersMeaning | source/Framework.cpp:183-184 | the outsiders are exactly the objects of the domain not in its set, ascending |
| Framework.AddedByMeaning | source/Framework.cpp:181-197 | AddSet_Reward is NULL iff no outsider has positive reward; otherwise exactly the outsiders with positive reward |
| Framework.RemovedByMeaning | source/Framework.cpp:199-212 | RemoveSet_Reward is NULL iff no member has negative reward; otherwise exactly the members with negative reward |
| Framework.AssignSlots | source/Framework.cpp:131-145 | writing a domain's set changes that set only |
| Framework.StepMeaning | source/Framework.cpp:123-152 | a move changes only its domain's set: add mode unions in the positive outsiders, remove mode drops the negative members; a move happens iff there is one, and then it strictly changes the set; reward-0 objects never move |
| Framework.StepKeeps | source/Framework.cpp:123-152 | a move keeps the ids, ascending sets, and objects within their domains |
| Framework.RoundKeeps | source/Framework.cpp:90-95 | a round keeps the ids, ascending sets, and objects within their domains |
| Framework.RoundQuiet | source/Framework.cpp:90-95 | a round reports no change iff no player had a move |
| Framework.RoundUnchanged | source/Framework.cpp:90-95 | a quiet round leaves the tuple as it was |
| Framework.DealUnfold | source/Framework.cpp:78-110 | one turn of the loop: the counters and mode advance as the source's flip rules say |
| Framework.DealStops | source/Framework.cpp:78 | the loop stops when no_change_cnt reaches 2 or the 50-round budget is spent |
| Framework.LoopBudget | source/Framework.cpp:78-110 | whatever a round does, the loop ends within 50 rounds, and before the budget only on two unchanged rounds in a row |
| Framework.LoopConverged | source/Framework.cpp:103-108 | for rounds that leave the tuple alone when they report no change, stopping on two unchanged rounds means neither mode would change anything |
| Framework.DealBudget | source/Framework.cpp:64-109 | a deal plays at most 50 rounds and stops early only after two rounds in a row with no change |
| Framework.DealKeeps | source/Framework.cpp:78-110 | a deal keeps the ids, ascending sets, and objects within their domains |
| Framework.DealConverged | source/Framework.cpp:103-108 | once settled, the loop ends with one quiet add round and one quiet remove round |
| Framework.NoMoves | source/Framework.cpp:123-152 | a quiet round in a mode means no domain has a move in that mode |
| Framework.StableIsEquilibrium | source/Framework.cpp:181-212 | quiet in both modes iff no outsider has positive reward and no member negative reward |
| Framework.DealEquilibrium | source/Framework.cpp:111-119 | a deal that converges within the budget ends at an equilibrium |
| Framework.DealIdempotent | source/Framework.cpp:78-108 | a deal from an equilibrium changes nothing and converges in two rounds |
| Framework.InitialSelection | source/Framework.cpp:318-327 | set i carries id i+1 at position i and holds exactly the objects 0 .. n-1 of domain i+1, ascending |
| Framework.NoneClustered | source/Framework.cpp:221-226 | set i carries id i+1 at position i and is empty |
| Framework.InitialPools | source/Framework.cpp:318-327 | at the start every object is to be selected and nothing is clustered: the pool invariant holds |
| Framework.UpdateMovesAt | source/Framework.cpp:333-338 | per domain: selection := selection − cur and clustered := clustered ∪ cur, both ascending |
| Framework.UpdateMoves | source/Framework.cpp:331-343 | the objects of cur leave the selection for the clustered pool and nothing else moves |
| Framework.UpdateKeepsPools | source/Framework.cpp:331-343 | the pools stay disjoint, cover every object and stay in position |
| Framework.UpdateIdempotent | source/Framework.cpp:254-255 | a second update with the same cluster moves nothing |
| Framework.DomainCount | source/Framework.cpp:307 | the domain ids 1 .. N are N different ids |
| Framework.DomainsFit | source/Framework.cpp:307-308 | a tuple with a set for every domain has at least N sets, so positions 0 .. N-1 exist |
| Framework.MovedGrows | source/Framework.cpp:254-255 | clustered objects stay clustered |
| Framework.AcceptMoves | source/Framework.cpp:254-255 | the two updates keep the pool invariant, grow the clustered pool, and cluster every object of the result |
| Framework.KeepFound | source/Framework.cpp:244-256 | a pass keeps every concept found so far found, and a concept it adds is found |
| Framework.OrderCovers | source/Framework.cpp:68-71 | the shuffled order holds exactly the ids 1 .. N |
| Framework.ArtIsDomain | source/Framework.cpp:45-50 | the start domain drawn among the articulation domains is a domain |
| Framework.UnreachableBarren | source/random_sample.cpp:85-88 | when no object of s reaches the pool, every weight is 0 and sampling fails |
| Framework.PoolsCover | source/Framework.cpp:234 | the selection is a sample space for SubspaceFreqNetwork |
| Framework.Ghin.constructor | headers/Framework.h:27-34 | no concepts, tiring off, counters at 0 |
| Framework.Ghin.AddSetReward | source/Framework.cpp:181-197 | the loop yields AddedBy: the outsiders with positive reward, None when there are none |
| Framework.Ghin.RemoveSetReward | source/Framework.cpp:199-212 | the loop yields RemovedBy: the members with negative reward, None when there are none |
| Framework.Ghin.MaximizeDomain | source/Framework.cpp:123-152 | true iff a move was found; then the domain's set becomes the copy c joined with (add) or stripped of (remove) the move; otherwise nothing changes |
| Framework.Ghin.PlayRound | source/Framework.cpp:90-95 | the candidate after one round in place, and whether anything changed, as Round says |
| Framework.Ghin.MakeDeal | source/Framework.cpp:62-121 | the candidate is mutated in place to the end of Deal for a shuffled order; the result is a fresh copy with quality 1.0 iff no_change_cnt > 1 and cnt < 50; avgNashIters grows by the rounds played |
| Framework.Ghin.PlayTurn | source/Framework.cpp:91-94 | the turn of domain order[i] extends the round over order[..i] to the round over order[..i+1], keeping the ids |
| Framework.Ghin.NegotiateRound | source/Framework.cpp:79-109 | one pass of the loop: one round counted in avgNashIters; the deal still ends where it would have |
| Framework.Ghin.Negotiate | source/Framework.cpp:78-110 | the loop of MakeDeal plays exactly Deal and counts its rounds |
| Framework.Ghin.MakeInitialSampleSet | source/Framework.cpp:318-327 | a fresh cluster whose set i carries id i+1 and every object of domain i+1 |
| Framework.Ghin.FillInitialSet | source/Framework.cpp:322-324 | set i, numbered i+1, receives every object of domain i+1 and nothing else changes |
| Framework.Ghin.MoveDomain | source/Framework.cpp:333-338 | domain i+1 moves from the part of the pools still as they were to the part already updated |
| Framework.Ghin.UpdateSampleSet | source/Framework.cpp:331-343 | selection := Taken (each domain loses cur's objects), clustered := Gathered (each domain gains them) |
| Framework.Ghin.SelectEmpty | source/Framework.cpp:283-294 | true iff some domain's selection set is empty |
| Framework.Ghin.SelectRandomObjectFromSet | source/Framework.cpp:295-301 | -1 iff the set is empty; otherwise an element; a set of one gives its element without drawing |
| Framework.Ghin.CheckRepeat | source/Framework.cpp:303-316 | false with no concepts; otherwise true iff some concept has an equal set at some position j < N, or the candidate has an empty set there |
| Framework.Ghin.SelectInitRandomFreq | source/Framework.cpp:44-60 | the start domain is an articulation domain if there is one, else 1 or 2; None when nothing of it reaches the pool, and None only when the star around the start or one of its articulation neighbours failed; a seed is ascending, drawn from the pool and carries the start and its neighbours |
| Framework.Ghin.Complete | headers/core/NCluster.h:67-68 | whether every domain has a set, which GetSetById asserts |
| Framework.Ghin.Converge | source/Framework.cpp:241 | MakeDeal as GHIN_Alg calls it: the seed becomes the result's sets; quality 1.0 means an equilibrium |
| Framework.Ghin.Accept | source/Framework.cpp:244-256 | the result is appended to CONCEPTS, both updates applied; the pools keep their invariant and the new concept is recorded as found |
| Framework.Ghin.Judge | source/Framework.cpp:241-256 | accepted iff quality 1 and no repeat; a rejected result changes neither concepts nor pools |
| Framework.Ghin.Try | source/Framework.cpp:236-260 | totalCands grows by one; the deal's GetSetById assertion fails (Missing) iff the seed lacks a domain; otherwise as Judge |
| Framework.Ghin.Attempt | source/Framework.cpp:234-265 | one pass: no seed changes nothing; otherwise a candidate is counted; only an accepted one changes concepts and pools, and it is found |
| Framework.Ghin.MakeClusteredSet | source/Framework.cpp:221-226 | a fresh cluster of N empty sets with ids 1 .. N |
| Framework.Ghin.GhinAlg | source/Framework.cpp:216-275 | the pools keep their invariant; concepts only grow and every new one is an equilibrium with a set per domain, no repeat, and clustered objects; an unaborted end has an empty selection set, a spent budget, or more than 2N failed seeds in a row |

## Code and published description

Where the published description of GHIN and the code disagree, the model follows the
code.

- The walk over articulation domains is described as a breadth-first search. In the
  code (`source/random_sample.cpp:220-252`) the star around a domain already
  completes every neighbour of that domain. So the enqueue inside the loop never adds
  anything, and the walk visits only `s` and its articulation neighbours.
  `SampleNetwork.WalkOne` proves this with `SampleNetwork.PushableNone`, so
  `SampleNetwork.WalkQueue` walks exactly the domains queued before the loop.
- Because of that one-level walk, a seed can lack a set for a domain further away.
  MakeDeal's `GetSetById` then fails its assertion. The model returns the outcome
  `Missing` for such a seed (`Framework.Ghin.Try`), and `Framework.Ghin.GhinAlg`
  stops with `aborted` set. It does not go on looping.
- The duplicate test is described as "some slot is set-equal". The code
  (`source/Framework.cpp:303-316`) compares position j with position j and uses
  `Equal`, which is sequence equality. The empty-set test applies only when there is
  at least one accepted concept. `Framework.Repeats` states exactly this. On
  ascending sets, sequence equality and set equality agree (`SetOps.SortedUnique`).
- The running centre of a star sample intersects only while it is non-empty. An empty
  centre is replaced by the next prime (`source/random_sample.cpp:182-188`).
  `RandomSample.StarSoFar` records the position the centre restarted from.

## Left out

- SetOps.OpCounters: the counting wrappers model the counters of `Ops.h`, but the
  search (MakeDeal, UpdateSampleSet, Prime, the star sampler, AdjustSampleSubspace)
  calls the plain set operations. The model therefore does not track how many set
  operations a run performs, which the program reports at its end.
- The z-score rewards of `Z_Rewards` and the statistics they use are not part of this
  model. The reward is the abstract parameter `Framework.Reward`, and the weight `w`
  is fixed inside it.
- Floating point is modelled by Dafny `real`:
  - the rewards, qualities and weights are exact reals;
  - `pow(2, ·)` and the `long double` normalisation are not modelled, only which
    weights are zero and which are positive.
- RandomSample.RawWeight: the average arm length itself. The source stores 2 raised
  to that average. The two are zero for the same objects, but their normalised values
  differ.
- Randomness: `rand()` is a stream the caller supplies (`Randomness.Random`);
  `srand(time(NULL))` is the choice of that stream.
  - `random_shuffle` is any permutation the stream yields.
  - `WeightedUniformDraw` and `UniformSubsetDraw` are any draw meeting their
    contracts. They promise no probability law.
- `BinomialSubsetDraw`, `NChooseK` and the double overlap measures (`PercentOverlap`,
  `PercentOverlap_Sorensen`, `AverageOverlap`, `GreaterEqualSize`) are not modelled.
  They are not on the search path and are double-valued or have no body shown.
- `GetFreqWeights`, `GetAreaWeights`, `SubspaceFreq`, `SubspaceArea` and the 2-argument
  `GetFreqWeightsStar` are not modelled. They are floating-point weighting off the
  search path.
- `Beta`, `Context::GetDensity` and the real-valued sets, clusters and contexts are
  not modelled: they compute double statistics unused by the search.
- Printing and file I/O are not modelled: `Output`, `DispProgress`, the progress
  report in `GHIN_Alg`, the name maps, `SetName`/`SetNameMap`, command-line handling.
- Memory management is not modelled. This covers `new`/`delete`, `DstryVector`, and
  the `changedSets` clean-up that frees the wrong indexes. Clusters and sets are
  values inside their classes.
- `SelectInit` and `SelectRandomDomain` are not modelled. `GHIN_Alg` calls
  `SelectInit_RandomFreq` instead.
- `InitTiring` and `UpdateTired` are not modelled. `tired` is never read by either
  reward, so only the `tiredMode` flag is kept.
- `initCopy` in `GHIN_Alg` is never read and is not modelled.
- RelationGraphs.AddContext: a function from one graph value to the next. The graph
  is built before the search and never changes during it, so in-place update is not
  modelled.
- Contexts.SetDomainId: a function returning the updated context value, for the same
  reason.
- RelationGraphs.GetTotalNumObjs: only states that no domain has more objects than the
  total, not that the total is the sum over the domains.
- Framework.Ghin.UpdateSampleSet: takes the cluster as a tuple value. It requires both
  pools to be in position (set i carrying id i+1), as every call in `GHIN_Alg` has
  them, and the two pools to be different objects.
- Framework.Ghin.GhinAlg: the concept list holds tuple values, not shared references. The
  claim that the budget loop ends is by `decreases` on `totalIters`, not a stated
  iteration count.
