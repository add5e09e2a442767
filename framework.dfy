/**
  The game-theoretic search of source/Framework.cpp (class Ghin of headers/Framework.h).
  Every domain of the network is a player whose set in the candidate tuple is its
  move; MakeDeal lets the players in turn add every outsider with positive reward
  (add rounds) or drop every member with negative reward (remove rounds) until two
  rounds in a row change nothing, i.e. a Nash equilibrium of the reward, or the round
  budget runs out. GHIN_Alg seeds candidates from the selection pool, keeps the
  equilibria that are not repeats, and moves their objects to the clustered pool.

  The reward function RewardFunc(a, obj, domain, w, hin) is a parameter of the model,
  with the weight w and the network hin fixed for the run.
 */
module Framework {
  import opened IOSets
  import opened SetOps
  import opened NClusters
  import opened RelationGraphs
  import opened Randomness
  import opened Wrappers
  import opened SampleNetwork
  import opened RandomSample
  import Contexts

  /** RewardFunc(a, obj, domain, w, hin) with w and hin fixed. */
  type Reward = (Tuple, nat, int) -> real

  /** max_iters of MakeDeal: the budget of rounds. */
  const MaxIters: nat := 50

  /** The domain ids 1 .. n in order: the order vector of MakeDeal before it is shuffled. */
  function Domains(n: nat): (r: seq<nat>)
    ensures |r| == n && forall i :: 0 <= i < n ==> r[i] == i + 1
    ensures forall d: int :: d in r <==> 1 <= d <= n
  {
    var r := seq(n, i requires 0 <= i => i + 1);
    assert forall d: int :: 1 <= d <= n ==> d in r by {
      forall d: int | 1 <= d <= n ensures d in r {
        assert r[d - 1] == d;
      }
    }
    r
  }

  // ---------------------------------------------------------------------------
  // AddSet_Reward, RemoveSet_Reward, MaximizeDomain
  // ---------------------------------------------------------------------------

  /** The test of a mode: a positive reward when adding, a negative one when removing. */
  predicate Wants(r: real, add: bool)
  {
    if add then r > 0.0 else r < 0.0
  }

  /** The elements of xs whose reward in a for domain passes the test of the mode, in order. */
  function Rewarded(xs: seq<nat>, a: Tuple, domain: int, reward: Reward, add: bool): (r: seq<nat>)
    ensures forall x :: x in r <==> x in xs && Wants(reward(a, x, domain), add)
    ensures Sorted(xs) ==> Sorted(r)
  {
    if xs == [] then
      []
    else
      var front := xs[..|xs| - 1];
      var last := xs[|xs| - 1];
      assert forall x :: x in xs <==> x in front || x == last;
      var r := Rewarded(front, a, domain, reward, add);
      assert Sorted(xs) ==> Sorted(r + [last]) by {
        if Sorted(xs) {
          forall y | y in r ensures y < last {
            var k :| 0 <= k < |front| && front[k] == y;
          }
          SortedSnoc(r, last);
        }
      }
      r + (if Wants(reward(a, last, domain), add) then [last] else [])
  }

  /** Scanning one more element appends it exactly when its reward passes the test. */
  lemma RewardedStep(xs: seq<nat>, i: nat, a: Tuple, domain: int, reward: Reward, add: bool)
    requires i < |xs|
    ensures Rewarded(xs[..i + 1], a, domain, reward, add) ==
              Rewarded(xs[..i], a, domain, reward, add) + (if Wants(reward(a, xs[i], domain), add) then [xs[i]] else [])
  {
    assert xs[..i + 1][..i] == xs[..i];
  }

  /** The objects of domain outside a's set for it (GetLabels(domain) minus that set). */
  function Outsiders(g: RelationGraph, a: Tuple, domain: int): seq<nat>
  {
    Difference(GetLabels(g, domain), Slot(a, domain))
  }

  lemma OutsidersMeaning(g: RelationGraph, a: Tuple, domain: int)
    requires Sorted(Slot(a, domain))
    ensures Sorted(Outsiders(g, a, domain))
    ensures forall x: nat :: x in Outsiders(g, a, domain) <==> x < NumObjsInDomain(g, domain) && x !in Slot(a, domain)
  {
  }

  /** AddSet_Reward(a, domain) as a value: the outsiders with positive reward, None when there are none. */
  function AddedBy(g: RelationGraph, a: Tuple, domain: int, reward: Reward): Option<seq<nat>>
  {
    var add := Rewarded(Outsiders(g, a, domain), a, domain, reward, true);
    if |add| > 0 then Some(add) else None
  }

  /** RemoveSet_Reward(a, domain) as a value: the members with negative reward, None when there are none. */
  function RemovedBy(a: Tuple, domain: int, reward: Reward): Option<seq<nat>>
  {
    var remove := Rewarded(Slot(a, domain), a, domain, reward, false);
    if |remove| > 0 then Some(remove) else None
  }

  /**
    What AddSet_Reward answers on an ascending set: exactly the objects of the domain
    outside the set whose reward is positive, and None when no outsider has one.
   */
  lemma AddedByMeaning(g: RelationGraph, a: Tuple, domain: int, reward: Reward)
    requires Sorted(Slot(a, domain))
    ensures AddedBy(g, a, domain, reward).None? <==>
              forall x: nat :: x < NumObjsInDomain(g, domain) && x !in Slot(a, domain) ==> reward(a, x, domain) <= 0.0
    ensures AddedBy(g, a, domain, reward).Some? ==>
              Sorted(AddedBy(g, a, domain, reward).value) &&
              forall x: nat :: x in AddedBy(g, a, domain, reward).value <==>
                x < NumObjsInDomain(g, domain) && x !in Slot(a, domain) && reward(a, x, domain) > 0.0
  {
    OutsidersMeaning(g, a, domain);
    var add := Rewarded(Outsiders(g, a, domain), a, domain, reward, true);
    if |add| > 0 {
      assert add[0] in add;
    }
  }

  /**
    What RemoveSet_Reward answers: exactly the members whose reward is negative, and
    None when no member has one.
   */
  lemma RemovedByMeaning(a: Tuple, domain: int, reward: Reward)
    ensures RemovedBy(a, domain, reward).None? <==> forall x :: x in Slot(a, domain) ==> reward(a, x, domain) >= 0.0
    ensures RemovedBy(a, domain, reward).Some? ==>
              (Sorted(Slot(a, domain)) ==> Sorted(RemovedBy(a, domain, reward).value)) &&
              forall x :: x in RemovedBy(a, domain, reward).value <==> x in Slot(a, domain) && reward(a, x, domain) < 0.0
  {
    var remove := Rewarded(Slot(a, domain), a, domain, reward, false);
    if |remove| > 0 {
      assert remove[0] in remove;
    }
  }

  /** The set carrying id replaced by one with the same id and the given elements (AssignSetById). */
  function Assign(t: Tuple, id: int, items: seq<nat>): Tuple
  {
    if HasId(t, id) then t[IndexOfId(t, id) := ObjSet(id, items)] else t
  }

  /** Assign changes the set of id only. */
  lemma AssignSlots(t: Tuple, id: int, items: seq<nat>)
    requires HasId(t, id)
    ensures Ids(Assign(t, id, items)) == Ids(t)
    ensures forall x :: HasId(Assign(t, id, items), x) <==> HasId(t, x)
    ensures forall e :: Slot(Assign(t, id, items), e) == if e == id then items else Slot(t, e)
  {
    var r := Assign(t, id, items);
    ReplaceKeepsIds(t, id, ObjSet(id, items));
    forall e ensures Slot(r, e) == if e == id then items else Slot(t, e) {
      if HasId(t, e) {
        IndexOfIdByIds(r, t, e);
      }
    }
  }

  /**
    MaximizeDomain(a, c, domain, add) as a value: the new set of domain, made from c
    (the copy of that set taken before the call), or None when nothing moves.
   */
  function Maximized(g: RelationGraph, a: Tuple, c: seq<nat>, domain: int, add: bool, reward: Reward): Option<seq<nat>>
  {
    if add then
      match AddedBy(g, a, domain, reward)
      case None => None
      case Some(s) => Some(Union(c, s))
    else
      match RemovedBy(a, domain, reward)
      case None => None
      case Some(s) => Some(Difference(c, s))
  }

  /** One player's move within a round: MaximizeDomain on the current tuple with a copy of its set. */
  function Step(g: RelationGraph, t: Tuple, domain: int, add: bool, reward: Reward): (Tuple, bool)
  {
    match Maximized(g, t, Slot(t, domain), domain, add, reward)
    case None => (t, false)
    case Some(s) => (Assign(t, domain, s), true)
  }

  /**
    The move of one player: in add mode its set grows by exactly the outsiders with
    positive reward, in remove mode it loses exactly the members with negative reward;
    a move that happens always changes the set, the objects with reward zero never
    move, and no other player's set changes.
   */
  lemma StepMeaning(g: RelationGraph, t: Tuple, domain: int, add: bool, reward: Reward)
    requires HasId(t, domain) && Sorted(Slot(t, domain))
    ensures var (r, changed) := Step(g, t, domain, add, reward);
            && Ids(r) == Ids(t)
            && (forall e :: e != domain ==> Slot(r, e) == Slot(t, e))
            && Sorted(Slot(r, domain))
            && (add ==> forall x: nat :: x in Slot(r, domain) <==>
                  x in Slot(t, domain) || (x < NumObjsInDomain(g, domain) && reward(t, x, domain) > 0.0))
            && (!add ==> forall x: nat :: x in Slot(r, domain) <==> x in Slot(t, domain) && reward(t, x, domain) >= 0.0)
            && (changed <==> Slot(r, domain) != Slot(t, domain))
            && (forall x: nat :: reward(t, x, domain) == 0.0 ==> (x in Slot(r, domain) <==> x in Slot(t, domain)))
  {
    var c := Slot(t, domain);
    AddedByMeaning(g, t, domain, reward);
    RemovedByMeaning(t, domain, reward);
    match Maximized(g, t, c, domain, add, reward)
    case None =>
    case Some(s) =>
      AssignSlots(t, domain, s);
      if add {
        var added := AddedBy(g, t, domain, reward).value;
        assert added[0] in added && added[0] in s && added[0] !in c;
      } else {
        var removed := RemovedBy(t, domain, reward).value;
        assert removed[0] in removed && removed[0] in c && removed[0] !in s;
      }
  }

  /** A move keeps the ids, ascending sets, and objects within their domains. */
  lemma StepKeeps(g: RelationGraph, t: Tuple, domain: int, add: bool, reward: Reward)
    requires HasId(t, domain)
    ensures Ids(Step(g, t, domain, add, reward).0) == Ids(t)
    ensures AllSorted(t) ==> AllSorted(Step(g, t, domain, add, reward).0)
    ensures InRange(g, t) ==> InRange(g, Step(g, t, domain, add, reward).0)
  {
    match Maximized(g, t, Slot(t, domain), domain, add, reward)
    case None =>
    case Some(s) =>
      AssignSlots(t, domain, s);
      AssignKeeps(g, t, domain, s);
      MaximizedKeeps(g, t, domain, add, reward, s);
      if AllSorted(t) {
        SlotSorted(t, domain);
      }
      if InRange(g, t) {
        SlotInRange(g, t, domain);
      }
  }

  /** The set a move gives its player is ascending when the old one was, and within the player's domain when the old one was. */
  lemma MaximizedKeeps(g: RelationGraph, t: Tuple, domain: int, add: bool, reward: Reward, s: seq<nat>)
    requires Maximized(g, t, Slot(t, domain), domain, add, reward) == Some(s)
    ensures Sorted(Slot(t, domain)) ==> Sorted(s)
    ensures (forall x :: x in Slot(t, domain) ==> x < NumObjsInDomain(g, domain)) ==>
              forall x :: x in s ==> x < NumObjsInDomain(g, domain)
  {
    if Sorted(Slot(t, domain)) {
      OutsidersMeaning(g, t, domain);
    }
    if add {
      assert forall x :: x in s ==> x in Slot(t, domain) || x in Outsiders(g, t, domain);
    }
  }

  /** Every object of the set of d in a tuple within range is an object of d. */
  lemma SlotInRange(g: RelationGraph, t: Tuple, d: int)
    requires InRange(g, t)
    ensures forall x :: x in Slot(t, d) ==> x < NumObjsInDomain(g, d)
  {
    if HasId(t, d) {
      assert SetById(t, d) == t[IndexOfId(t, d)];
    }
  }

  /** Giving the set of id ascending items within its domain keeps AllSorted and InRange. */
  lemma AssignKeeps(g: RelationGraph, t: Tuple, id: int, items: seq<nat>)
    requires HasId(t, id)
    ensures AllSorted(t) && Sorted(items) ==> AllSorted(Assign(t, id, items))
    ensures InRange(g, t) && (forall x :: x in items ==> x < NumObjsInDomain(g, id)) ==>
              InRange(g, Assign(t, id, items))
  {
    var k := IndexOfId(t, id);
    var r := Assign(t, id, items);
    assert r == t[k := ObjSet(id, items)];
    assert forall i :: 0 <= i < |r| && i != k ==> r[i] == t[i];
  }

  /** Every object of a set of t is an object of that set's domain. */
  predicate InRange(g: RelationGraph, t: Tuple)
  {
    forall i, x :: 0 <= i < |t| && x in t[i].items ==> x < NumObjsInDomain(g, t[i].id)
  }

  // ---------------------------------------------------------------------------
  // Rounds and the deal loop of MakeDeal
  // ---------------------------------------------------------------------------

  /**
    One round of MakeDeal: the players move one after another in the given order, each
    on the tuple left by the players before it. The flag tells whether any move happened.
   */
  function Round(g: RelationGraph, t: Tuple, order: seq<nat>, add: bool, reward: Reward): (Tuple, bool)
  {
    if order == [] then
      (t, false)
    else
      var (t1, c1) := Round(g, t, order[..|order| - 1], add, reward);
      var (t2, c2) := Step(g, t1, order[|order| - 1], add, reward);
      (t2, c1 || c2)
  }

  /** The round over a longer prefix of the order is one more move. */
  lemma RoundPrefix(g: RelationGraph, t: Tuple, order: seq<nat>, i: nat, add: bool, reward: Reward)
    requires i < |order|
    ensures var (t1, c1) := Round(g, t, order[..i], add, reward);
            var (t2, c2) := Step(g, t1, order[i], add, reward);
            Round(g, t, order[..i + 1], add, reward) == (t2, c1 || c2)
  {
    assert order[..i + 1][..i] == order[..i];
  }

  /** A round keeps the ids, ascending sets, and objects within their domains. */
  lemma {:induction false} RoundKeeps(g: RelationGraph, t: Tuple, order: seq<nat>, add: bool, reward: Reward)
    requires forall d :: d in order ==> HasId(t, d)
    ensures Ids(Round(g, t, order, add, reward).0) == Ids(t)
    ensures AllSorted(t) ==> AllSorted(Round(g, t, order, add, reward).0)
    ensures InRange(g, t) ==> InRange(g, Round(g, t, order, add, reward).0)
  {
    if order != [] {
      var front := order[..|order| - 1];
      RoundKeeps(g, t, front, add, reward);
      var t1 := Round(g, t, front, add, reward).0;
      var d := order[|order| - 1];
      assert HasId(t, d);
      IndexOfIdByIds(t1, t, d);
      StepKeeps(g, t1, d, add, reward);
    }
  }

  /**
    A round changes nothing exactly when no player in it has a move on the tuple it
    started from.
   */
  lemma {:induction false} RoundQuiet(g: RelationGraph, t: Tuple, order: seq<nat>, add: bool, reward: Reward)
    ensures !Round(g, t, order, add, reward).1 <==>
              forall d :: d in order ==> Maximized(g, t, Slot(t, d), d, add, reward).None?
  {
    if order != [] {
      var front := order[..|order| - 1];
      var d := order[|order| - 1];
      assert forall e :: e in order <==> e in front || e == d;
      RoundQuiet(g, t, front, add, reward);
      RoundUnchanged(g, t, front, add, reward);
    }
  }

  /** A round that changes nothing leaves the tuple as it was. */
  lemma {:induction false} RoundUnchanged(g: RelationGraph, t: Tuple, order: seq<nat>, add: bool, reward: Reward)
    ensures !Round(g, t, order, add, reward).1 ==> Round(g, t, order, add, reward).0 == t
  {
    if order != [] {
      RoundUnchanged(g, t, order[..|order| - 1], add, reward);
    }
  }

  /** What one pass of GHIN_Alg's loop came to. */
  datatype Outcome =
    | NoSample   // SelectInit_RandomFreq returned no candidate
    | Missing    // the candidate lacks a domain: GetSetById's assertion fails in MakeDeal
    | Rejected   // no equilibrium within the budget, or a repeat
    | Accepted   // a new concept

  /** The state of MakeDeal between rounds: the candidate, cnt, no_change_cnt and add. */
  datatype DealState = DealState(t: Tuple, cnt: nat, noChange: nat, add: bool)

  /**
    The loop of MakeDeal from a given state, for any round function play: while
    no_change_cnt < 2 and cnt < max_iters a round is played; a round that changes
    something resets no_change_cnt and keeps the mode, one that changes nothing counts
    and flips the mode.
   */
  function Loop(play: (Tuple, bool) -> (Tuple, bool), t: Tuple, cnt: nat, noChange: nat, add: bool): DealState
    decreases MaxIters - cnt
  {
    if noChange < 2 && cnt < MaxIters then
      var next := play(t, add);
      Loop(play, next.0, cnt + 1, if next.1 then 0 else noChange + 1, if next.1 then add else !add)
    else
      DealState(t, cnt, noChange, add)
  }

  /** The loop of MakeDeal, whose rounds are those of Round over the playing order. */
  function Deal(g: RelationGraph, t: Tuple, order: seq<nat>, reward: Reward, cnt: nat, noChange: nat, add: bool): DealState
  {
    Loop((u, a) => Round(g, u, order, a, reward), t, cnt, noChange, add)
  }

  /** One turn of the loop of Deal. */
  lemma DealUnfold(g: RelationGraph, t: Tuple, order: seq<nat>, reward: Reward, cnt: nat, noChange: nat, add: bool,
                   t1: Tuple, change: bool, cnt1: nat, noChange1: nat, add1: bool)
    requires noChange < 2 && cnt < MaxIters && (t1, change) == Round(g, t, order, add, reward)
    requires cnt1 == cnt + 1 && noChange1 == (if change then 0 else noChange + 1) && add1 == (if change then add else !add)
    ensures Deal(g, t, order, reward, cnt, noChange, add) == Deal(g, t1, order, reward, cnt1, noChange1, add1)
  {
  }

  /** The loop has stopped. */
  lemma DealStops(g: RelationGraph, t: Tuple, order: seq<nat>, reward: Reward, cnt: nat, noChange: nat, add: bool)
    requires !(noChange < 2 && cnt < MaxIters)
    ensures Deal(g, t, order, reward, cnt, noChange, add) == DealState(t, cnt, noChange, add)
  {
  }

  /**
    The budget: from a fresh start the loop plays at most max_iters rounds, and it
    stops before the budget is spent only after two rounds in a row changed nothing.
   */
  lemma DealBudget(g: RelationGraph, t: Tuple, order: seq<nat>, reward: Reward, cnt: nat, noChange: nat, add: bool)
    requires cnt <= MaxIters && noChange <= 2
    ensures var r := Deal(g, t, order, reward, cnt, noChange, add);
            cnt <= r.cnt <= MaxIters && r.noChange <= 2 && (r.cnt < MaxIters ==> r.noChange == 2)
  {
    LoopBudget((u, a) => Round(g, u, order, a, reward), t, cnt, noChange, add);
  }

  /** The budget holds for the loop whatever its rounds do. */
  lemma {:induction false} LoopBudget(play: (Tuple, bool) -> (Tuple, bool), t: Tuple, cnt: nat, noChange: nat, add: bool)
    requires cnt <= MaxIters && noChange <= 2
    decreases MaxIters - cnt
    ensures var r := Loop(play, t, cnt, noChange, add);
            cnt <= r.cnt <= MaxIters && r.noChange <= 2 && (r.cnt < MaxIters ==> r.noChange == 2)
  {
    if noChange < 2 && cnt < MaxIters {
      var next := play(t, add);
      LoopBudget(play, next.0, cnt + 1, if next.1 then 0 else noChange + 1, if next.1 then add else !add);
    }
  }

  /** The loop keeps the ids, ascending sets, and objects within their domains. */
  lemma {:induction false} DealKeeps(g: RelationGraph, t: Tuple, order: seq<nat>, reward: Reward,
                                     cnt: nat, noChange: nat, add: bool)
    requires forall d :: d in order ==> HasId(t, d)
    decreases MaxIters - cnt
    ensures var r := Deal(g, t, order, reward, cnt, noChange, add);
            Ids(r.t) == Ids(t) && (AllSorted(t) ==> AllSorted(r.t)) && (InRange(g, t) ==> InRange(g, r.t))
  {
    if noChange < 2 && cnt < MaxIters {
      var (t1, change) := Round(g, t, order, add, reward);
      var noChange1 := if change then 0 else noChange + 1;
      var add1 := if change then add else !add;
      DealUnfold(g, t, order, reward, cnt, noChange, add, t1, change, cnt + 1, noChange1, add1);
      RoundKeeps(g, t, order, add, reward);
      forall d | d in order ensures HasId(t1, d) {
        IndexOfIdByIds(t1, t, d);
      }
      DealKeeps(g, t1, order, reward, cnt + 1, noChange1, add1);
    } else {
      DealStops(g, t, order, reward, cnt, noChange, add);
    }
  }

  /**
    What the counter of unchanged rounds records: after one unchanged round, a round in
    the other mode (the one just played) changes nothing; after two, neither mode does.
   */
  predicate Settled(g: RelationGraph, t: Tuple, order: seq<nat>, reward: Reward, noChange: nat, add: bool)
  {
    && (noChange >= 1 ==> !Round(g, t, order, !add, reward).1)
    && (noChange >= 2 ==> !Round(g, t, order, add, reward).1)
  }

  /**
    When the loop stops on two unchanged rounds, the tuple is stable under a whole add
    round and under a whole remove round.
   */
  lemma DealConverged(g: RelationGraph, t: Tuple, order: seq<nat>, reward: Reward, cnt: nat, noChange: nat, add: bool)
    requires Settled(g, t, order, reward, noChange, add)
    ensures var r := Deal(g, t, order, reward, cnt, noChange, add);
            r.noChange >= 2 ==> !Round(g, r.t, order, true, reward).1 && !Round(g, r.t, order, false, reward).1
  {
    var play := (u: Tuple, a: bool) => Round(g, u, order, a, reward);
    forall u, a | !play(u, a).1 ensures play(u, a).0 == u {
      RoundUnchanged(g, u, order, a, reward);
    }
    LoopConverged(play, t, cnt, noChange, add);
  }

  /** A round function that leaves the tuple as it was whenever it reports no change. */
  ghost predicate QuietKeeps(play: (Tuple, bool) -> (Tuple, bool))
  {
    forall u, a :: !play(u, a).1 ==> play(u, a).0 == u
  }

  /**
    The counter of unchanged rounds, for any round function that leaves the tuple alone
    when it reports no change: when it stops on two unchanged rounds, neither mode changes
    anything.
   */
  lemma {:induction false} LoopConverged(play: (Tuple, bool) -> (Tuple, bool), t: Tuple, cnt: nat, noChange: nat, add: bool)
    requires QuietKeeps(play)
    requires noChange >= 1 ==> !play(t, !add).1
    requires noChange >= 2 ==> !play(t, add).1
    decreases MaxIters - cnt
    ensures var r := Loop(play, t, cnt, noChange, add);
            r.noChange >= 2 ==> !play(r.t, true).1 && !play(r.t, false).1
  {
    if noChange < 2 && cnt < MaxIters {
      var next := play(t, add);
      LoopConverged(play, next.0, cnt + 1, if next.1 then 0 else noChange + 1, if next.1 then add else !add);
    }
  }

  /**
    A Nash equilibrium of the reward over the domains 1 .. n: no object outside a
    player's set has a positive reward and no member has a negative one.
   */
  ghost predicate Equilibrium(g: RelationGraph, t: Tuple, n: nat, reward: Reward)
  {
    forall d :: 1 <= d <= n ==>
      && (forall x: nat :: x < NumObjsInDomain(g, d) && x !in Slot(t, d) ==> reward(t, x, d) <= 0.0)
      && (forall x :: x in Slot(t, d) ==> reward(t, x, d) >= 0.0)
  }

  /** No player has a move in the given mode. */
  lemma NoMoves(g: RelationGraph, t: Tuple, order: seq<nat>, n: nat, add: bool, reward: Reward)
    requires AllSorted(t) && forall d: int :: d in order <==> 1 <= d <= n
    ensures !Round(g, t, order, add, reward).1 <==>
              forall d :: 1 <= d <= n ==>
                if add then forall x: nat :: x < NumObjsInDomain(g, d) && x !in Slot(t, d) ==> reward(t, x, d) <= 0.0
                else forall x :: x in Slot(t, d) ==> reward(t, x, d) >= 0.0
  {
    RoundQuiet(g, t, order, add, reward);
    forall d | 1 <= d <= n
      ensures Maximized(g, t, Slot(t, d), d, add, reward).None? <==>
                if add then forall x: nat :: x < NumObjsInDomain(g, d) && x !in Slot(t, d) ==> reward(t, x, d) <= 0.0
                else forall x :: x in Slot(t, d) ==> reward(t, x, d) >= 0.0
    {
      if HasId(t, d) {
        assert Sorted(Slot(t, d)) by {
          assert SetById(t, d) == t[IndexOfId(t, d)];
        }
      }
      AddedByMeaning(g, t, d, reward);
      RemovedByMeaning(t, d, reward);
    }
  }

  /**
    The fixed points of MakeDeal are the equilibria: a tuple is stable under an add
    round and a remove round, in any order covering the domains, iff it is an
    equilibrium of the reward.
   */
  lemma StableIsEquilibrium(g: RelationGraph, t: Tuple, order: seq<nat>, n: nat, reward: Reward)
    requires AllSorted(t) && forall d: int :: d in order <==> 1 <= d <= n
    ensures !Round(g, t, order, true, reward).1 && !Round(g, t, order, false, reward).1 <==> Equilibrium(g, t, n, reward)
  {
    NoMoves(g, t, order, n, true, reward);
    NoMoves(g, t, order, n, false, reward);
  }

  /**
    MakeDeal from a fresh start: when the loop converges within the budget (quality
    1.0) the candidate it leaves is an equilibrium of the reward.
   */
  lemma DealEquilibrium(g: RelationGraph, t: Tuple, order: seq<nat>, n: nat, reward: Reward)
    requires AllSorted(t) && (forall d: int :: d in order <==> 1 <= d <= n) && forall d :: d in order ==> HasId(t, d)
    ensures var r := Deal(g, t, order, reward, 0, 0, true);
            r.noChange > 1 && r.cnt < MaxIters ==> Equilibrium(g, r.t, n, reward)
  {
    var r := Deal(g, t, order, reward, 0, 0, true);
    DealConverged(g, t, order, reward, 0, 0, true);
    DealKeeps(g, t, order, reward, 0, 0, true);
    StableIsEquilibrium(g, r.t, order, n, reward);
  }

  /**
    Rerunning MakeDeal on an equilibrium changes nothing: one unchanged add round, one
    unchanged remove round, and the loop stops after two rounds with quality 1.0.
   */
  lemma DealIdempotent(g: RelationGraph, t: Tuple, order: seq<nat>, n: nat, reward: Reward)
    requires AllSorted(t) && (forall d: int :: d in order <==> 1 <= d <= n) && Equilibrium(g, t, n, reward)
    ensures Deal(g, t, order, reward, 0, 0, true) == DealState(t, 2, 2, true)
  {
    StableIsEquilibrium(g, t, order, n, reward);
    RoundUnchanged(g, t, order, true, reward);
    RoundUnchanged(g, t, order, false, reward);
  }

  /** An element of a permutation of the domain ids is a domain id. */
  lemma InOrder(order: seq<nat>, n: nat, i: nat)
    requires multiset(order) == multiset(Domains(n)) && i < |order|
    ensures 1 <= order[i] <= n
  {
    assert order[i] in multiset(order);
    assert order[i] in Domains(n);
  }

  /** Tuples with the same ids carry the same ids. */
  lemma SameIds(t: Tuple, u: Tuple)
    requires Ids(t) == Ids(u)
    ensures forall d :: HasId(t, d) <==> HasId(u, d)
  {
    forall d ensures HasId(t, d) <==> HasId(u, d) {
      IndexOfIdByIds(t, u, d);
    }
  }

  /** Every domain 1 .. n has a set in t. */
  predicate HasDomains(t: Tuple, n: nat)
  {
    forall d :: 1 <= d <= n ==> HasId(t, d)
  }

  /** Every domain of a playing order has a set in a tuple with the ids of one that has all the domains. */
  lemma OrderPresent(t: Tuple, t0: Tuple, order: seq<nat>, n: nat)
    requires Ids(t) == Ids(t0) && multiset(order) == multiset(Domains(n)) && HasDomains(t0, n)
    ensures forall k :: 0 <= k < |order| ==> HasId(t, order[k])
  {
    SameIds(t, t0);
    forall k | 0 <= k < |order| ensures HasId(t, order[k]) {
      InOrder(order, n, k);
    }
  }

  /** Sets present in t0 are present in a tuple with the same ids. */
  lemma PresentByIds(t: Tuple, t0: Tuple, order: seq<nat>)
    requires Ids(t) == Ids(t0) && forall k :: 0 <= k < |order| ==> HasId(t0, order[k])
    ensures forall k :: 0 <= k < |order| ==> HasId(t, order[k])
  {
    SameIds(t, t0);
  }

  // ---------------------------------------------------------------------------
  // The selection and clustered pools of GHIN_Alg
  // ---------------------------------------------------------------------------

  /** The sets of t are the domains 1 .. n at positions 0 .. n-1, as NCluster(n) with SetId(i+1) leaves them. */
  predicate Positional(t: Tuple, n: nat)
  {
    |t| == n && forall i :: 0 <= i < n ==> t[i].id == i + 1
  }

  /** In a positional tuple the set of domain d sits at position d - 1. */
  lemma PositionalSlot(t: Tuple, n: nat, d: int)
    requires Positional(t, n) && 1 <= d <= n
    ensures HasId(t, d) && IndexOfId(t, d) == d - 1 && Slot(t, d) == t[d - 1].items
  {
    assert t[d - 1].id == d;
  }

  /**
    Part way through UpdateSampleSet: the first i sets already updated, the rest as
    they were; the set of domain i+1 is still found at position i.
   */
  lemma PositionalStep(done: Tuple, rest: Tuple, i: nat, n: nat)
    requires Positional(rest, n) && |done| == n && i < n
    requires forall k :: 0 <= k < n ==> done[k].id == k + 1
    ensures Positional(done[..i] + rest[i..], n)
    ensures IndexOfId(done[..i] + rest[i..], i + 1) == i
    ensures Slot(done[..i] + rest[i..], i + 1) == rest[i].items
  {
    PositionalSlot(done[..i] + rest[i..], n, i + 1);
  }

  /** One more position of a tuple taken over from another. */
  lemma Splice(done: Tuple, rest: Tuple, i: nat)
    requires i < |done| == |rest|
    ensures (done[..i] + rest[i..])[i := done[i]] == done[..i + 1] + rest[i + 1..]
  {
  }

  /** Every position taken over. */
  lemma SpliceDone(done: Tuple, rest: Tuple)
    requires |done| == |rest|
    ensures done[..|done|] + rest[|rest|..] == done
  {
  }

  /** The first i sets carry ids 1 .. i, so domain i+1's set at position i is the first with its id. */
  lemma FirstAt(t: Tuple, i: nat)
    requires NumberedTo(t, i)
    ensures IndexOfId(t, i + 1) == i
  {
  }

  /** The first j+1 objects are the first j followed by object j. */
  lemma RangeSnoc(j: nat)
    ensures Contexts.Range(j) + [j] == Contexts.Range(j + 1)
  {
  }

  /** The sets at positions 0 .. i carry ids 1 .. i+1. */
  predicate NumberedTo(t: Tuple, i: nat)
  {
    i < |t| && t[i].id == i + 1 && forall k :: 0 <= k < i ==> t[k].id == k + 1
  }

  /** Replacing set i by another numbered i+1 keeps positions 0 .. i numbered. */
  lemma NumberedToUpdate(t: Tuple, i: nat, a: ObjSet)
    requires NumberedTo(t, i) && a.id == i + 1
    ensures NumberedTo(t[i := a], i)
  {
  }

  /** A positional tuple spliced in front of another, with set i renumbered, is numbered up to i. */
  lemma NumberedToSplice(full: Tuple, blank: Tuple, i: nat, n: nat)
    requires Positional(full, n) && |blank| == n && i < n
    ensures NumberedTo((full[..i] + blank[i..])[i := ObjSet(i + 1, blank[i].items)], i)
  {
  }

  /** A positional tuple has every domain 1 .. n. */
  lemma PositionalDomains(t: Tuple, n: nat)
    requires Positional(t, n)
    ensures HasDomains(t, n)
  {
    forall d | 1 <= d <= n ensures HasId(t, d) {
      PositionalSlot(t, n, d);
    }
  }

  /** MakeInitialSampleSet as a value: every object of every domain is still to be selected. */
  function InitialSelection(g: RelationGraph): (r: Tuple)
    ensures Positional(r, GetNumNodes(g)) && AllSorted(r)
    ensures forall i, x: int :: 0 <= i < |r| ==> (x in r[i].items <==> 0 <= x < NumObjsInDomain(g, i + 1))
  {
    seq(GetNumNodes(g), i requires 0 <= i => ObjSet(i + 1, GetLabels(g, i + 1)))
  }

  /** The clustered pool GHIN_Alg starts with: an empty set for every domain. */
  function NoneClustered(n: nat): (r: Tuple)
    ensures Positional(r, n)
    ensures forall i :: 0 <= i < n ==> r[i].items == []
  {
    seq(n, i requires 0 <= i => ObjSet(i + 1, []))
  }

  /**
    The invariant of the two pools of GHIN_Alg: both hold the domains in position, with
    ascending sets; every object of a domain is in exactly one of the selection set and
    the clustered set of that domain, and the selection holds objects of the domain only.
   */
  ghost predicate Pools(g: RelationGraph, sel: Tuple, clu: Tuple)
  {
    var n := GetNumNodes(g);
    && Positional(sel, n) && Positional(clu, n)
    && AllSorted(sel) && AllSorted(clu)
    && (forall i, x :: 0 <= i < n && x in sel[i].items ==> x < NumObjsInDomain(g, i + 1) && x !in clu[i].items)
    && (forall i, x: nat :: 0 <= i < n && x < NumObjsInDomain(g, i + 1) ==> x in sel[i].items || x in clu[i].items)
  }

  /** At the start everything is to be selected and nothing is clustered. */
  lemma InitialPools(g: RelationGraph)
    ensures Pools(g, InitialSelection(g), NoneClustered(GetNumNodes(g)))
  {
  }

  /** UpdateSampleSet's new selection: every domain loses the objects of cur. */
  function Taken(sel: Tuple, cur: Tuple): (r: Tuple)
    ensures |r| == |sel|
  {
    seq(|sel|, i requires 0 <= i < |sel| => ObjSet(i + 1, Difference(sel[i].items, Slot(cur, i + 1))))
  }

  /** UpdateSampleSet's new clustered pool: every domain gains the objects of cur. */
  function Gathered(clu: Tuple, cur: Tuple): (r: Tuple)
    ensures |r| == |clu|
  {
    seq(|clu|, i requires 0 <= i < |clu| => ObjSet(i + 1, Union(Slot(cur, i + 1), clu[i].items)))
  }

  /** Domain i+1 of a positional selection pool, with the first i domains already taken: where it sits, and the pool once it is taken too. */
  lemma TakenStep(sel: Tuple, cur: Tuple, i: nat, n: nat)
    requires Positional(sel, n) && i < n
    ensures var t := Taken(sel, cur)[..i] + sel[i..];
            HasId(t, i + 1) && IndexOfId(t, i + 1) == i && SetById(t, i + 1) == sel[i] &&
            t[i := ObjSet(i + 1, Difference(sel[i].items, Slot(cur, i + 1)))] == Taken(sel, cur)[..i + 1] + sel[i + 1..]
  {
    var r := Taken(sel, cur);
    assert forall k :: 0 <= k < n ==> r[k].id == k + 1;
    PositionalStep(r, sel, i, n);
    Splice(r, sel, i);
  }

  /** Domain i+1 of a positional clustered pool, with the first i domains already gathered: where it sits, and the pool once it is gathered too. */
  lemma GatheredStep(clu: Tuple, cur: Tuple, i: nat, n: nat)
    requires Positional(clu, n) && i < n
    ensures var t := Gathered(clu, cur)[..i] + clu[i..];
            HasId(t, i + 1) && IndexOfId(t, i + 1) == i && SetById(t, i + 1) == clu[i] &&
            t[i := ObjSet(i + 1, Union(Slot(cur, i + 1), clu[i].items))] == Gathered(clu, cur)[..i + 1] + clu[i + 1..]
  {
    var r := Gathered(clu, cur);
    assert forall k :: 0 <= k < n ==> r[k].id == k + 1;
    PositionalStep(r, clu, i, n);
    Splice(r, clu, i);
  }

  /** The set of any domain in a tuple of ascending sets is ascending. */
  lemma SlotSorted(t: Tuple, d: int)
    requires AllSorted(t)
    ensures Sorted(Slot(t, d))
  {
    if HasId(t, d) {
      assert SetById(t, d) == t[IndexOfId(t, d)];
    }
  }

  /** The update of one domain's pair of sets. */
  lemma UpdateMovesAt(sel: Tuple, clu: Tuple, cur: Tuple, i: nat)
    requires i < |sel| && i < |clu| && Sorted(sel[i].items) && Sorted(clu[i].items) && AllSorted(cur)
    ensures Sorted(Taken(sel, cur)[i].items) && Sorted(Gathered(clu, cur)[i].items)
    ensures forall x :: x in Taken(sel, cur)[i].items <==> x in sel[i].items && x !in Slot(cur, i + 1)
    ensures forall x :: x in Gathered(clu, cur)[i].items <==> x in clu[i].items || x in Slot(cur, i + 1)
  {
    SlotSorted(cur, i + 1);
  }

  /** The objects of cur leave the selection for the clustered pool; nothing else moves. */
  lemma UpdateMoves(g: RelationGraph, sel: Tuple, clu: Tuple, cur: Tuple)
    requires Pools(g, sel, clu) && AllSorted(cur)
    ensures forall i, x :: 0 <= i < GetNumNodes(g) ==>
              && (x in Taken(sel, cur)[i].items <==> x in sel[i].items && x !in Slot(cur, i + 1))
              && (x in Gathered(clu, cur)[i].items <==> x in clu[i].items || x in Slot(cur, i + 1))
  {
    forall i | 0 <= i < GetNumNodes(g) {
      UpdateMovesAt(sel, clu, cur, i);
    }
  }

  /** UpdateSampleSet keeps the invariant of the pools. */
  lemma UpdateKeepsPools(g: RelationGraph, sel: Tuple, clu: Tuple, cur: Tuple)
    requires Pools(g, sel, clu) && AllSorted(cur)
    ensures Pools(g, Taken(sel, cur), Gathered(clu, cur))
  {
    forall i | 0 <= i < GetNumNodes(g) {
      UpdateMovesAt(sel, clu, cur, i);
    }
  }

  /**
    UpdateSampleSet is idempotent: a second update with the same cluster moves nothing.
    GHIN_Alg updates with the candidate and then with MakeDeal's copy of it, whose sets
    are the same, so the second call is such a repeat.
   */
  lemma UpdateIdempotent(g: RelationGraph, sel: Tuple, clu: Tuple, cur: Tuple)
    requires Pools(g, sel, clu) && AllSorted(cur)
    ensures Taken(Taken(sel, cur), cur) == Taken(sel, cur)
    ensures Gathered(Gathered(clu, cur), cur) == Gathered(clu, cur)
  {
    var n := GetNumNodes(g);
    forall i | 0 <= i < n ensures Taken(Taken(sel, cur), cur)[i] == Taken(sel, cur)[i] {
      UpdateMovesAt(sel, clu, cur, i);
      UpdateMovesAt(Taken(sel, cur), Gathered(clu, cur), cur, i);
      SortedUnique(Taken(Taken(sel, cur), cur)[i].items, Taken(sel, cur)[i].items);
    }
    forall i | 0 <= i < n ensures Gathered(Gathered(clu, cur), cur)[i] == Gathered(clu, cur)[i] {
      UpdateMovesAt(sel, clu, cur, i);
      UpdateMovesAt(Taken(sel, cur), Gathered(clu, cur), cur, i);
      SortedUnique(Gathered(Gathered(clu, cur), cur)[i].items, Gathered(clu, cur)[i].items);
    }
  }

  /** A tuple that has every domain 1 .. n has at least n sets. */
  lemma DomainsFit(t: Tuple, n: nat)
    requires HasDomains(t, n)
    ensures |t| >= n
  {
    DomainCount(n);
    IdsFit(t, DomainSet(n));
  }

  /** The domain ids 1 .. n as a set. */
  function DomainSet(n: nat): set<int>
  {
    set d | d in Domains(n)
  }

  /** The set of domain ids 1 .. n has n elements. */
  lemma {:induction false} DomainCount(n: nat)
    ensures |DomainSet(n)| == n
  {
    if n > 0 {
      DomainCount(n - 1);
      assert n !in DomainSet(n - 1);
      assert DomainSet(n) == DomainSet(n - 1) + {n};
    }
  }

  /** Every id of ds is carried by a set of t, so t has at least |ds| sets. */
  lemma {:induction false} IdsFit(t: Tuple, ds: set<int>)
    requires forall d :: d in ds ==> HasId(t, d)
    ensures |ds| <= |t|
  {
    if t == [] {
      forall d | d in ds ensures false {
      }
      assert ds == {};
    } else {
      var rest := ds - {t[0].id};
      forall d | d in rest ensures HasId(t[1..], d) {
        assert HasId(t, d);
        var i :| 0 <= i < |t| && t[i].id == d;
        assert t[1..][i - 1].id == d;
      }
      IdsFit(t[1..], rest);
    }
  }

  /**
    CheckRepeat's test, position by position over the first n sets: some accepted
    concept has a set equal to the candidate's at the same position, or, when there is
    any accepted concept at all, one of the candidate's sets is empty.
   */
  predicate Repeats(cs: seq<Tuple>, t: Tuple, n: nat)
  {
    exists i, j :: 0 <= i < |cs| && 0 <= j < n && j < |t| && j < |cs[i]| &&
      (t[j].items == cs[i][j].items || |t[j].items| < 1)
  }

  /** Every object of c, domain by domain, is in the clustered set of that domain. */
  predicate Moved(c: Tuple, clu: Tuple, n: nat)
  {
    forall d, x :: 1 <= d <= n && x in Slot(c, d) ==> d - 1 < |clu| && x in clu[d - 1].items
  }

  /** The clustered pool only grows. */
  predicate Grows(clu: Tuple, clu2: Tuple)
  {
    |clu| <= |clu2| && forall i, x :: 0 <= i < |clu| && x in clu[i].items ==> x in clu2[i].items
  }

  /** Moved objects stay moved while the clustered pool grows. */
  lemma MovedGrows(c: Tuple, clu: Tuple, clu2: Tuple, n: nat)
    requires Moved(c, clu, n) && Grows(clu, clu2)
    ensures Moved(c, clu2, n)
  {
  }

  /**
    What GHIN_Alg does with an accepted cluster cur: two UpdateSampleSet calls with the
    same sets. The pools keep their invariant, the clustered pool only grows, and every
    object of cur ends up clustered, hence out of the selection.
   */
  lemma AcceptMoves(g: RelationGraph, sel: Tuple, clu: Tuple, cur: Tuple)
    requires Pools(g, sel, clu) && AllSorted(cur)
    ensures var clu2 := Gathered(Gathered(clu, cur), cur);
            && Pools(g, Taken(Taken(sel, cur), cur), clu2)
            && Grows(clu, clu2) && Moved(cur, clu2, GetNumNodes(g))
  {
    var n := GetNumNodes(g);
    UpdateKeepsPools(g, sel, clu, cur);
    UpdateKeepsPools(g, Taken(sel, cur), Gathered(clu, cur), cur);
    UpdateIdempotent(g, sel, clu, cur);
    forall i | 0 <= i < n {
      UpdateMovesAt(sel, clu, cur, i);
    }
    forall d, x | 1 <= d <= n && x in Slot(cur, d) ensures x in Gathered(clu, cur)[d - 1].items {
      UpdateMovesAt(sel, clu, cur, d - 1);
    }
  }

  /**
    The record of the k-th accepted concept: it has a set for every domain, it is an
    equilibrium of the reward, it is no repeat of the concepts accepted before it, and
    its objects are clustered.
   */
  ghost predicate Found(g: RelationGraph, reward: Reward, cs: seq<Tuple>, k: nat, clu: Tuple)
    requires k < |cs|
  {
    var n := GetNumNodes(g);
    |cs[k]| >= n && Equilibrium(g, cs[k], n, reward) && !Repeats(cs[..k], cs[k], n) && Moved(cs[k], clu, n)
  }

  /**
    One pass of GHIN_Alg keeps the record: the concepts found before it stay found as
    the clustered pool grows, and a concept the pass adds is found.
   */
  lemma KeepFound(g: RelationGraph, reward: Reward, cs: seq<Tuple>, cs2: seq<Tuple>, cs0: seq<Tuple>, clu: Tuple, clu2: Tuple)
    requires |cs| >= |cs0| && cs[..|cs0|] == cs0
    requires forall k :: |cs0| <= k < |cs| ==> Found(g, reward, cs, k, clu)
    requires Grows(clu, clu2)
    requires cs2 == cs || (|cs2| == |cs| + 1 && cs2[..|cs|] == cs && Found(g, reward, cs2, |cs|, clu2))
    ensures |cs2| >= |cs0| && cs2[..|cs0|] == cs0
    ensures forall k :: |cs0| <= k < |cs2| ==> Found(g, reward, cs2, k, clu2)
  {
    forall k | |cs0| <= k < |cs2| ensures Found(g, reward, cs2, k, clu2) {
      if k < |cs| {
        assert Found(g, reward, cs, k, clu);
        assert cs2[k] == cs[k] && cs2[..k] == cs[..k];
        MovedGrows(cs[k], clu, clu2, GetNumNodes(g));
      }
    }
    if cs2 != cs {
      assert cs2[..|cs0|] == cs[..|cs|][..|cs0|];
    }
  }

  /** A permutation of the domain ids holds exactly the domain ids. */
  lemma OrderCovers(order: seq<nat>, n: nat)
    requires multiset(order) == multiset(Domains(n))
    ensures forall d: int :: d in order <==> 1 <= d <= n
  {
    forall d: int ensures d in order <==> 1 <= d <= n {
      assert d in order <==> d in multiset(order);
      assert d in Domains(n) <==> d in multiset(Domains(n));
    }
  }

  /** An articulation domain is a domain. */
  lemma ArtIsDomain(g: RelationGraph, x: int)
    requires RelationGraphs.Valid(g) && x in GetArtDomains(g)
    ensures IsDomainId(g, x) && IsArtNodeId(g, x)
  {
  }

  /**
    Some object of domain s is in the pool and reaches the pool's set of every domain
    related to s: only then can a candidate be sampled from s.
   */
  predicate Reachable(g: RelationGraph, s: int, pool: Tuple)
  {
    exists x: nat :: x < NumObjsInDomain(g, s) && x in Slot(pool, s) && AllArms(GetContexts(g, s), s, pool, x)
  }

  /** With nothing reachable, every sampling weight of s is zero. */
  lemma UnreachableBarren(g: RelationGraph, s: int, pool: Tuple)
    requires RelationGraphs.Valid(g) && AllSorted(pool) && !Reachable(g, s, pool)
    ensures forall x :: 0 <= x < NumObjsInDomain(g, s) ==> RawWeight(g, s, pool, x) == 0.0
  {
    forall x | 0 <= x < NumObjsInDomain(g, s) ensures RawWeight(g, s, pool, x) == 0.0 {
      RawWeightMeaning(g, s, pool, x);
    }
  }

  /** The selection pool is a sample space for SubspaceFreqNetwork. */
  lemma PoolsCover(g: RelationGraph, sel: Tuple, clu: Tuple)
    requires Numbered(g) && Pools(g, sel, clu)
    ensures CoversDomains(g, sel)
  {
    PositionalDomains(sel, GetNumNodes(g));
  }

  // ---------------------------------------------------------------------------
  // The Ghin object
  // ---------------------------------------------------------------------------

  class Ghin {
    /** The network being clustered. */
    const hin: RelationGraph
    /** RewardFunc with the weight w. */
    const reward: Reward
    /** CONCEPTS: the equilibria accepted so far, in the order they were found. */
    var concepts: seq<Tuple>
    var tiredMode: bool
    var totalIters: nat
    var totalCands: nat
    /** The number of rounds played over all calls of MakeDeal. */
    var avgNashIters: nat

    /** Ghin(): no concepts, counters at zero, tiring off. */
    constructor (hin: RelationGraph, reward: Reward)
      ensures this.hin == hin && this.reward == reward
      ensures concepts == [] && !tiredMode && totalIters == 0 && totalCands == 0 && avgNashIters == 0
    {
      this.hin := hin;
      this.reward := reward;
      concepts := [];
      tiredMode := false;
      totalIters, totalCands, avgNashIters := 0, 0, 0;
    }

    /** AddSet_Reward: scans the outsiders of domain in a, keeping those with positive reward. */
    method AddSetReward(a: NCluster, domain: int) returns (r: Option<seq<nat>>)
      requires HasId(a.sets, domain)
      ensures r == AddedBy(hin, a.sets, domain, reward)
    {
      var all := GetLabels(hin, domain);
      var test1 := Difference(all, a.GetSetById(domain).items);
      assert test1 == Outsiders(hin, a.sets, domain);
      var add: seq<nat> := [];
      var i := 0;
      while i < |test1|
        invariant 0 <= i <= |test1|
        invariant add == Rewarded(test1[..i], a.sets, domain, reward, true)
      {
        RewardedStep(test1, i, a.sets, domain, reward, true);
        if reward(a.sets, test1[i], domain) > 0.0 {
          add := add + [test1[i]];
        }
        i := i + 1;
      }
      assert test1[..|test1|] == test1;
      if |add| > 0 {
        r := Some(add);
      } else {
        r := None;
      }
    }

    /** RemoveSet_Reward: scans the set of domain in a, keeping the members with negative reward. */
    method RemoveSetReward(a: NCluster, domain: int) returns (r: Option<seq<nat>>)
      requires HasId(a.sets, domain)
      ensures r == RemovedBy(a.sets, domain, reward)
    {
      var members := a.GetSetById(domain).items;
      assert members == Slot(a.sets, domain);
      var remove: seq<nat> := [];
      var i := 0;
      while i < |members|
        invariant 0 <= i <= |members|
        invariant remove == Rewarded(members[..i], a.sets, domain, reward, false)
      {
        RewardedStep(members, i, a.sets, domain, reward, false);
        if reward(a.sets, members[i], domain) < 0.0 {
          remove := remove + [members[i]];
        }
        i := i + 1;
      }
      assert members[..|members|] == members;
      if |remove| > 0 {
        r := Some(remove);
      } else {
        r := None;
      }
    }

    /**
      MaximizeDomain(a, c, domain, add): when the reward offers a move, the set of domain
      in a becomes c joined with the additions (or c without the removals) and the
      answer is true; otherwise a is left alone and the answer is false.
     */
    method MaximizeDomain(a: NCluster, c: seq<nat>, domain: int, add: bool) returns (changed: bool)
      requires HasId(a.sets, domain)
      modifies a
      ensures changed <==> Maximized(hin, old(a.sets), c, domain, add, reward).Some?
      ensures a.sets == if changed then Assign(old(a.sets), domain, Maximized(hin, old(a.sets), c, domain, add, reward).value)
                        else old(a.sets)
      ensures a.quality == old(a.quality) && a.id == old(a.id) && a.marked == old(a.marked)
    {
      if !add {
        var removed := RemoveSetReward(a, domain);
        if removed.Some? {
          var diff := Difference(c, removed.value);
          a.AssignSetById(domain, ObjSet(domain, diff));
          changed := true;
        } else {
          changed := false;
        }
      } else {
        var added := AddSetReward(a, domain);
        if added.Some? {
          var unin := Union(c, added.value);
          a.AssignSetById(domain, ObjSet(domain, unin));
          changed := true;
        } else {
          changed := false;
        }
      }
    }

    /**
      The inner loop of MakeDeal: every domain of the order, in turn, maximizes its set
      on candidate with a copy of that set; the answer tells whether any set changed.
     */
    method PlayRound(candidate: NCluster, order: seq<nat>, add: bool) returns (change: bool)
      requires forall k :: 0 <= k < |order| ==> HasId(candidate.sets, order[k])
      modifies candidate
      ensures (candidate.sets, change) == Round(hin, old(candidate.sets), order, add, reward)
      ensures Ids(candidate.sets) == Ids(old(candidate.sets))
    {
      ghost var t0 := candidate.sets;
      change := false;
      var i := 0;
      while i < |order|
        invariant 0 <= i <= |order|
        invariant (candidate.sets, change) == Round(hin, t0, order[..i], add, reward)
        invariant Ids(candidate.sets) == Ids(t0)
      {
        change := PlayTurn(candidate, order, i, add, t0, change);
        i := i + 1;
      }
      assert order[..|order|] == order;
    }

    /**
      One turn of PlayRound: domain order[i] maximizes a copy of its own set, which is
      exactly the move Step, so the round over order[..i] grows to the round over order[..i+1].
     */
    method PlayTurn(candidate: NCluster, order: seq<nat>, i: nat, add: bool, ghost t0: Tuple, before: bool) returns (change: bool)
      requires i < |order| && forall k :: 0 <= k < |order| ==> HasId(t0, order[k])
      requires (candidate.sets, before) == Round(hin, t0, order[..i], add, reward)
      requires Ids(candidate.sets) == Ids(t0)
      modifies candidate
      ensures (candidate.sets, change) == Round(hin, t0, order[..i + 1], add, reward)
      ensures Ids(candidate.sets) == Ids(t0)
    {
      var d := order[i];
      IndexOfIdByIds(candidate.sets, t0, d);
      ghost var t1 := candidate.sets;
      var c := candidate.GetSetById(d).items;
      var currChange := MaximizeDomain(candidate, c, d, add);
      StepKeeps(hin, t1, d, add, reward);
      RoundPrefix(hin, t0, order, i, add, reward);
      change := before || currChange;
    }

    /**
      MakeDeal(candidate): shuffles the domain ids into a playing order, then plays the
      rounds of Deal on candidate in place. The answer is a fresh copy of the final
      candidate with quality 1.0 when two rounds in a row changed nothing within the
      budget, 0.0 otherwise.
     */
    method MakeDeal(candidate: NCluster, rng: Random) returns (ret: NCluster, ghost order: seq<nat>)
      requires HasDomains(candidate.sets, GetNumNodes(hin))
      modifies this, candidate, rng
      ensures fresh(ret)
      ensures multiset(order) == multiset(Domains(GetNumNodes(hin)))
      ensures var r := Deal(hin, old(candidate.sets), order, reward, 0, 0, true);
              && candidate.sets == r.t && ret.sets == r.t
              && ret.quality == (if r.noChange > 1 && r.cnt < MaxIters then 1.0 else 0.0)
              && avgNashIters == old(avgNashIters) + r.cnt
      ensures concepts == old(concepts) && tiredMode == old(tiredMode)
      ensures totalIters == old(totalIters) && totalCands == old(totalCands)
    {
      var n := GetNumNodes(hin);
      var shuffled := RandomShuffle(Domains(n), rng);
      order := shuffled;
      OrderPresent(candidate.sets, candidate.sets, shuffled, n);
      var cnt, noChange := Negotiate(candidate, shuffled);
      ret := new NCluster(n);
      ret.DeepCopy(candidate);
      if noChange > 1 && cnt < MaxIters {
        ret.SetQuality(1.0);
      } else {
        ret.SetQuality(0.0);
      }
    }

    /**
      The loop of MakeDeal: rounds are played on candidate in the given order until two
      in a row change nothing or the budget runs out; every round counts in avgNashIters.
     */
    method Negotiate(candidate: NCluster, order: seq<nat>) returns (cnt: nat, noChange: nat)
      requires forall k :: 0 <= k < |order| ==> HasId(candidate.sets, order[k])
      modifies this, candidate
      ensures var r := Deal(hin, old(candidate.sets), order, reward, 0, 0, true);
              candidate.sets == r.t && cnt == r.cnt && noChange == r.noChange
      ensures avgNashIters == old(avgNashIters) + cnt
      ensures concepts == old(concepts) && tiredMode == old(tiredMode)
      ensures totalIters == old(totalIters) && totalCands == old(totalCands)
    {
      ghost var t0 := candidate.sets;
      ghost var final := Deal(hin, t0, order, reward, 0, 0, true);
      cnt := 0;
      var add := true;
      noChange := 0;
      while noChange < 2 && cnt < MaxIters
        invariant final == Deal(hin, candidate.sets, order, reward, cnt, noChange, add)
        invariant Ids(candidate.sets) == Ids(t0)
        invariant avgNashIters == old(avgNashIters) + cnt
        invariant concepts == old(concepts) && tiredMode == old(tiredMode)
        invariant totalIters == old(totalIters) && totalCands == old(totalCands)
        decreases MaxIters - cnt
      {
        cnt, noChange, add := NegotiateRound(candidate, order, t0, final, cnt, noChange, add);
      }
      DealStops(hin, candidate.sets, order, reward, cnt, noChange, add);
    }

    /**
      One pass of Negotiate's loop: a round is played and counted; two quiet rounds in a
      row end the deal, a quiet round flips between adding and removing. Afterwards the
      deal still ends where it would have.
     */
    method NegotiateRound(candidate: NCluster, order: seq<nat>, ghost t0: Tuple, ghost final: DealState, cnt: nat, noChange: nat, add: bool)
      returns (cnt1: nat, noChange1: nat, add1: bool)
      requires noChange < 2 && cnt < MaxIters
      requires forall k :: 0 <= k < |order| ==> HasId(t0, order[k])
      requires Ids(candidate.sets) == Ids(t0)
      requires final == Deal(hin, candidate.sets, order, reward, cnt, noChange, add)
      modifies this, candidate
      ensures final == Deal(hin, candidate.sets, order, reward, cnt1, noChange1, add1)
      ensures Ids(candidate.sets) == Ids(t0) && cnt1 == cnt + 1
      ensures avgNashIters == old(avgNashIters) + 1
      ensures concepts == old(concepts) && tiredMode == old(tiredMode)
      ensures totalIters == old(totalIters) && totalCands == old(totalCands)
    {
      PresentByIds(candidate.sets, t0, order);
      ghost var before := candidate.sets;
      avgNashIters := avgNashIters + 1;
      var change := PlayRound(candidate, order, add);
      if change {
        noChange1 := 0;
      } else {
        noChange1 := noChange + 1;
      }
      if add && !change {
        add1 := false;
      } else if add && change {
        add1 := true;
      } else if !add && !change {
        add1 := true;
      } else if !add && change {
        add1 := false;
      }
      cnt1 := cnt + 1;
      DealUnfold(hin, before, order, reward, cnt, noChange, add, candidate.sets, change, cnt1, noChange1, add1);
    }

    /** MakeInitialSampleSet: a fresh n-cluster whose set i carries id i+1 and holds every object of that domain. */
    method MakeInitialSampleSet() returns (init: NCluster)
      ensures fresh(init) && init.sets == InitialSelection(hin)
    {
      var n := GetNumNodes(hin);
      init := new NCluster(n);
      ghost var full, blank := InitialSelection(hin), init.sets;
      var i := 0;
      while i < n
        invariant 0 <= i <= n
        invariant init.sets == full[..i] + blank[i..]
      {
        init.AssignSet(i, ObjSet(i + 1, init.GetSet(i).items));
        assert blank[i] == ObjSet(0, []);
        NumberedToSplice(full, blank, i, n);
        FillInitialSet(init, i);
        Splice(full, blank, i);
        i := i + 1;
      }
      SpliceDone(full, blank);
    }

    /** The inner loop of MakeInitialSampleSet: set i, already numbered i+1, receives the objects of domain i+1 one by one. */
    method FillInitialSet(init: NCluster, i: nat)
      requires NumberedTo(init.sets, i) && init.sets[i].items == []
      modifies init
      ensures init.sets == old(init.sets)[i := ObjSet(i + 1, GetLabels(hin, i + 1))]
    {
      ghost var s0 := init.sets;
      assert s0[i := ObjSet(i + 1, Contexts.Range(0))] == s0;
      var j := 0;
      while j < NumObjsInDomain(hin, i + 1)
        invariant 0 <= j <= NumObjsInDomain(hin, i + 1)
        invariant init.sets == s0[i := ObjSet(i + 1, Contexts.Range(j))]
      {
        NumberedToUpdate(s0, i, ObjSet(i + 1, Contexts.Range(j)));
        FirstAt(init.sets, i);
        var s := init.GetSetById(i + 1);
        init.AssignSetById(i + 1, ObjSet(i + 1, s.items + [j]));
        RangeSnoc(j);
        j := j + 1;
      }
    }

    /**
      UpdateSampleSet(selection, currCluster, clustered), with the sets of currCluster
      passed as a value since it is only read: for every domain, the objects of currCluster leave its selection set and join its clustered set.
     */
    method UpdateSampleSet(selection: NCluster, cur: Tuple, clustered: NCluster)
      requires selection != clustered
      requires Positional(selection.sets, GetNumNodes(hin)) && Positional(clustered.sets, GetNumNodes(hin))
      requires HasDomains(cur, GetNumNodes(hin))
      modifies selection, clustered
      ensures selection.sets == Taken(old(selection.sets), cur)
      ensures clustered.sets == Gathered(old(clustered.sets), cur)
    {
      var n := GetNumNodes(hin);
      ghost var sel0, clu0 := selection.sets, clustered.sets;
      ghost var selT, cluG := Taken(sel0, cur), Gathered(clu0, cur);
      var i := 0;
      while i < n
        invariant 0 <= i <= n
        invariant selection.sets == selT[..i] + sel0[i..]
        invariant clustered.sets == cluG[..i] + clu0[i..]
      {
        MoveDomain(selection, cur, clustered, i, n, sel0, clu0);
        i := i + 1;
      }
      SpliceDone(selT, sel0);
      SpliceDone(cluG, clu0);
    }

    /** One turn of UpdateSampleSet's loop: the objects cur has for domain i+1 leave its selection set and join its clustered set. */
    method MoveDomain(selection: NCluster, cur: Tuple, clustered: NCluster, i: nat, n: nat, ghost sel0: Tuple, ghost clu0: Tuple)
      requires selection != clustered && HasDomains(cur, n) && i < n
      requires Positional(sel0, n) && Positional(clu0, n)
      requires selection.sets == Taken(sel0, cur)[..i] + sel0[i..]
      requires clustered.sets == Gathered(clu0, cur)[..i] + clu0[i..]
      modifies selection, clustered
      ensures selection.sets == Taken(sel0, cur)[..i + 1] + sel0[i + 1..]
      ensures clustered.sets == Gathered(clu0, cur)[..i + 1] + clu0[i + 1..]
    {
      TakenStep(sel0, cur, i, n);
      GatheredStep(clu0, cur, i, n);
      assert HasId(cur, i + 1);
      var c := SetById(cur, i + 1).items;
      var diff := Difference(selection.GetSetById(i + 1).items, c);
      var u := Union(c, clustered.GetSetById(i + 1).items);
      clustered.AssignSetById(i + 1, ObjSet(i + 1, u));
      selection.AssignSetById(i + 1, ObjSet(i + 1, diff));
    }

    /** SelectEmpty: true as soon as one domain has nothing left to select. */
    method SelectEmpty(select: NCluster) returns (r: bool)
      requires |select.sets| >= GetNumNodes(hin)
      ensures r <==> exists i :: 0 <= i < GetNumNodes(hin) && |select.sets[i].items| < 1
    {
      var emptyCnt := 0;
      var i := 0;
      while i < GetNumNodes(hin)
        invariant 0 <= i <= GetNumNodes(hin)
        invariant emptyCnt >= 1 <==> exists k :: 0 <= k < i && |select.sets[k].items| < 1
      {
        if |select.GetSet(i).items| < 1 {
          emptyCnt := emptyCnt + 1;
        }
        i := i + 1;
      }
      r := emptyCnt >= 1;
    }

    /**
      SelectRandomObjectFromSet: -1 for an empty set, the only element of a singleton
      without a draw, otherwise the element at a drawn position.
     */
    method SelectRandomObjectFromSet(a: seq<nat>, rng: Random) returns (r: int)
      modifies rng
      ensures r == -1 <==> |a| == 0
      ensures |a| > 0 ==> r in a
      ensures |a| <= 1 ==> rng.stream == old(rng.stream)
      ensures |a| == 1 ==> r == a[0]
    {
      if |a| == 1 {
        return a[0];
      } else if |a| == 0 {
        return -1;
      }
      var x := rng.Next();
      r := a[x % |a|];
    }

    /**
      CheckRepeat(a): with no accepted concept, false; otherwise true when a set of a
      equals the set at the same position of some accepted concept, or is empty.
     */
    method CheckRepeat(a: NCluster) returns (r: bool)
      requires |a.sets| >= GetNumNodes(hin) && forall c :: c in concepts ==> |c| >= GetNumNodes(hin)
      ensures r <==> Repeats(concepts, a.sets, GetNumNodes(hin))
    {
      var n := GetNumNodes(hin);
      if |concepts| == 0 {
        return false;
      }
      var i := 0;
      while i < |concepts|
        invariant 0 <= i <= |concepts|
        invariant forall i', j :: 0 <= i' < i && 0 <= j < n ==>
                    a.sets[j].items != concepts[i'][j].items && |a.sets[j].items| >= 1
      {
        assert concepts[i] in concepts;
        var j := 0;
        while j < n
          invariant 0 <= j <= n
          invariant forall j' :: 0 <= j' < j ==> a.sets[j'].items != concepts[i][j'].items && |a.sets[j'].items| >= 1
        {
          if a.GetSet(j).items == concepts[i][j].items || |a.GetSet(j).items| < 1 {
            return true;
          }
          j := j + 1;
        }
        i := i + 1;
      }
      return false;
    }

    /**
      SelectInit_RandomFreq: the starting domain is a random articulation domain, or,
      when there is none, domain 1 or 2 at random; the candidate is then sampled by
      SubspaceFreqNetwork over the selection pool.
     */
    method SelectInitRandomFreq(sampleSet: NCluster, rng: Random) returns (r: Option<Tuple>, ghost s: nat, ghost broke: Breakdown)
      requires Numbered(hin) && GetNumNodes(hin) >= 2 && CoversDomains(hin, sampleSet.sets)
      modifies rng
      ensures IsDomainId(hin, s)
      ensures |GetArtDomains(hin)| > 0 ==> IsArtNodeId(hin, s)
      ensures |GetArtDomains(hin)| == 0 ==> s == 1 || s == 2
      ensures !Reachable(hin, s, sampleSet.sets) ==> r.None?
      ensures r.None? ==> broke.root in [s] + ArtNeighbours(hin, s) && BrokeWithin(hin, sampleSet.sets, broke)
      ensures r.Some? ==> AllSorted(r.value) && Within(r.value, sampleSet.sets)
      ensures r.Some? ==> HasId(r.value, s) && forall x :: x in GetNeighbors(hin, s) ==> HasId(r.value, x)
    {
      var artDomains := GetArtDomains(hin);
      var start: nat;
      if |artDomains| == 0 {
        var x := rng.Next();
        start := 1 + x % 2;
      } else {
        var picked := SelectRandomObjectFromSet(artDomains, rng);
        ArtIsDomain(hin, picked);
        start := picked;
      }
      s := start;
      if !Reachable(hin, start, sampleSet.sets) {
        UnreachableBarren(hin, start, sampleSet.sets);
      }
      ghost var roots;
      r, roots, broke := SubspaceFreqNetwork(hin, start, sampleSet, rng);
      if r.Some? {
        assert roots[0] == start;
      }
    }

    /** Whether every domain 1 .. n has a set in a, which MakeDeal's GetSetById asserts. */
    method Complete(a: NCluster, n: nat) returns (b: bool)
      ensures b <==> HasDomains(a.sets, n)
    {
      var d := 1;
      while d <= n
        invariant 1 <= d <= n + 1
        invariant HasDomains(a.sets, d - 1)
      {
        b := a.ContainsIOSetId(d);
        if !b {
          return;
        }
        d := d + 1;
      }
      b := true;
    }

    /** MakeDeal as GHIN_Alg uses it: a converged result is an equilibrium of the reward. */
    method Converge(candidate: NCluster, rng: Random) returns (result: NCluster)
      requires HasDomains(candidate.sets, GetNumNodes(hin)) && AllSorted(candidate.sets)
      modifies this, candidate, rng
      ensures fresh(result) && candidate.sets == result.sets
      ensures AllSorted(result.sets) && HasDomains(result.sets, GetNumNodes(hin)) && |result.sets| >= GetNumNodes(hin)
      ensures result.quality == 1.0 ==> Equilibrium(hin, result.sets, GetNumNodes(hin), reward)
      ensures concepts == old(concepts) && totalIters == old(totalIters) && totalCands == old(totalCands)
    {
      var n := GetNumNodes(hin);
      ghost var t0 := candidate.sets;
      ghost var order;
      result, order := MakeDeal(candidate, rng);
      OrderCovers(order, n);
      OrderPresent(t0, t0, order, n);
      assert forall d :: d in order ==> HasId(t0, d) by {
        forall d | d in order ensures HasId(t0, d) {
          var k :| 0 <= k < |order| && order[k] == d;
        }
      }
      DealKeeps(hin, t0, order, reward, 0, 0, true);
      DealEquilibrium(hin, t0, order, n, reward);
      SameIds(result.sets, t0);
      DomainsFit(result.sets, n);
    }

    /**
      Record a new concept and move its objects from the selection pool to the clustered
      pool. GHIN_Alg calls UpdateSampleSet twice, with the candidate and with the deal's
      result, which hold the same sets.
     */
    method Accept(selection: NCluster, clustered: NCluster, cur: Tuple)
      requires selection != clustered
      requires Numbered(hin) && Pools(hin, selection.sets, clustered.sets)
      requires AllSorted(cur) && HasDomains(cur, GetNumNodes(hin)) && |cur| >= GetNumNodes(hin)
      requires Equilibrium(hin, cur, GetNumNodes(hin), reward)
      requires !Repeats(concepts, cur, GetNumNodes(hin))
      modifies this, selection, clustered
      ensures concepts == old(concepts) + [cur]
      ensures Pools(hin, selection.sets, clustered.sets) && Grows(old(clustered.sets), clustered.sets)
      ensures Found(hin, reward, concepts, |old(concepts)|, clustered.sets)
      ensures totalIters == old(totalIters) && totalCands == old(totalCands)
    {
      ghost var sel0, clu0, cs0 := selection.sets, clustered.sets, concepts;
      concepts := concepts + [cur];
      assert concepts[..|cs0|] == cs0;
      AcceptMoves(hin, sel0, clu0, cur);
      UpdateKeepsPools(hin, sel0, clu0, cur);
      UpdateSampleSet(selection, cur, clustered);
      UpdateSampleSet(selection, cur, clustered);
      assert clustered.sets == Gathered(Gathered(clu0, cur), cur);
      assert selection.sets == Taken(Taken(sel0, cur), cur);
    }

    /** The end of a pass: make a deal from a complete candidate and accept a new equilibrium. */
    method Judge(selection: NCluster, clustered: NCluster, candidate: NCluster, rng: Random) returns (o: Outcome)
      requires selection != clustered && candidate != selection && candidate != clustered
      requires Numbered(hin) && Pools(hin, selection.sets, clustered.sets)
      requires HasDomains(candidate.sets, GetNumNodes(hin)) && AllSorted(candidate.sets)
      requires forall c :: c in concepts ==> |c| >= GetNumNodes(hin)
      modifies this, selection, clustered, candidate, rng
      ensures o == Accepted || o == Rejected
      ensures Pools(hin, selection.sets, clustered.sets) && Grows(old(clustered.sets), clustered.sets)
      ensures forall c :: c in concepts ==> |c| >= GetNumNodes(hin)
      ensures o == Rejected ==> concepts == old(concepts)
      ensures o == Rejected ==> selection.sets == old(selection.sets) && clustered.sets == old(clustered.sets)
      ensures o == Accepted ==> |concepts| == |old(concepts)| + 1 && concepts[..|old(concepts)|] == old(concepts)
                                && Found(hin, reward, concepts, |old(concepts)|, clustered.sets)
      ensures totalIters == old(totalIters) && totalCands == old(totalCands)
    {
      var result := Converge(candidate, rng);
      if result.quality == 1.0 {
        var repeat := CheckRepeat(result);
        if !repeat {
          Accept(selection, clustered, result.sets);
          return Accepted;
        }
      }
      return Rejected;
    }

    /**
      A pass with a sampled candidate: count it, check that it has a set for every domain
      (GetSetById in MakeDeal asserts that it does), and judge it.
     */
    method Try(selection: NCluster, clustered: NCluster, init: Tuple, rng: Random) returns (o: Outcome)
      requires selection != clustered
      requires Numbered(hin) && Pools(hin, selection.sets, clustered.sets) && AllSorted(init)
      requires forall c :: c in concepts ==> |c| >= GetNumNodes(hin)
      modifies this, selection, clustered, rng
      ensures o != NoSample
      ensures o == Missing <==> !HasDomains(init, GetNumNodes(hin))
      ensures Pools(hin, selection.sets, clustered.sets) && Grows(old(clustered.sets), clustered.sets)
      ensures forall c :: c in concepts ==> |c| >= GetNumNodes(hin)
      ensures o != Accepted ==> concepts == old(concepts)
      ensures o != Accepted ==> selection.sets == old(selection.sets) && clustered.sets == old(clustered.sets)
      ensures o == Accepted ==> |concepts| == |old(concepts)| + 1 && concepts[..|old(concepts)|] == old(concepts)
                                && Found(hin, reward, concepts, |old(concepts)|, clustered.sets)
      ensures totalIters == old(totalIters) && totalCands == old(totalCands) + 1
    {
      totalCands := totalCands + 1;
      var candidate := new NCluster.Empty();
      candidate.sets := init;
      var present := Complete(candidate, GetNumNodes(hin));
      if !present {
        return Missing;
      }
      o := Judge(selection, clustered, candidate, rng);
    }

    /**
      One pass of GHIN_Alg's loop after the stopping tests: sample a candidate from the
      selection pool, make a deal, and accept the result when it converged and is no
      repeat, moving its objects from the selection pool to the clustered pool.
     */
    method Attempt(selection: NCluster, clustered: NCluster, rng: Random) returns (o: Outcome)
      requires selection != clustered
      requires Numbered(hin) && GetNumNodes(hin) >= 2
      requires Pools(hin, selection.sets, clustered.sets)
      requires forall c :: c in concepts ==> |c| >= GetNumNodes(hin)
      modifies this, selection, clustered, rng
      ensures Pools(hin, selection.sets, clustered.sets) && Grows(old(clustered.sets), clustered.sets)
      ensures forall c :: c in concepts ==> |c| >= GetNumNodes(hin)
      ensures o != Accepted ==> concepts == old(concepts)
      ensures o != Accepted ==> selection.sets == old(selection.sets) && clustered.sets == old(clustered.sets)
      ensures o == Accepted ==> |concepts| == |old(concepts)| + 1 && concepts[..|old(concepts)|] == old(concepts)
                                && Found(hin, reward, concepts, |old(concepts)|, clustered.sets)
      ensures totalIters == old(totalIters)
      ensures totalCands == old(totalCands) + (if o == NoSample then 0 else 1)
    {
      var n := GetNumNodes(hin);
      PoolsCover(hin, selection.sets, clustered.sets);
      var init, s, broke := SelectInitRandomFreq(selection, rng);
      if init.None? {
        return NoSample;
      }
      o := Try(selection, clustered, init.value, rng);
    }

    /** GHIN_Alg's clustered pool to start with: an empty set for every domain, numbered 1 .. n. */
    method MakeClusteredSet() returns (clustered: NCluster)
      ensures fresh(clustered) && clustered.sets == NoneClustered(GetNumNodes(hin))
    {
      var n := GetNumNodes(hin);
      clustered := new NCluster(n);
      ghost var full, blank := NoneClustered(n), clustered.sets;
      var i := 0;
      while i < clustered.GetN()
        invariant 0 <= i <= n == |clustered.sets|
        invariant clustered.sets == full[..i] + blank[i..]
      {
        clustered.AssignSet(i, ObjSet(i + 1, clustered.GetSet(i).items));
        Splice(full, blank, i);
        i := i + 1;
      }
      SpliceDone(full, blank);
    }

    /**
      GHIN_Alg: starting from a selection pool of every object and an empty clustered
      pool, repeatedly sample a candidate and make a deal, until some domain's selection
      set is empty, the iteration budget (the total number of objects) is spent, more
      than twice as many samplings as there are domains in a row gave nothing, or a
      candidate lacks a domain (aborted). Every concept it adds is an equilibrium of the
      reward, no repeat of an earlier concept, and clustered at the end.
     */
    method GhinAlg(rng: Random) returns (aborted: bool, ghost sel: Tuple, ghost clu: Tuple, ghost misses: nat)
      requires Numbered(hin) && GetNumNodes(hin) >= 2
      requires forall c :: c in concepts ==> |c| >= GetNumNodes(hin)
      modifies this, rng
      ensures Pools(hin, sel, clu)
      ensures |concepts| >= |old(concepts)| && concepts[..|old(concepts)|] == old(concepts)
      ensures forall k :: |old(concepts)| <= k < |concepts| ==> Found(hin, reward, concepts, k, clu)
      ensures totalIters >= old(totalIters)
      ensures !aborted ==>
                || (exists i :: 0 <= i < GetNumNodes(hin) && |sel[i].items| < 1)
                || totalIters >= GetTotalNumObjs(hin)
                || misses > 2 * GetNumNodes(hin)
    {
      var n := GetNumNodes(hin);
      var selection := MakeInitialSampleSet();
      var clustered := MakeClusteredSet();
      var maxNoSample := n * 2;
      var noSampleCtr := 0;
      InitialPools(hin);
      ghost var cs0 := concepts;
      aborted := false;
      while true
        invariant fresh(selection) && fresh(clustered) && selection != clustered
        invariant Pools(hin, selection.sets, clustered.sets)
        invariant forall c :: c in concepts ==> |c| >= n
        invariant |concepts| >= |cs0| && concepts[..|cs0|] == cs0
        invariant forall k :: |cs0| <= k < |concepts| ==> Found(hin, reward, concepts, k, clustered.sets)
        invariant totalIters >= old(totalIters)
        decreases GetTotalNumObjs(hin) - totalIters
      {
        var empty := SelectEmpty(selection);
        if empty || totalIters >= GetTotalNumObjs(hin) {
          break;
        }
        ghost var csBefore, cluBefore := concepts, clustered.sets;
        var o := Attempt(selection, clustered, rng);
        KeepFound(hin, reward, csBefore, concepts, cs0, cluBefore, clustered.sets);
        if o == Missing {
          aborted := true;
          break;
        }
        if o == NoSample {
          noSampleCtr := noSampleCtr + 1;
          if noSampleCtr > maxNoSample {
            break;
          }
        } else {
          noSampleCtr := 0;
        }
        totalIters := totalIters + 1;
      }
      sel, clu, misses := selection.sets, clustered.sets, noSampleCtr;
    }
  }
}
