/**
  The n-cluster of headers/core/NCluster.h: an ordered tuple of id-tagged object
  sets. The sets are held as values (IOSets.ObjSet); an update through a shared reference
  returned by GetSet or GetSetById is written as AssignSet or AssignSetById.
 */
module NClusters {
  import opened IOSets

  /** The contents of an n-cluster: its sets, in order. */
  type Tuple = seq<ObjSet>

  /** Some set of t carries the id. */
  predicate HasId(t: Tuple, id: int)
  {
    exists i :: 0 <= i < |t| && t[i].id == id
  }

  /** The position of the first set carrying id, or -1 when there is none. */
  function IndexOfId(t: Tuple, id: int): (k: int)
    ensures -1 <= k < |t|
    ensures k == -1 <==> !HasId(t, id)
    ensures k >= 0 ==> t[k].id == id && forall j :: 0 <= j < k ==> t[j].id != id
  {
    if t == [] then
      -1
    else if t[0].id == id then
      0
    else
      var k := IndexOfId(t[1..], id);
      assert HasId(t, id) ==> HasId(t[1..], id) by {
        if HasId(t, id) {
          var i :| 0 <= i < |t| && t[i].id == id;
          assert t[1..][i - 1].id == id;
        }
      }
      if k == -1 then -1 else k + 1
  }

  /** The set returned by GetSetById: the first one carrying id. */
  function SetById(t: Tuple, id: int): (s: ObjSet)
    requires HasId(t, id)
    ensures s in t && s.id == id
  {
    t[IndexOfId(t, id)]
  }

  /** The elements of the set carrying id, or none when no set carries it. */
  function Slot(t: Tuple, id: int): seq<nat>
  {
    if HasId(t, id) then SetById(t, id).items else []
  }

  /** No two sets carry the same id. */
  predicate UniqueIds(t: Tuple)
  {
    forall i, j :: 0 <= i < j < |t| ==> t[i].id != t[j].id
  }

  /** With unique ids the set carrying id is found at its own position. */
  lemma UniqueIndex(t: Tuple, i: nat)
    requires UniqueIds(t) && i < |t|
    ensures HasId(t, t[i].id) && IndexOfId(t, t[i].id) == i
  {
  }

  /** Every set of t is strictly ascending. */
  predicate AllSorted(t: Tuple)
  {
    forall i :: 0 <= i < |t| ==> Sorted(t[i].items)
  }

  /** The ids of the sets of t, in order. */
  function Ids(t: Tuple): (r: seq<int>)
    ensures |r| == |t| && forall i :: 0 <= i < |t| ==> r[i] == t[i].id
  {
    seq(|t|, i requires 0 <= i < |t| => t[i].id)
  }

  /** Replacing the set at the first position carrying id keeps every id. */
  lemma ReplaceKeepsIds(t: Tuple, id: int, s: ObjSet)
    requires HasId(t, id) && s.id == id
    ensures Ids(t[IndexOfId(t, id) := s]) == Ids(t)
    ensures forall x :: HasId(t[IndexOfId(t, id) := s], x) <==> HasId(t, x)
    ensures IndexOfId(t[IndexOfId(t, id) := s], id) == IndexOfId(t, id)
  {
    var r := t[IndexOfId(t, id) := s];
    forall x ensures HasId(r, x) <==> HasId(t, x) {
      if HasId(r, x) {
        var i :| 0 <= i < |r| && r[i].id == x;
        assert t[i].id == x;
      }
      if HasId(t, x) {
        var i :| 0 <= i < |t| && t[i].id == x;
        assert r[i].id == x;
      }
    }
    IndexOfIdByIds(r, t, id);
  }

  /** The position of an id depends on nothing but the ids. */
  lemma {:induction false} IndexOfIdByIds(t: Tuple, u: Tuple, id: int)
    requires Ids(t) == Ids(u)
    ensures IndexOfId(t, id) == IndexOfId(u, id)
  {
    if t != [] {
      assert |t| == |u|;
      assert t[0].id == Ids(t)[0] == Ids(u)[0] == u[0].id;
      assert Ids(t[1..]) == Ids(u[1..]) by {
        forall i | 0 <= i < |t| - 1 ensures Ids(t[1..])[i] == Ids(u[1..])[i] {
          assert Ids(t)[i + 1] == Ids(u)[i + 1];
        }
      }
      IndexOfIdByIds(t[1..], u[1..], id);
    }
  }

  class NCluster {
    var sets: Tuple
    var quality: real
    var id: int
    var marked: bool

    /** NCluster(): no sets. */
    constructor Empty()
      ensures sets == [] && quality == 0.0 && id == 0 && !marked
    {
      sets, quality, id, marked := [], 0.0, 0, false;
    }

    /** NCluster(n): n empty sets, each with the default id 0. */
    constructor (n: nat)
      ensures |sets| == n && forall i :: 0 <= i < n ==> sets[i] == ObjSet(0, [])
      ensures quality == 0.0 && id == 0 && !marked
    {
      sets := seq(n, i => ObjSet(0, []));
      quality, id, marked := 0.0, 0, false;
    }

    /** The copy constructor: an independent n-cluster with equal sets in the same order. */
    constructor Copy(a: NCluster)
      ensures sets == a.sets && quality == a.quality && id == a.id && marked == a.marked
    {
      sets, quality, id, marked := a.sets, a.quality, a.id, a.marked;
    }

    /** DeepCopy(a): self takes a's sets and id. */
    method DeepCopy(a: NCluster)
      modifies this
      ensures sets == old(a.sets) && id == old(a.id)
      ensures quality == old(quality) && marked == old(marked)
    {
      sets, id := a.sets, a.id;
    }

    function GetN(): nat
      reads this
    {
      |sets|
    }

    function GetSet(i: nat): ObjSet
      reads this
      requires i < |sets|
    {
      sets[i]
    }

    /** GetSetById(id): the first set carrying id; asserted to exist. */
    function GetSetById(x: int): (s: ObjSet)
      reads this
      requires HasId(sets, x)
      ensures s.id == x && s in sets
    {
      SetById(sets, x)
    }

    method SetQuality(q: real)
      modifies this
      ensures quality == q && sets == old(sets) && id == old(id) && marked == old(marked)
    {
      quality := q;
    }

    method SetId(x: int)
      modifies this
      ensures id == x && sets == old(sets) && quality == old(quality) && marked == old(marked)
    {
      id := x;
    }

    method SetMarked(m: bool)
      modifies this
      ensures marked == m && sets == old(sets) && quality == old(quality) && id == old(id)
    {
      marked := m;
    }

    /** AddSet(a): a becomes the last set; the earlier ones stay. */
    method AddSet(a: ObjSet)
      modifies this
      ensures sets == old(sets) + [a]
      ensures quality == old(quality) && id == old(id) && marked == old(marked)
    {
      sets := sets + [a];
    }

    /** AssignSet(i, a): replaces the set at position i only. */
    method AssignSet(i: nat, a: ObjSet)
      requires i < |sets|
      modifies this
      ensures sets == old(sets)[i := a]
      ensures quality == old(quality) && id == old(id) && marked == old(marked)
    {
      sets := sets[i := a];
    }

    /** AssignSetById(x, a): replaces the set carrying x, if there is one. */
    method AssignSetById(x: int, a: ObjSet)
      modifies this
      ensures !HasId(old(sets), x) ==> sets == old(sets)
      ensures HasId(old(sets), x) ==> sets == old(sets)[IndexOfId(old(sets), x) := a]
      ensures quality == old(quality) && id == old(id) && marked == old(marked)
    {
      var k := IndexOfId(sets, x);
      if k >= 0 {
        sets := sets[k := a];
      }
    }

    /** RemoveSet(i): drops position i, keeping the order of the rest. */
    method RemoveSet(i: nat)
      requires i < |sets|
      modifies this
      ensures sets == old(sets)[..i] + old(sets)[i + 1..]
      ensures quality == old(quality) && id == old(id) && marked == old(marked)
    {
      sets := sets[..i] + sets[i + 1..];
    }

    /** ContainsIOSetId(x) holds iff some set carries x. */
    method ContainsIOSetId(x: int) returns (r: bool)
      ensures r <==> HasId(sets, x)
    {
      var i := 0;
      while i < |sets|
        invariant 0 <= i <= |sets|
        invariant forall j :: 0 <= j < i ==> sets[j].id != x
      {
        if sets[i].id == x {
          return true;
        }
        i := i + 1;
      }
      return false;
    }

    /** GetMaxElement: the largest element over all sets, -1 when every set is empty. */
    method GetMaxElement() returns (m: int)
      ensures m >= -1
      ensures forall i, x :: 0 <= i < |sets| && x in sets[i].items ==> x <= m
      ensures m >= 0 ==> exists i :: 0 <= i < |sets| && m in sets[i].items
      ensures m == -1 <==> forall i :: 0 <= i < |sets| ==> sets[i].items == []
    {
      m := -1;
      var i := 0;
      while i < |sets|
        invariant 0 <= i <= |sets|
        invariant m >= -1
        invariant forall j, x :: 0 <= j < i && x in sets[j].items ==> x <= m
        invariant m >= 0 ==> exists j :: 0 <= j < i && m in sets[j].items
        invariant m == -1 <==> forall j :: 0 <= j < i ==> sets[j].items == []
      {
        var s := sets[i].items;
        var k := 0;
        ghost var before := m;
        while k < |s|
          invariant 0 <= k <= |s|
          invariant m >= before
          invariant forall y :: y in s[..k] ==> y <= m
          invariant m == before || (m in s && m >= 0)
          invariant k > 0 ==> m >= 0
        {
          if s[k] > m {
            m := s[k];
          }
          assert s[..k + 1] == s[..k] + [s[k]];
          k := k + 1;
        }
        assert s[..k] == s;
        if s != [] {
          assert s[0] in s;
        }
        i := i + 1;
      }
    }
  }
}
