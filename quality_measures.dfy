/**
  The integer quality of headers/core/QualityMeasures.h: the area of a star-shaped
  n-cluster, the size of its articulation slot times the total size of the other slots.
 */
module QualityMeasures {
  import opened IOSets
  import opened NClusters

  /** Σ |t[i]| over the sets of t whose id is not art. */
  function OtherSizes(t: Tuple, art: int): (n: nat)
    ensures n == 0 <==> forall i :: 0 <= i < |t| && t[i].id != art ==> t[i].items == []
  {
    if t == [] then 0
    else
      var rest := OtherSizes(t[1..], art);
      assert forall i :: 1 <= i < |t| ==> t[i] == t[1..][i - 1];
      (if t[0].id == art then 0 else |t[0].items|) + rest
  }

  /**
    Area(a, params) with art = params[0]: |a[art]| · Σ over the other slots of their sizes.
    The articulation slot must exist.
   */
  function Area(a: Tuple, art: int): (r: nat)
    requires HasId(a, art)
    ensures r == 0 <==>
              SetById(a, art).items == [] || forall i :: 0 <= i < |a| && a[i].id != art ==> a[i].items == []
  {
    |SetById(a, art).items| * OtherSizes(a, art)
  }

  /**
    Adding an element to a non-articulation slot grows the area by the size of the
    articulation slot, so strictly when that slot is non-empty.
   */
  lemma AreaGrows(a: Tuple, art: int, k: nat, x: nat)
    requires HasId(a, art) && k < |a| && a[k].id != art
    ensures var b := a[k := ObjSet(a[k].id, a[k].items + [x])];
            HasId(b, art) && Area(b, art) == Area(a, art) + |SetById(a, art).items|
    ensures SetById(a, art).items != [] ==> Area(a[k := ObjSet(a[k].id, a[k].items + [x])], art) > Area(a, art)
  {
    var b := a[k := ObjSet(a[k].id, a[k].items + [x])];
    OtherSizesGrow(a, art, k, x);
    SameArtSlot(a, art, k, ObjSet(a[k].id, a[k].items + [x]));
    var m := |SetById(a, art).items|;
    var o := OtherSizes(a, art);
    assert Area(a, art) == m * o;
    assert Area(b, art) == m * (o + 1);
    MulSucc(m, o);
  }

  /** m·(o + 1) = m·o + m. */
  lemma MulSucc(m: nat, o: nat)
    ensures m * (o + 1) == m * o + m
  {
  }

  /** Growing one non-articulation set by one element grows the other sizes by one. */
  lemma {:induction false} OtherSizesGrow(a: Tuple, art: int, k: nat, x: nat)
    requires k < |a| && a[k].id != art
    ensures OtherSizes(a[k := ObjSet(a[k].id, a[k].items + [x])], art) == OtherSizes(a, art) + 1
  {
    var b := a[k := ObjSet(a[k].id, a[k].items + [x])];
    assert b[1..] == if k == 0 then a[1..] else a[1..][k - 1 := ObjSet(a[k].id, a[k].items + [x])];
    if k > 0 {
      OtherSizesGrow(a[1..], art, k - 1, x);
    }
  }

  /** Replacing a set with another of the same non-articulation id keeps the articulation slot. */
  lemma {:induction false} SameArtSlot(a: Tuple, art: int, k: nat, s: ObjSet)
    requires HasId(a, art) && k < |a| && a[k].id != art && s.id == a[k].id
    ensures HasId(a[k := s], art) && SetById(a[k := s], art) == SetById(a, art)
  {
    var b := a[k := s];
    assert Ids(b) == Ids(a);
    IndexOfIdByIds(a, b, art);
    assert a[IndexOfId(a, art)].id == art;
    assert b[IndexOfId(a, art)].id == art;
  }
}
