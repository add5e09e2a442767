/**
  Sort_Map_By_Value of headers/core/MiscOps.h. A std::map<int, double> is modelled by
  its entries in iteration order, that is with strictly ascending keys; the result
  lists the same entries by ascending value, entries of equal value keeping key order.
 */
module MiscOps {
  type Entry = (int, real)

  /** The entries of a map in iteration order: strictly ascending keys. */
  predicate KeysAscending(m: seq<Entry>)
  {
    forall i, j :: 0 <= i < j < |m| ==> m[i].0 < m[j].0
  }

  /** Ascending by value, ties broken by ascending key. */
  predicate ByValue(r: seq<Entry>)
  {
    forall i, j :: 0 <= i < j < |r| ==> Before(r[i], r[j])
  }

  /** Places p after every entry of r whose value is at most p's. */
  function InsertByValue(r: seq<Entry>, p: Entry): (s: seq<Entry>)
    ensures |s| == |r| + 1 && multiset(s) == multiset(r) + multiset{p}
    ensures forall q :: q in s <==> q in r || q == p
  {
    if r == [] then [p]
    else if p.1 < r[0].1 then [p] + r
    else
      assert r == [r[0]] + r[1..];
      [r[0]] + InsertByValue(r[1..], p)
  }

  /** p and q are in value order, ties broken by key. */
  predicate Before(p: Entry, q: Entry)
  {
    p.1 < q.1 || (p.1 == q.1 && p.0 < q.0)
  }

  /** The tail of an ordered sequence is ordered. */
  lemma ByValueTail(r: seq<Entry>)
    requires ByValue(r) && r != []
    ensures ByValue(r[1..]) && forall q :: q in r[1..] ==> Before(r[0], q)
  {
    forall q | q in r[1..] ensures Before(r[0], q) {
      var k :| 0 <= k < |r[1..]| && r[1..][k] == q;
      assert r[k + 1] == q;
    }
  }

  /** An entry before everything of an ordered sequence can lead it. */
  lemma ByValueCons(x: Entry, t: seq<Entry>)
    requires ByValue(t) && forall q :: q in t ==> Before(x, q)
    ensures ByValue([x] + t)
  {
    forall i, j | 0 <= i < j < |[x] + t| ensures Before(([x] + t)[i], ([x] + t)[j]) {
      assert ([x] + t)[j] == t[j - 1] && t[j - 1] in t;
      if i > 0 {
        assert ([x] + t)[i] == t[i - 1];
      }
    }
  }

  /** Inserting an entry whose key is above every key keeps the order. */
  lemma {:induction false} InsertKeepsOrder(r: seq<Entry>, p: Entry)
    requires ByValue(r) && forall q :: q in r ==> q.0 < p.0
    ensures ByValue(InsertByValue(r, p))
  {
    if r != [] {
      ByValueTail(r);
      if p.1 < r[0].1 {
        forall q | q in r ensures Before(p, q) {
          if q != r[0] {
            assert Before(r[0], q);
          }
        }
        ByValueCons(p, r);
      } else {
        assert r[0] in r;
        InsertKeepsOrder(r[1..], p);
        ByValueCons(r[0], InsertByValue(r[1..], p));
      }
    }
  }

  /**
    Sort_Map_By_Value(theMap): the entries of the map, ordered by value. The input is
    not changed (it is a value); the result is a new sequence.
   */
  function SortMapByValue(m: seq<Entry>): (r: seq<Entry>)
    ensures |r| == |m| && multiset(r) == multiset(m)
    ensures forall p :: p in r <==> p in m
    ensures KeysAscending(m) ==> ByValue(r)
  {
    if m == [] then []
    else
      var pre := m[..|m| - 1];
      assert m == pre + [m[|m| - 1]];
      var r := InsertByValue(SortMapByValue(pre), m[|m| - 1]);
      assert KeysAscending(m) ==> ByValue(r) by {
        if KeysAscending(m) {
          assert KeysAscending(pre);
          assert forall q :: q in SortMapByValue(pre) ==> q.0 < m[|m| - 1].0;
          InsertKeepsOrder(SortMapByValue(pre), m[|m| - 1]);
        }
      }
      r
  }

  /** The keys of the result are those of the map, each once. */
  lemma SortedKeysDistinct(m: seq<Entry>)
    requires KeysAscending(m)
    ensures forall i, j :: 0 <= i < j < |SortMapByValue(m)| ==> SortMapByValue(m)[i].0 != SortMapByValue(m)[j].0
  {
    var r := SortMapByValue(m);
    assert ByValue(r);
    forall i, j | 0 <= i < j < |r| ensures r[i].0 != r[j].0 {
      assert Before(r[i], r[j]);
      assert r[i] in r && r[j] in r;
      assert r[i] in m && r[j] in m;
      assert r[i].0 == r[j].0 ==> r[i] == r[j] by {
        if r[i].0 == r[j].0 {
          KeyDeterminesEntry(m, r[i], r[j]);
        }
      }
    }
  }

  /** In a map, an entry is determined by its key. */
  lemma KeyDeterminesEntry(m: seq<Entry>, p: Entry, q: Entry)
    requires KeysAscending(m) && p in m && q in m && p.0 == q.0
    ensures p == q
  {
    var a :| 0 <= a < |m| && m[a] == p;
    var b :| 0 <= b < |m| && m[b] == q;
    assert !(a < b) && !(b < a);
  }
}
