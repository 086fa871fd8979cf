/**
 * How an endpoint's metric labels are put together: the destination set's
 * labels and the address's own labels are chained, stably sorted by key and
 * inserted one by one into an insertion-ordered map.
 */
module LabelMerge {
  import opened IndexMaps

  /** A metric label: (key, value). */
  type Label = (string, string)

  /** `Ord for String`: lexicographic comparison, character by character. */
  predicate KeyLe(a: string, b: string)
    decreases |a|
  {
    if a == [] then true
    else if b == [] then false
    else if a[0] != b[0] then a[0] < b[0]
    else KeyLe(a[1..], b[1..])
  }

  predicate KeyLt(a: string, b: string) {
    KeyLe(a, b) && a != b
  }

  lemma {:induction false} KeyLeRefl(a: string)
    ensures KeyLe(a, a)
  {
    if a != [] {
      KeyLeRefl(a[1..]);
    }
  }

  lemma {:induction false} KeyLeTotal(a: string, b: string)
    ensures KeyLe(a, b) || KeyLe(b, a)
  {
    if a != [] && b != [] && a[0] == b[0] {
      KeyLeTotal(a[1..], b[1..]);
    }
  }

  lemma {:induction false} KeyLeTrans(a: string, b: string, c: string)
    requires KeyLe(a, b) && KeyLe(b, c)
    ensures KeyLe(a, c)
  {
    if a != [] && b != [] && c != [] && a[0] == b[0] == c[0] {
      KeyLeTrans(a[1..], b[1..], c[1..]);
    }
  }

  lemma {:induction false} KeyLeAntisym(a: string, b: string)
    requires KeyLe(a, b) && KeyLe(b, a)
    ensures a == b
  {
    if a != [] && b != [] {
      KeyLeAntisym(a[1..], b[1..]);
      assert a == [a[0]] + a[1..] && b == [b[0]] + b[1..];
    }
  }

  /** Keys never decrease (what `sort_by` on the keys establishes). */
  predicate SortedByKey(s: seq<Label>) {
    forall i, j :: 0 <= i < j < |s| ==> KeyLe(s[i].0, s[j].0)
  }

  /** Keys strictly increase (so every key occurs once). */
  predicate Ascending(s: seq<Label>) {
    forall i, j :: 0 <= i < j < |s| ==> KeyLt(s[i].0, s[j].0)
  }

  /** One step of a stable insertion sort: `e` goes after every entry whose key is not greater. */
  function InsertByKey(s: seq<Label>, e: Label): (r: seq<Label>)
    ensures |r| == |s| + 1
    ensures forall x :: x in r <==> x in s || x == e
    ensures multiset(r) == multiset(s) + multiset{e}
  {
    if s == [] || KeyLe(s[|s| - 1].0, e.0) then s + [e]
    else
      var init := s[..|s| - 1];
      assert s == init + [s[|s| - 1]];
      InsertByKey(init, e) + [s[|s| - 1]]
  }

  /**
   * `slice::sort_by` comparing keys only: a stable sort, so entries with equal
   * keys keep their relative order (any stable sort gives this same result).
   */
  function SortByKey(t: seq<Label>): seq<Label> {
    if t == [] then [] else InsertByKey(SortByKey(t[..|t| - 1]), t[|t| - 1])
  }

  lemma {:induction false} InsertByKeySorted(s: seq<Label>, e: Label)
    requires SortedByKey(s)
    ensures SortedByKey(InsertByKey(s, e))
  {
    var r := InsertByKey(s, e);
    if s == [] {
    } else if KeyLe(s[|s| - 1].0, e.0) {
      forall i | 0 <= i < |s| ensures KeyLe(s[i].0, e.0) {
        if i < |s| - 1 {
          KeyLeTrans(s[i].0, s[|s| - 1].0, e.0);
        }
      }
    } else {
      var init, last := s[..|s| - 1], s[|s| - 1];
      InsertByKeySorted(init, e);
      var r0 := InsertByKey(init, e);
      KeyLeTotal(last.0, e.0);
      forall i | 0 <= i < |r0| ensures KeyLe(r0[i].0, last.0) {
        assert r0[i] in init || r0[i] == e;
        if r0[i] in init {
          var j :| 0 <= j < |init| && init[j] == r0[i];
          assert s[j] == init[j];
        }
      }
    }
  }

  lemma {:induction false} InsertByKeyToMap(s: seq<Label>, e: Label)
    ensures ToMap(InsertByKey(s, e)) == ToMap(s)[e.0 := e.1]
  {
    if s == [] || KeyLe(s[|s| - 1].0, e.0) {
      ToMapSnoc(s, e.0, e.1);
    } else {
      var init, last := s[..|s| - 1], s[|s| - 1];
      assert s == init + [last];
      InsertByKeyToMap(init, e);
      ToMapSnoc(InsertByKey(init, e), last.0, last.1);
      ToMapSnoc(init, last.0, last.1);
      KeyLeRefl(e.0);
      assert last.0 != e.0;
    }
  }

  /** The stable sort is a permutation of its input, orders the keys, and keeps the (last-wins) label map. */
  lemma {:induction false} SortByKeySpec(t: seq<Label>)
    ensures multiset(SortByKey(t)) == multiset(t)
    ensures SortedByKey(SortByKey(t))
    ensures ToMap(SortByKey(t)) == ToMap(t)
  {
    if t != [] {
      var pre, last := t[..|t| - 1], t[|t| - 1];
      assert t == pre + [last];
      SortByKeySpec(pre);
      InsertByKeySorted(SortByKey(pre), last);
      InsertByKeyToMap(SortByKey(pre), last);
      ToMapSnoc(pre, last.0, last.1);
    }
  }

  /** The `IndexMap` obtained by inserting the entries of `t` in order. */
  function Collect(t: seq<Label>): seq<Label> {
    if t == [] then [] else Insert(Collect(t[..|t| - 1]), t[|t| - 1].0, t[|t| - 1].1)
  }

  lemma AscendingBySameKeys(a: seq<Label>, b: seq<Label>)
    requires Keys(a) == Keys(b) && Ascending(a)
    ensures Ascending(b)
  {
    forall i, j | 0 <= i < j < |b| ensures KeyLt(b[i].0, b[j].0) {
      assert b[i].0 == Keys(a)[i] && b[j].0 == Keys(a)[j];
    }
  }

  /** Filling the map keeps each key's last value and exactly the keys of its input. */
  lemma {:induction false} CollectMap(t: seq<Label>)
    ensures UniqueKeys(Collect(t))
    ensures ToMap(Collect(t)) == ToMap(t)
    ensures forall k :: k in Keys(Collect(t)) <==> k in Keys(t)
  {
    if t != [] {
      var pre, last := t[..|t| - 1], t[|t| - 1];
      assert t == pre + [last];
      assert Keys(t) == Keys(pre) + [last.0];
      CollectMap(pre);
      var m := Collect(pre);
      InsertToMap(m, last.0, last.1);
      ToMapSnoc(pre, last.0, last.1);
      if last.0 !in Keys(m) {
        assert Keys(m + [last]) == Keys(m) + [last.0];
      }
    }
  }

  /** From input sorted by key, the filled map has strictly ascending keys. */
  lemma {:induction false} CollectAscending(t: seq<Label>)
    requires SortedByKey(t)
    ensures Ascending(Collect(t))
  {
    if t != [] {
      var pre, last := t[..|t| - 1], t[|t| - 1];
      assert SortedByKey(pre);
      CollectAscending(pre);
      CollectMap(pre);
      var m := Collect(pre);
      assert Collect(t) == Insert(m, last.0, last.1);
      if last.0 in Keys(m) {
        AscendingBySameKeys(m, Collect(t));
      } else {
        forall i | 0 <= i < |m| ensures KeyLt(m[i].0, last.0) {
          BelowLast(t, m, i);
        }
        AscendingSnoc(m, last);
      }
    }
  }

  /** A key of the map filled from all but the last entry of sorted input is below a new last key. */
  lemma BelowLast(t: seq<Label>, m: seq<Label>, i: int)
    requires SortedByKey(t) && t != []
    requires forall k :: k in Keys(m) <==> k in Keys(t[..|t| - 1])
    requires t[|t| - 1].0 !in Keys(m)
    requires 0 <= i < |m|
    ensures KeyLt(m[i].0, t[|t| - 1].0)
  {
    var pre := t[..|t| - 1];
    assert m[i].0 == Keys(m)[i];
    assert Keys(m)[i] in Keys(m);
    assert m[i].0 in Keys(pre);
    var j :| 0 <= j < |pre| && Keys(pre)[j] == m[i].0;
    assert t[j].0 == m[i].0;
    assert KeyLe(t[j].0, t[|t| - 1].0);
  }

  lemma AscendingSnoc(m: seq<Label>, e: Label)
    requires Ascending(m)
    requires forall i :: 0 <= i < |m| ==> KeyLt(m[i].0, e.0)
    ensures Ascending(m + [e])
  {
  }

  /**
   * The label map of an endpoint: set labels chained with the address's
   * labels, stably sorted by key, then inserted in order.
   */
  function MergedLabels(setLabels: seq<Label>, addrLabels: seq<Label>): seq<Label> {
    Collect(SortByKey(setLabels + addrLabels))
  }

  /**
   * The merged labels hold every key of either list, in strictly ascending
   * order, and an address label overrides a set label with the same key.
   */
  lemma MergedLabelsSpec(setLabels: seq<Label>, addrLabels: seq<Label>)
    ensures Ascending(MergedLabels(setLabels, addrLabels))
    ensures ToMap(MergedLabels(setLabels, addrLabels)) == ToMap(setLabels) + ToMap(addrLabels)
  {
    var t := SortByKey(setLabels + addrLabels);
    SortByKeySpec(setLabels + addrLabels);
    CollectMap(t);
    CollectAscending(t);
    ToMapAppend(setLabels, addrLabels);
  }

  /**
   * A strictly ascending label list is determined by the map it denotes, so
   * the merged labels do not depend on the order in which either input map
   * is iterated.
   */
  lemma {:induction false} AscendingDetermined(a: seq<Label>, b: seq<Label>)
    requires Ascending(a) && Ascending(b) && ToMap(a) == ToMap(b)
    ensures a == b
  {
    ToMapEmpty(a);
    ToMapEmpty(b);
    if a != [] {
      SameHead(a, b);
      HeadAndTail(a);
      HeadAndTail(b);
      AscendingDetermined(a[1..], b[1..]);
      assert a == [a[0]] + a[1..] && b == [b[0]] + b[1..];
    }
  }

  /** The least key of a strictly ascending list comes first. */
  lemma HeadIsLeast(a: seq<Label>, k: string)
    requires Ascending(a) && a != [] && k in ToMap(a)
    ensures KeyLe(a[0].0, k)
  {
    ToMapKeys(a);
    var j :| 0 <= j < |a| && Keys(a)[j] == k;
    if j == 0 {
      KeyLeRefl(k);
    }
  }

  lemma SameHead(a: seq<Label>, b: seq<Label>)
    requires Ascending(a) && Ascending(b) && ToMap(a) == ToMap(b) && a != [] && b != []
    ensures a[0] == b[0]
  {
    ToMapKeys(a);
    ToMapKeys(b);
    assert Keys(a)[0] == a[0].0 && Keys(b)[0] == b[0].0;
    HeadIsLeast(a, b[0].0);
    HeadIsLeast(b, a[0].0);
    KeyLeAntisym(a[0].0, b[0].0);
    HeadAndTail(a);
    HeadAndTail(b);
  }

  lemma HeadAndTail(a: seq<Label>)
    requires Ascending(a) && a != []
    ensures a[0].0 !in ToMap(a[1..])
    ensures ToMap(a)[a[0].0] == a[0].1
    ensures ToMap(a[1..]) == ToMap(a) - {a[0].0}
    ensures Ascending(a[1..])
  {
    ToMapKeys(a[1..]);
    forall j | 0 <= j < |a| - 1 ensures Keys(a[1..])[j] != a[0].0 {
      assert KeyLt(a[0].0, a[j + 1].0);
    }
  }
}
