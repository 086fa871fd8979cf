/**
 * An insertion-ordered map (the `IndexMap` the proxy uses for metric labels
 * and for its address cache), represented as a sequence of key/value pairs.
 */
module IndexMaps {

  /** The keys of an entry list, in order. */
  function Keys<K(==), V>(s: seq<(K, V)>): (ks: seq<K>)
    ensures |ks| == |s|
    ensures forall i :: 0 <= i < |s| ==> ks[i] == s[i].0
  {
    seq(|s|, i requires 0 <= i < |s| => s[i].0)
  }

  /** No key occurs twice. */
  predicate UniqueKeys<K(==), V>(s: seq<(K, V)>) {
    forall i, j :: 0 <= i < j < |s| ==> s[i].0 != s[j].0
  }

  /**
   * The map an entry list denotes: a later pair overrides an earlier pair
   * with the same key (for a list with unique keys, just its pairs).
   */
  function ToMap<K(==), V>(s: seq<(K, V)>): map<K, V> {
    if s == [] then map[] else map[s[0].0 := s[0].1] + ToMap(s[1..])
  }

  lemma {:induction false} ToMapKeys<K, V>(s: seq<(K, V)>)
    ensures forall k :: k in ToMap(s) <==> k in Keys(s)
  {
    if s != [] {
      ToMapKeys(s[1..]);
      assert Keys(s) == [s[0].0] + Keys(s[1..]);
    }
  }

  lemma ToMapEmpty<K, V>(s: seq<(K, V)>)
    ensures ToMap(s) == map[] <==> s == []
  {
    if s != [] {
      assert s[0].0 in ToMap(s);
    }
  }

  lemma {:induction false} ToMapAppend<K, V>(a: seq<(K, V)>, b: seq<(K, V)>)
    ensures ToMap(a + b) == ToMap(a) + ToMap(b)
  {
    if a == [] {
      assert a + b == b;
    } else {
      assert (a + b)[1..] == a[1..] + b;
      ToMapAppend(a[1..], b);
    }
  }

  lemma ToMapSnoc<K, V>(s: seq<(K, V)>, k: K, v: V)
    ensures ToMap(s + [(k, v)]) == ToMap(s)[k := v]
  {
    ToMapAppend(s, [(k, v)]);
    assert ToMap([(k, v)]) == map[k := v] by {
      assert [(k, v)][1..] == [];
    }
  }

  /**
   * `IndexMap::insert`: an existing key keeps its position and takes the new
   * value; a new key is appended at the end.
   */
  function Insert<K(==), V>(s: seq<(K, V)>, k: K, v: V): (r: seq<(K, V)>)
    ensures k in Keys(s) ==> Keys(r) == Keys(s)
    ensures k !in Keys(s) ==> r == s + [(k, v)]
  {
    if s == [] then [(k, v)]
    else if s[0].0 == k then [(k, v)] + s[1..]
    else
      assert Keys(s) == [s[0].0] + Keys(s[1..]);
      var r := [s[0]] + Insert(s[1..], k, v);
      assert Keys(r) == [s[0].0] + Keys(Insert(s[1..], k, v));
      r
  }

  /** Uniqueness of keys depends on the keys alone. */
  lemma SameKeysUnique<K, V>(a: seq<(K, V)>, b: seq<(K, V)>)
    requires Keys(a) == Keys(b) && UniqueKeys(a)
    ensures UniqueKeys(b)
  {
    forall i, j | 0 <= i < j < |b| ensures b[i].0 != b[j].0 {
      assert b[i].0 == Keys(a)[i] && b[j].0 == Keys(a)[j];
    }
  }

  lemma InsertNewKey<K, V>(s: seq<(K, V)>, k: K, v: V)
    requires UniqueKeys(s) && k !in Keys(s)
    ensures UniqueKeys(Insert(s, k, v))
    ensures ToMap(Insert(s, k, v)) == ToMap(s)[k := v]
  {
    ToMapSnoc(s, k, v);
    forall i | 0 <= i < |s| ensures s[i].0 != k {
      assert Keys(s)[i] == s[i].0;
    }
  }

  lemma InsertAtHead<K, V>(s: seq<(K, V)>, k: K, v: V)
    requires UniqueKeys(s) && s != [] && s[0].0 == k
    ensures ToMap(Insert(s, k, v)) == ToMap(s)[k := v]
  {
    var t := s[1..];
    ToMapKeys(t);
    forall i | 0 <= i < |t| ensures Keys(t)[i] != k {
      assert t[i] == s[i + 1];
    }
    assert k !in ToMap(t);
    assert Insert(s, k, v)[1..] == t;
    var m := ToMap(t);
    assert ToMap(Insert(s, k, v)) == map[k := v] + m;
    assert ToMap(s) == map[k := s[0].1] + m;
  }

  lemma {:induction false} InsertToMap<K, V>(s: seq<(K, V)>, k: K, v: V)
    requires UniqueKeys(s)
    ensures UniqueKeys(Insert(s, k, v))
    ensures ToMap(Insert(s, k, v)) == ToMap(s)[k := v]
  {
    if k !in Keys(s) {
      InsertNewKey(s, k, v);
    } else {
      SameKeysUnique(s, Insert(s, k, v));
      if s[0].0 == k {
        InsertAtHead(s, k, v);
      } else {
        InsertToMap(s[1..], k, v);
        InsertPastHead(s, k, v);
      }
    }
  }

  lemma InsertPastHead<K, V>(s: seq<(K, V)>, k: K, v: V)
    requires s != [] && s[0].0 != k && k in Keys(s)
    requires ToMap(Insert(s[1..], k, v)) == ToMap(s[1..])[k := v]
    ensures ToMap(Insert(s, k, v)) == ToMap(s)[k := v]
  {
    var r := Insert(s, k, v);
    assert r[1..] == Insert(s[1..], k, v);
    assert ToMap(r) == map[s[0].0 := s[0].1] + ToMap(s[1..])[k := v];
    UpdateCommutes(map[s[0].0 := s[0].1], ToMap(s[1..]), k, v);
  }

  lemma UpdateCommutes<K, V>(h: map<K, V>, m: map<K, V>, k: K, v: V)
    requires k !in h
    ensures h + m[k := v] == (h + m)[k := v]
  {
  }

  /** The assumed cache removal: drops the key and keeps the order of the rest. */
  function RemoveKey<K(==,!new), V>(s: seq<(K, V)>, k: K): (r: seq<(K, V)>)
    ensures forall x :: x in Keys(r) <==> x in Keys(s) && x != k
    ensures UniqueKeys(s) ==> UniqueKeys(r)
    ensures |r| <= |s|
  {
    if s == [] then []
    else
      var rest := RemoveKey(s[1..], k);
      assert Keys(s) == [s[0].0] + Keys(s[1..]);
      if s[0].0 == k then rest
      else
        var r := [s[0]] + rest;
        assert Keys(r) == [s[0].0] + Keys(rest);
        assert UniqueKeys(s) ==> UniqueKeys(r) by {
          if UniqueKeys(s) {
            assert UniqueKeys(s[1..]);
            forall j | 0 < j < |r| ensures r[0].0 != r[j].0 {
              assert r[j].0 == Keys(rest)[j - 1];
              assert r[j].0 in Keys(s[1..]);
              var i :| 0 <= i < |s[1..]| && Keys(s[1..])[i] == r[j].0;
              assert s[i + 1].0 == r[j].0;
            }
          }
        }
        r
  }

  lemma {:induction false} RemoveKeyToMap<K(!new), V>(s: seq<(K, V)>, k: K)
    requires UniqueKeys(s)
    ensures ToMap(RemoveKey(s, k)) == ToMap(s) - {k}
  {
    if s != [] {
      RemoveKeyToMap(s[1..], k);
      if s[0].0 == k {
        ToMapKeys(s[1..]);
        assert Keys(s[1..]) == Keys(s)[1..];
        assert k !in ToMap(s[1..]);
      } else {
        assert RemoveKey(s, k)[1..] == RemoveKey(s[1..], k);
      }
    }
  }
}
