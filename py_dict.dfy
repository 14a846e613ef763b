/**
 * A Python `dict` as the algorithms use it: entries kept in insertion order,
 * `d[k] = v` overwriting the value of a present key in place and appending a
 * new key at the end, and `d.items()` walking the entries in that order.
 */
module PyDict {
  import opened Wrappers

  datatype Entry<K, V> = Entry(key: K, value: V)

  /** The dict's entries, in insertion order (`d.items()`). */
  type Dict<K, V> = seq<Entry<K, V>>

  /** No element occurs twice. */
  ghost predicate Distinct<T>(s: seq<T>) {
    forall i, j :: 0 <= i < j < |s| ==> s[i] != s[j]
  }

  /** The keys of `d`, in insertion order (`list(d)`). */
  function Keys<K, V>(d: Dict<K, V>): (ks: seq<K>)
    ensures |ks| == |d|
    ensures forall i :: 0 <= i < |d| ==> ks[i] == d[i].key
  {
    if d == [] then [] else [d[0].key] + Keys(d[1..])
  }

  /** `d.get(k)`: the value stored under the first entry with key `k`, or `None`. */
  function Get<K(==), V>(d: Dict<K, V>, k: K): (r: Option<V>)
    ensures r.None? <==> k !in Keys(d)
  {
    if d == [] then None
    else if d[0].key == k then Some(d[0].value)
    else
      assert Keys(d) == [d[0].key] + Keys(d[1..]);
      Get(d[1..], k)
  }

  /** With distinct keys, every entry is what `get` finds under its key. */
  lemma {:induction false} GetEntry<K, V>(d: Dict<K, V>, i: nat)
    requires Distinct(Keys(d)) && i < |d|
    ensures Get(d, d[i].key) == Some(d[i].value)
  {
    if i > 0 {
      assert Keys(d) == [d[0].key] + Keys(d[1..]);
      assert d[0].key != d[i].key;
      GetEntry(d[1..], i - 1);
    }
  }

  /** Looking up a key after appending an entry. */
  lemma {:induction false} GetAppend<K, V>(d: Dict<K, V>, e: Entry<K, V>, k: K)
    ensures Get(d + [e], k) == if k in Keys(d) then Get(d, k) else if e.key == k then Some(e.value) else None
  {
    if d != [] {
      assert (d + [e])[1..] == d[1..] + [e];
      assert Keys(d) == [d[0].key] + Keys(d[1..]);
      GetAppend(d[1..], e, k);
    }
  }

  /** `d[k] = v`: a present key keeps its position; an absent key is appended. */
  function Set<K(==), V>(d: Dict<K, V>, k: K, v: V): (r: Dict<K, V>)
    ensures Keys(r) == if k in Keys(d) then Keys(d) else Keys(d) + [k]
  {
    if d == [] then [Entry(k, v)]
    else if d[0].key == k then
      var r := [Entry(k, v)] + d[1..];
      assert Keys(d) == [k] + Keys(d[1..]);
      assert Keys(r) == [k] + Keys(r[1..]) && r[1..] == d[1..];
      r
    else
      var rest := Set(d[1..], k, v);
      var r := [d[0]] + rest;
      assert Keys(d) == [d[0].key] + Keys(d[1..]);
      assert Keys(r) == [d[0].key] + Keys(r[1..]) && r[1..] == rest;
      r
  }

  /** After `d[k] = v`, `k` maps to `v`. */
  lemma {:induction false} SetGetSame<K, V>(d: Dict<K, V>, k: K, v: V)
    ensures Get(Set(d, k, v), k) == Some(v)
  {
    if d != [] && d[0].key != k {
      SetGetSame(d[1..], k, v);
      assert Set(d, k, v)[1..] == Set(d[1..], k, v);
    }
  }

  /** After `d[k] = v`, every other key keeps its value. */
  lemma {:induction false} SetGetOther<K, V>(d: Dict<K, V>, k: K, v: V, k': K)
    requires k' != k
    ensures Get(Set(d, k, v), k') == Get(d, k')
  {
    if d != [] && d[0].key != k {
      SetGetOther(d[1..], k, v, k');
      assert Set(d, k, v)[1..] == Set(d[1..], k, v);
    }
  }

  /** Appending an element that is not there yet keeps a sequence free of repetitions. */
  lemma DistinctSnoc<T>(s: seq<T>, x: T)
    requires Distinct(s) && x !in s
    ensures Distinct(s + [x])
  {
    var t := s + [x];
    forall i, j | 0 <= i < j < |t| ensures t[i] != t[j] {
      if j < |s| {
        assert t[i] == s[i] && t[j] == s[j];
      } else {
        assert t[i] == s[i] && t[j] == x;
      }
    }
  }

  /** Dropping the last entry of a dict with distinct keys leaves distinct keys, none of them the last one's. */
  lemma DistinctInit<K, V>(d: Dict<K, V>)
    requires d != [] && Distinct(Keys(d))
    ensures Distinct(Keys(d[..|d| - 1])) && d[|d| - 1].key !in Keys(d[..|d| - 1])
  {
    var n := |d| - 1;
    var ks, init := Keys(d), Keys(d[..n]);
    forall i, j | 0 <= i < j < n ensures init[i] != init[j] {
      assert init[i] == ks[i] && init[j] == ks[j];
    }
    forall i | 0 <= i < n ensures init[i] != d[n].key {
      assert init[i] == ks[i] && ks[n] == d[n].key;
    }
  }

  /** `d[k] = v` keeps keys distinct. */
  lemma SetDistinct<K, V>(d: Dict<K, V>, k: K, v: V)
    requires Distinct(Keys(d))
    ensures Distinct(Keys(Set(d, k, v)))
  {
  }

  /**
   * The dict a loop `for i in range(n): d[ks[i]] = vs[i]` builds from an
   * empty dict.
   */
  function FromPairs<K(==), V>(ks: seq<K>, vs: seq<V>): Dict<K, V>
    requires |ks| == |vs|
  {
    if ks == [] then []
    else Set(FromPairs(ks[..|ks| - 1], vs[..|vs| - 1]), ks[|ks| - 1], vs[|vs| - 1])
  }

  /** The elements of `s` in order of first occurrence, without repetitions. */
  function Dedup<T(==)>(s: seq<T>): seq<T> {
    if s == [] then []
    else
      var p := Dedup(s[..|s| - 1]);
      if s[|s| - 1] in p then p else p + [s[|s| - 1]]
  }

  /** The last index at which `x` occurs in `s`. */
  function LastIndex<T(==)>(s: seq<T>, x: T): (i: nat)
    requires x in s
    ensures i < |s| && s[i] == x && x !in s[i + 1..]
  {
    if s[|s| - 1] == x then |s| - 1
    else
      var i := LastIndex(s[..|s| - 1], x);
      assert s[i + 1..] == s[..|s| - 1][i + 1..] + [s[|s| - 1]];
      i
  }

  /** Setting each key of `ks` in turn lists the keys in order of first appearance. */
  lemma SetKeysDedup<K, V>(d: Dict<K, V>, ks: seq<K>, k: K, v: V)
    requires Keys(d) == Dedup(ks)
    ensures Keys(Set(d, k, v)) == Dedup(ks + [k])
  {
    assert (ks + [k])[..|ks|] == ks;
  }

  /** `Dedup` keeps exactly the elements of `s`, each once. */
  lemma {:induction false} DedupSpec<T>(s: seq<T>)
    ensures Distinct(Dedup(s))
    ensures forall x :: x in Dedup(s) <==> x in s
  {
    if s != [] {
      DedupSpec(s[..|s| - 1]);
      assert s == s[..|s| - 1] + [s[|s| - 1]];
    }
  }

  /** Without repetitions, `Dedup` changes nothing. */
  lemma {:induction false} DedupDistinct<T>(s: seq<T>)
    requires Distinct(s)
    ensures Dedup(s) == s
  {
    if s != [] {
      var init := s[..|s| - 1];
      assert Distinct(init);
      DedupDistinct(init);
      assert s == init + [s[|s| - 1]];
    }
  }

  /** The number of entries `Dedup` keeps is the number of distinct elements. */
  lemma {:induction false} DedupCardinality<T>(s: seq<T>)
    ensures |Dedup(s)| == |set x | x in s|
  {
    if s != [] {
      var init := s[..|s| - 1];
      DedupCardinality(init);
      DedupSpec(init);
      var last := s[|s| - 1];
      assert (set x | x in s) == (set x | x in init) + {last} by {
        assert s == init + [last];
      }
      if last in init {
        assert Dedup(s) == Dedup(init);
        assert (set x | x in init) + {last} == (set x | x in init);
      } else {
        assert Dedup(s) == Dedup(init) + [last];
        assert last !in (set x | x in init);
      }
    }
  }

  /** The dict built from pairs has the pair keys in order of first occurrence. */
  lemma {:induction false} FromPairsKeys<K, V>(ks: seq<K>, vs: seq<V>)
    requires |ks| == |vs|
    ensures Keys(FromPairs(ks, vs)) == Dedup(ks)
  {
    if ks != [] {
      FromPairsKeys(ks[..|ks| - 1], vs[..|vs| - 1]);
    }
  }

  /** The dict built from pairs maps each key to the value of its LAST pair. */
  lemma {:induction false} FromPairsGet<K, V>(ks: seq<K>, vs: seq<V>, k: K)
    requires |ks| == |vs|
    ensures Get(FromPairs(ks, vs), k) == if k in ks then Some(vs[LastIndex(ks, k)]) else None
  {
    if ks != [] {
      var n := |ks| - 1;
      var ks', vs' := ks[..n], vs[..n];
      var prev := FromPairs(ks', vs');
      assert FromPairs(ks, vs) == Set(prev, ks[n], vs[n]);
      if k == ks[n] {
        SetGetSame(prev, ks[n], vs[n]);
      } else {
        SetGetOther(prev, ks[n], vs[n], k);
        FromPairsGet(ks', vs', k);
        InInit(ks, k);
        if k in ks' {
          LastIndexInit(ks, k);
          var i := LastIndex(ks', k);
          assert vs'[i] == vs[i];
        }
      }
    }
  }

  /** An element other than the last one occurs in `s` exactly when it occurs before the last position. */
  lemma InInit<T>(s: seq<T>, x: T)
    requires s != [] && s[|s| - 1] != x
    ensures x in s <==> x in s[..|s| - 1]
  {
    assert s == s[..|s| - 1] + [s[|s| - 1]];
  }

  /** The last occurrence of an element other than the last one is found before the last position. */
  lemma LastIndexInit<T>(s: seq<T>, x: T)
    requires s != [] && s[|s| - 1] != x && x in s[..|s| - 1]
    ensures x in s && LastIndex(s, x) == LastIndex(s[..|s| - 1], x)
  {
  }
}
