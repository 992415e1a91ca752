/**
 * Python's `dict`: a mapping that remembers the order in which its keys were
 * first inserted. Assigning to a present key replaces the value where it
 * stands; assigning to a new key appends it. Every dictionary the pipeline
 * builds is a value of this type.
 */
module Dicts {
  import opened Common

  /** The `(key, value)` pairs of a dict in insertion order. */
  type Dict<K, V> = seq<(K, V)>

  function Keys<K, V>(d: Dict<K, V>): (ks: seq<K>)
    ensures |ks| == |d|
    ensures forall i :: 0 <= i < |d| ==> ks[i] == d[i].0
  {
    seq(|d|, i requires 0 <= i < |d| => d[i].0)
  }

  function Values<K, V>(d: Dict<K, V>): (vs: seq<V>)
    ensures |vs| == |d|
    ensures forall i :: 0 <= i < |d| ==> vs[i] == d[i].1
  {
    seq(|d|, i requires 0 <= i < |d| => d[i].1)
  }

  /** A well-formed dict: no key occurs twice. */
  ghost predicate Valid<K, V>(d: Dict<K, V>)
  {
    Distinct(Keys(d))
  }

  /** `d.get(k)`: the value stored under `k`, if any. */
  function Get<K(==), V>(d: Dict<K, V>, k: K): (r: Option<V>)
    ensures r.Some? <==> k in Keys(d)
    ensures r.Some? ==> exists i :: 0 <= i < |d| && d[i] == (k, r.value)
  {
    match FirstIndex(Keys(d), k)
    case Some(i) => Some(d[i].1)
    case None => None
  }

  /** `d[k] = v`: replace the value of a present key in place, or append a new key. */
  function Put<K(==, !new), V>(d: Dict<K, V>, k: K, v: V): (r: Dict<K, V>)
    ensures Keys(r) == if k in Keys(d) then Keys(d) else Keys(d) + [k]
    ensures Get(r, k) == Some(v)
    ensures forall k' :: k' != k ==> Get(r, k') == Get(d, k')
    ensures Valid(d) ==> Valid(r)
  {
    match FirstIndex(Keys(d), k)
    case Some(i) =>
      var r := d[i := (k, v)];
      assert Keys(r) == Keys(d);
      r
    case None =>
      var r := d + [(k, v)];
      assert Keys(r) == Keys(d) + [k];
      FirstIndexAppend(Keys(d), k);
      forall k' | k' != k ensures Get(r, k') == Get(d, k') {
        FirstIndexAppend(Keys(d), k');
      }
      r
  }

  /** Appending an element does not move the first occurrence of anything already present. */
  lemma FirstIndexAppend<T>(s: seq<T>, x: T)
    ensures x in s ==> FirstIndex(s + [x], x) == FirstIndex(s, x)
    ensures x !in s ==> FirstIndex(s + [x], x) == Some(|s|)
    ensures forall y :: y != x ==> FirstIndex(s + [x], y) == FirstIndex(s, y)
  {
    FirstIndexAppendAt(s, x, x);
    forall y | y != x ensures FirstIndex(s + [x], y) == FirstIndex(s, y) {
      FirstIndexAppendAt(s, x, y);
    }
  }

  /** Where `y` first occurs once `x` is appended. */
  lemma FirstIndexAppendAt<T>(s: seq<T>, x: T, y: T)
    ensures FirstIndex(s + [x], y) == if y in s then FirstIndex(s, y) else if y == x then Some(|s|) else None
  {
    if y in s {
      FirstIndexAppendPresent(s, x, y);
    } else if y == x {
      FirstIndexAppendNew(s, x);
    } else {
      FirstIndexAppendAbsent(s, x, y);
    }
  }

  /** An element already present keeps its first position. */
  lemma {:induction false} FirstIndexAppendPresent<T>(s: seq<T>, x: T, y: T)
    requires y in s
    ensures FirstIndex(s + [x], y) == FirstIndex(s, y)
    decreases |s|
  {
    if s[0] != y {
      assert (s + [x])[1..] == s[1..] + [x];
      assert y in s[1..];
      FirstIndexAppendPresent(s[1..], x, y);
    }
  }

  /** A new element is first found at the end. */
  lemma FirstIndexAppendNew<T>(s: seq<T>, x: T)
    requires x !in s
    ensures FirstIndex(s + [x], x) == Some(|s|)
  {
    var t := s + [x];
    assert t[|s|] == x;
    assert forall k :: 0 <= k < |s| ==> t[k] == s[k] && s[k] != x;
  }

  /** An element that is neither present nor appended is still absent. */
  lemma FirstIndexAppendAbsent<T>(s: seq<T>, x: T, y: T)
    requires y !in s && y != x
    ensures FirstIndex(s + [x], y) == None
  {
    var t := s + [x];
    forall k | 0 <= k < |t| ensures t[k] != y {
      if k < |s| { assert t[k] == s[k]; }
    }
  }

  /** Storing never removes a key, and the stored key is present afterwards. */
  lemma PutKeeps<K(!new), V>(d: Dict<K, V>, k: K, v: V)
    ensures k in Keys(Put(d, k, v))
    ensures forall k' :: k' in Keys(d) ==> k' in Keys(Put(d, k, v))
  {
  }

  /** Storing under a key that is not yet present appends the pair. */
  lemma PutNew<K(!new), V>(d: Dict<K, V>, k: K, v: V)
    requires k !in Keys(d)
    ensures Put(d, k, v) == d + [(k, v)]
  {
  }

  /** Storing under the key of the last pair, when that key occurs nowhere else, replaces that pair. */
  lemma PutLast<K(!new), V>(d: Dict<K, V>, k: K, v: V, w: V)
    requires k !in Keys(d)
    ensures Keys(d + [(k, v)]) == Keys(d) + [k]
    ensures Get(d + [(k, v)], k) == Some(v)
    ensures Put(d + [(k, v)], k, w) == d + [(k, w)]
  {
    var e := d + [(k, v)];
    assert Keys(e) == Keys(d) + [k];
    FirstIndexAppend(Keys(d), k);
  }

  /** In a well-formed dict the value stored under the key at position `i` is the one at position `i`. */
  lemma GetAt<K, V>(d: Dict<K, V>, i: nat)
    requires Valid(d) && i < |d|
    ensures Get(d, d[i].0) == Some(d[i].1)
  {
    var k := d[i].0;
    var j :| 0 <= j < |d| && d[j] == (k, Get(d, k).value);
    assert Keys(d)[i] == Keys(d)[j];
  }
}
