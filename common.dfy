/**
 * Values shared by every stage of the face-palette clustering pipeline:
 * images, pixel colours, possibly-NaN floats and the exceptions that can
 * escape a stage.
 */
module Common {

  datatype Option<T> = None | Some(value: T)

  /** The Python exceptions that can escape a stage of the pipeline. */
  datatype Failure =
    | TypeError   // a value that is not a Pillow image reaches an image loader
    | IndexError  // an index past the end of a list or a tensor
    | ValueError  // max() of nothing, an inhomogeneous numpy array, a failed KMeans fit
    | KeyError    // a dictionary lookup of a missing key

  /** The result of a computation that may raise. */
  datatype Outcome<T> = Ok(value: T) | Raised(error: Failure)

  /** One 8-bit channel, as numpy reads it out of an RGB Pillow image. */
  type Byte = x: int | 0 <= x < 256

  datatype Rgb = Rgb(r: Byte, g: Byte, b: Byte)

  /**
   * An image as the pipeline passes it around: `isPil` tells whether the
   * object is a Pillow image (the loaders raise TypeError otherwise), and
   * `pixels` holds its rows of RGB pixels.
   */
  datatype Picture = Picture(isPil: bool, pixels: seq<seq<Rgb>>)

  /** One `[name, image]` entry of the work list. */
  datatype NamedImage = NamedImage(name: string, pic: Picture)

  /** A floating-point number that may be NaN. */
  datatype Num = Num(v: real) | NaN

  /** Position of the first element equal to `x`, as Python's `list.index` finds it. */
  function FirstIndex<T(==)>(s: seq<T>, x: T): (r: Option<nat>)
    ensures r.Some? ==> r.value < |s| && s[r.value] == x
    ensures r.Some? ==> forall j :: 0 <= j < r.value ==> s[j] != x
    ensures r.None? <==> x !in s
  {
    if |s| == 0 then None
    else if s[0] == x then Some(0)
    else match FirstIndex(s[1..], x)
      case None => None
      case Some(i) => Some(i + 1)
  }

  /** An element that occurs at `i` and nowhere before is first found at `i`. */
  lemma {:induction false} FirstIndexAt<T>(s: seq<T>, x: T, i: nat)
    requires i < |s| && s[i] == x
    requires forall j :: 0 <= j < i ==> s[j] != x
    ensures FirstIndex(s, x) == Some(i)
  {
    if i > 0 {
      FirstIndexAt(s[1..], x, i - 1);
    }
  }

  /** No element occurs twice. */
  ghost predicate Distinct<T>(s: seq<T>)
  {
    forall i, j :: 0 <= i < j < |s| ==> s[i] != s[j]
  }

  /** A sequence without repetitions whose elements all occur in `b` is no longer than `b`. */
  lemma {:induction false} DistinctWithin<T>(a: seq<T>, b: seq<T>)
    requires Distinct(a) && forall x :: x in a ==> x in b
    ensures |a| <= |b|
    decreases |a|
  {
    if a != [] {
      var n := |a| - 1;
      assert a[n] in a;
      var k :| 0 <= k < |b| && b[k] == a[n];
      var a', b' := a[..n], b[..k] + b[k + 1..];
      forall y | y in a' ensures y in b' {
        var i :| 0 <= i < n && a'[i] == y;
        assert a[i] == y && y != a[n] && a[i] in a;
        var j :| 0 <= j < |b| && b[j] == y;
        if j < k {
          assert b'[j] == y;
        } else {
          assert b'[j - 1] == y;
        }
      }
      assert forall i, j :: 0 <= i < j < n ==> a'[i] == a[i] && a'[j] == a[j];
      DistinctWithin(a', b');
    }
  }

  /** `a` is `b` with some elements left out, the rest in their order. */
  ghost predicate SubsequenceOf<T>(a: seq<T>, b: seq<T>)
    decreases |b|
  {
    if a == [] then true
    else if b == [] then false
    else if a[|a| - 1] == b[|b| - 1] then SubsequenceOf(a[..|a| - 1], b[..|b| - 1])
    else SubsequenceOf(a, b[..|b| - 1])
  }

  /** Every element of a subsequence is an element of the whole. */
  lemma {:induction false} SubsequenceElements<T>(a: seq<T>, b: seq<T>, x: T)
    requires SubsequenceOf(a, b) && x in a
    ensures x in b
    decreases |b|
  {
    if a[|a| - 1] == b[|b| - 1] {
      if x == a[|a| - 1] {
        assert b[|b| - 1] in b;
      } else {
        assert x in a[..|a| - 1];
        SubsequenceElements(a[..|a| - 1], b[..|b| - 1], x);
        assert b[..|b| - 1] <= b;
      }
    } else {
      SubsequenceElements(a, b[..|b| - 1], x);
      assert b[..|b| - 1] <= b;
    }
  }

  /** A subsequence stays one when both sides gain the same last element, and when only the whole gains an element it does not contain. */
  lemma SubsequenceAppend<T>(a: seq<T>, b: seq<T>, x: T)
    requires SubsequenceOf(a, b)
    ensures SubsequenceOf(a + [x], b + [x])
    ensures x !in a ==> SubsequenceOf(a, b + [x])
  {
    assert (a + [x])[..|a|] == a;
    assert (b + [x])[..|b|] == b;
  }

  /** A prefix one longer is the prefix followed by the next element. */
  lemma TakeExtend<T>(s: seq<T>, i: nat)
    requires i < |s|
    ensures s[..i + 1] == s[..i] + [s[i]]
  {
  }

  /** A sequence one longer than `s` that agrees with it and ends in `x` is `s + [x]`. */
  lemma AppendEquals<T>(s: seq<T>, x: T, t: seq<T>)
    requires |t| == |s| + 1 && t[|s|] == x
    requires forall i :: 0 <= i < |s| ==> t[i] == s[i]
    ensures s + [x] == t
  {
  }

  /** The first `n` elements of `xs` whose key in `keys` is `key`, in order. */
  function Selected<T, K(==)>(xs: seq<T>, keys: seq<K>, n: nat, key: K): seq<T>
    requires n <= |xs| && n <= |keys|
  {
    if n == 0 then []
    else Selected(xs, keys, n - 1, key) + (if keys[n - 1] == key then [xs[n - 1]] else [])
  }

  /** An element that none of the first `n` positions holds is not selected among them. */
  lemma {:induction false} SelectedOnlyFrom<T, K>(xs: seq<T>, keys: seq<K>, n: nat, x: T, key: K)
    requires n <= |xs| && n <= |keys| && forall k :: 0 <= k < n ==> xs[k] != x
    ensures x !in Selected(xs, keys, n, key)
  {
    if n > 0 {
      SelectedOnlyFrom(xs, keys, n - 1, x, key);
    }
  }

  /** With distinct elements, element `j` is selected exactly when its key is `key`. */
  lemma {:induction false} SelectedExactly<T, K>(xs: seq<T>, keys: seq<K>, n: nat, j: nat, key: K)
    requires n <= |xs| && n <= |keys| && Distinct(xs) && j < n
    ensures xs[j] in Selected(xs, keys, n, key) <==> keys[j] == key
  {
    if j < n - 1 {
      SelectedExactly(xs, keys, n - 1, j, key);
      assert xs[n - 1] != xs[j];
    } else {
      SelectedOnlyFrom(xs, keys, n - 1, xs[j], key);
    }
  }
}
