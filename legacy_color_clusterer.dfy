/**
 * The earlier `ColorClusterer` of the `cluster` package. Its
 * `_extract_colors` is the one of the clustering package
 * (`ColorClusterer.ExtractColors`); its `cluster` keys the dict by the
 * integer cluster ids 0 ... 11 and stores, under each, only the names of
 * the images labelled with it: no centroids.
 */
module LegacyColorClusterer {
  import opened Common
  import opened Dicts
  import opened ColorExtraction
  import CC = ColorClusterer

  /** Row `j` cannot be listed: it has no name (IndexError) or its label is no cluster id (KeyError). */
  predicate Unlisted(names: seq<string>, labels: seq<int>, j: nat)
    requires j < |labels|
  {
    j >= |names| || !(0 <= labels[j] < CC.Clusters)
  }

  /** The first row from `j` on that the listing loop cannot list. */
  function FirstUnlisted(names: seq<string>, labels: seq<int>, j: nat): (r: Option<nat>)
    ensures r.Some? ==> j <= r.value < |labels| && Unlisted(names, labels, r.value)
    ensures forall k :: j <= k < |labels| && (r.None? || k < r.value) ==> !Unlisted(names, labels, k)
    decreases |labels| - j
  {
    if j >= |labels| then None
    else if Unlisted(names, labels, j) then Some(j)
    else FirstUnlisted(names, labels, j + 1)
  }

  /** The names of the first `n` rows labelled `id`, in row order. */
  function WithLabel(names: seq<string>, labels: seq<int>, n: nat, id: int): seq<string>
    requires n <= |names| && n <= |labels|
  {
    if n == 0 then []
    else WithLabel(names, labels, n - 1, id) + (if labels[n - 1] == id then [names[n - 1]] else [])
  }

  /** `cluster_dict` after the first `n` labels of the initialising loop: ids `0 .. n-1`, each with no names. */
  function EmptyLists(n: nat): Dict<int, seq<string>>
  {
    seq(n, l requires 0 <= l < n => (l, []))
  }

  /** `cluster_dict` once the first `n` rows are listed: id `l` with the names of the rows labelled `l`. */
  function Lists(names: seq<string>, labels: seq<int>, n: nat): Dict<int, seq<string>>
    requires n <= |names| && n <= |labels|
  {
    seq(CC.Clusters, l requires 0 <= l < CC.Clusters => (l, WithLabel(names, labels, n, l)))
  }

  /** The listing loop: the error of the first row it cannot list, or every name under its label. */
  function Listed(names: seq<string>, labels: seq<int>): Outcome<Dict<int, seq<string>>>
  {
    match FirstUnlisted(names, labels, 0)
    case Some(j) => Raised(if j >= |names| then IndexError else KeyError)
    case None =>
      assert |labels| == 0 || !Unlisted(names, labels, |labels| - 1);
      Ok(Lists(names, labels, |labels|))
  }

  /** What `cluster` returns once `_extract_colors` has returned `a`. */
  function ClusteredRows(a: CC.Assembled, fit: CC.ClusterFit): Outcome<Dict<int, seq<string>>>
  {
    match CC.FitOfRows(a, fit)
    case None => Raised(ValueError)
    case Some(f) => Listed(CC.Names(a), f.labels)
  }

  /** What `cluster(colors)` returns. */
  function Clustered(table: ColorTable, fit: CC.ClusterFit): Outcome<Dict<int, seq<string>>>
  {
    match CC.AssembledColors(table)
    case Raised(e) => Raised(e)
    case Ok(a) => ClusteredRows(a, fit)
  }

  /** One pass of the initialising loop: storing id `n` appends it, since no earlier key is `n`. */
  lemma EmptyListsStep(n: nat)
    ensures Put(EmptyLists(n), n, []) == EmptyLists(n + 1)
  {
    var prev := EmptyLists(n);
    assert n !in Keys(prev) by {
      forall l | 0 <= l < n ensures Keys(prev)[l] != n {
      }
    }
    PutNew(prev, n, []);
    AppendEquals(prev, (n, []), EmptyLists(n + 1));
  }

  /** The listing dict holds exactly the ids 0 ... 11, in order, and before any row is listed each has no names. */
  lemma ListsKeys(names: seq<string>, labels: seq<int>, n: nat)
    requires n <= |names| && n <= |labels|
    ensures var keys := Keys(Lists(names, labels, n));
      && |keys| == CC.Clusters
      && (forall l :: 0 <= l < CC.Clusters ==> keys[l] == l)
      && (forall x :: x in keys <==> 0 <= x < CC.Clusters)
      && Valid(Lists(names, labels, n))
    ensures Lists(names, labels, 0) == EmptyLists(CC.Clusters)
  {
    var keys := Keys(Lists(names, labels, n));
    forall x | x in keys ensures 0 <= x < CC.Clusters {
      var l :| 0 <= l < |keys| && keys[l] == x;
    }
    forall x | 0 <= x < CC.Clusters ensures x in keys {
      assert keys[x] == x;
    }
  }

  /** One pass of the listing loop: appending the name of row `n` under its label lists `n + 1` rows. */
  lemma ListsStep(names: seq<string>, labels: seq<int>, n: nat)
    requires n < |names| && n < |labels| && 0 <= labels[n] < CC.Clusters
    ensures labels[n] in Keys(Lists(names, labels, n))
    ensures var g := Lists(names, labels, n);
      Put(g, labels[n], Get(g, labels[n]).value + [names[n]]) == Lists(names, labels, n + 1)
  {
    var id := labels[n];
    var g := Lists(names, labels, n);
    ListsKeys(names, labels, n);
    var p := FirstIndex(Keys(g), id).value;
    assert p == id by {
      assert Keys(g)[id] == id;
    }
    var v := Get(g, id).value + [names[n]];
    assert Put(g, id, v) == g[id := (id, v)];
    var h := Lists(names, labels, n + 1);
    forall q | 0 <= q < CC.Clusters ensures g[id := (id, v)][q] == h[q] {
      if q != id {
        var m := WithLabel(names, labels, n, q);
        assert WithLabel(names, labels, n + 1, q) == m + [];
        assert m + [] == m;
      }
    }
  }

  /**
   * Once the fit has labelled the rows, `cluster` succeeds exactly when
   * every label is a cluster id 0 ... 11 and no label lacks an image; its
   * result then has exactly the keys 0 ... 11, in order, and id `l` maps to
   * the names of the images labelled `l`, in row order (names only: no
   * centroid is kept).
   */
  lemma ClusteredRowsResult(a: CC.Assembled, fit: CC.ClusterFit)
    requires CC.FitOfRows(a, fit).Some?
    ensures var labels := CC.FitOfRows(a, fit).value.labels;
      var r := ClusteredRows(a, fit);
      && (r.Ok? <==> |labels| <= |a.named| && forall j :: 0 <= j < |labels| ==> 0 <= labels[j] < CC.Clusters)
      && (r.Ok? ==>
            && |Keys(r.value)| == CC.Clusters
            && (forall l :: 0 <= l < CC.Clusters ==> Keys(r.value)[l] == l)
            && forall l :: 0 <= l < CC.Clusters ==> Get(r.value, l) == Some(WithLabel(CC.Names(a), labels, |labels|, l)))
  {
    var labels := CC.FitOfRows(a, fit).value.labels;
    var names := CC.Names(a);
    if |labels| > |names| {
      assert Unlisted(names, labels, |names|);
    }
    if !forall j :: 0 <= j < |labels| ==> 0 <= labels[j] < CC.Clusters {
      var j :| 0 <= j < |labels| && !(0 <= labels[j] < CC.Clusters);
      assert Unlisted(names, labels, j);
    }
    var r := ClusteredRows(a, fit);
    if r.Ok? {
      var g := Lists(names, labels, |labels|);
      assert r.value == g;
      ListsKeys(names, labels, |labels|);
      forall l | 0 <= l < CC.Clusters ensures Get(g, l) == Some(WithLabel(names, labels, |labels|, l)) {
        GetAt(g, l);
      }
    }
  }

  /** `cluster` on a table: the same, with the table's image names in table order. */
  lemma ClusteredResult(table: ColorTable, fit: CC.ClusterFit)
    requires CC.FitOf(table, fit).Some?
    ensures var labels := CC.FitOf(table, fit).value.labels;
      var r := Clustered(table, fit);
      && (r.Ok? <==> |labels| <= |table| && forall j :: 0 <= j < |labels| ==> 0 <= labels[j] < CC.Clusters)
      && (r.Ok? ==>
            && |Keys(r.value)| == CC.Clusters
            && (forall l :: 0 <= l < CC.Clusters ==> Keys(r.value)[l] == l)
            && forall l :: 0 <= l < CC.Clusters ==> Get(r.value, l) == Some(WithLabel(Keys(table), labels, |labels|, l)))
  {
    var a := CC.AssembledColors(table).value;
    CC.AssembledShape(table);
    assert CC.Names(a) == Keys(table);
    ClusteredRowsResult(a, fit);
  }

  /** With a twelve-means fit, `cluster` succeeds whenever the fit does, and raises ValueError on fewer than twelve images. */
  lemma TwelveMeansListed(table: ColorTable, fit: CC.ClusterFit)
    requires CC.TwelveMeans(fit)
    ensures CC.FitOf(table, fit).Some? ==> Clustered(table, fit).Ok?
    ensures |table| < CC.Clusters ==> Clustered(table, fit) == Raised(ValueError)
  {
    if CC.FitOf(table, fit).Some? {
      CC.TwelveMeansClustered(table, fit);
      ClusteredResult(table, fit);
    }
    if |table| < CC.Clusters {
      CC.TwelveMeansTooFew(table, fit);
    }
  }

  /**
   * Each labelled image is listed exactly once, under its label: when
   * `cluster` succeeds, the name of image `i` is listed under id `l`
   * exactly when image `i` is labelled `l`.
   */
  lemma EachImageListedOnce(table: ColorTable, fit: CC.ClusterFit, i: nat, l: nat)
    requires Valid(table) && l < CC.Clusters
    requires CC.FitOf(table, fit).Some?
    requires i < |table| && i < |CC.FitOf(table, fit).value.labels|
    requires Clustered(table, fit).Ok?
    ensures Get(Clustered(table, fit).value, l).Some?
    ensures table[i].0 in Get(Clustered(table, fit).value, l).value <==> CC.FitOf(table, fit).value.labels[i] == l
  {
    var labels := CC.FitOf(table, fit).value.labels;
    ClusteredResult(table, fit);
    WithLabelExactlyOnce(Keys(table), labels, |labels|, i, l);
  }

  /** Among the first `n` rows, the name of row `j` is listed under `l` exactly when row `j` is labelled `l`. */
  lemma {:induction false} WithLabelExactlyOnce(names: seq<string>, labels: seq<int>, n: nat, j: nat, l: int)
    requires n <= |names| && n <= |labels| && Distinct(names) && j < n
    ensures names[j] in WithLabel(names, labels, n, l) <==> labels[j] == l
  {
    if j < n - 1 {
      WithLabelExactlyOnce(names, labels, n - 1, j, l);
      assert names[n - 1] != names[j];
    } else {
      WithLabelAmong(names, labels, n - 1, names[j], l);
    }
  }

  /** A name that none of the first `n` rows carries is listed under no id among them. */
  lemma {:induction false} WithLabelAmong(names: seq<string>, labels: seq<int>, n: nat, x: string, l: int)
    requires n <= |names| && n <= |labels| && forall k :: 0 <= k < n ==> names[k] != x
    ensures x !in WithLabel(names, labels, n, l)
  {
    if n > 0 {
      WithLabelAmong(names, labels, n - 1, x, l);
    }
  }

  class ColorClusterer {
    const fit: CC.ClusterFit

    constructor (fit: CC.ClusterFit)
      ensures this.fit == fit
    {
      this.fit := fit;
    }

    /** `cluster`: assemble, fit, then list every row's name under its label. */
    method Cluster(table: ColorTable) returns (r: Outcome<Dict<int, seq<string>>>)
      ensures r == Clustered(table, fit)
    {
      var assembled := CC.ExtractColors(table);
      if assembled.Raised? {
        return Raised(assembled.error);
      }
      r := ClusterRows(assembled.value);
    }

    /** `cluster` from the fit on: the twelve empty lists, then the listing loop. */
    method ClusterRows(a: CC.Assembled) returns (r: Outcome<Dict<int, seq<string>>>)
      ensures r == ClusteredRows(a, fit)
    {
      var features := CC.Features(a.rows);
      if features.None? {
        return Raised(ValueError);
      }
      if features.value != [] && features.value[0] == [] {
        return Raised(ValueError);
      }
      var fitted := fit(features.value);
      if fitted.None? {
        return Raised(ValueError);
      }
      var labels := fitted.value.labels;
      var lists: Dict<int, seq<string>> := [];
      for l := 0 to CC.Clusters
        invariant lists == EmptyLists(l)
      {
        EmptyListsStep(l);
        lists := Put(lists, l, []);
      }
      ListsKeys(CC.Names(a), labels, 0);
      r := ListRows(lists, a, labels);
    }

    /** The listing loop of `cluster`: append every row's image name to the list its label names. */
    method ListRows(init: Dict<int, seq<string>>, a: CC.Assembled, labels: seq<int>) returns (r: Outcome<Dict<int, seq<string>>>)
      requires init == Lists(CC.Names(a), labels, 0)
      ensures r == Listed(CC.Names(a), labels)
    {
      ghost var names := CC.Names(a);
      var lists := init;
      for i := 0 to |labels|
        invariant i <= |names|
        invariant forall j :: 0 <= j < i ==> !Unlisted(names, labels, j)
        invariant lists == Lists(names, labels, i)
      {
        if i >= |a.named| {
          assert Unlisted(names, labels, i);
          return Raised(IndexError);
        }
        var name := a.named[i].0;
        var id := labels[i];
        ListsKeys(names, labels, i);
        if id !in Keys(lists) {
          assert Unlisted(names, labels, i);
          return Raised(KeyError);
        }
        ListsStep(names, labels, i);
        lists := Put(lists, id, Get(lists, id).value + [name]);
      }
      return Ok(lists);
    }
  }
}
