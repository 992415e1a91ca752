/**
 * Assembly of the feature matrix and grouping of images by cluster
 * (`ColorClusterer` of the clustering package).
 *
 * `_extract_colors` turns the colour table into one row per image: the
 * image's swatches in class order, every swatch containing a NaN replaced by
 * the image's mean swatch, padded with that mean up to the largest class
 * count of any image. `cluster` flattens the rows, lets a twelve-means fit
 * label them, and builds the dict `cluster_0` ... `cluster_11`, each with
 * its rounded centroid and the names of the images labelled with it.
 *
 * The twelve-means fit is a parameter. numpy's shape rules are modelled as
 * the ValueError they raise: a ragged set of swatches, or an image without
 * classes next to images with some.
 */
module ColorClusterer {
  import opened Common
  import opened Python
  import opened Dicts
  import opened ColorExtraction

  /** `KMeans(n_clusters=12)`. */
  const Clusters: nat := 12

  /** What the twelve-means fit yields: `fit_predict`'s labels and `cluster_centers_`. */
  datatype KMeansFit = KMeansFit(labels: seq<int>, centers: seq<seq<real>>)

  /** `KMeans(n_clusters=12, random_state=42).fit_predict(features)`, or None when fitting raises. */
  type ClusterFit = seq<seq<real>> -> Option<KMeansFit>

  /**
   * What scikit-learn documents of `KMeans(n_clusters=12).fit_predict`: it
   * raises ValueError on fewer than twelve samples, and a successful fit
   * labels every sample with a cluster id 0..11 and has twelve centroids.
   */
  ghost predicate TwelveMeans(fit: ClusterFit)
  {
    forall rows ::
      && (|rows| < Clusters ==> fit(rows).None?)
      && (fit(rows).Some? ==>
            && |fit(rows).value.labels| == |rows|
            && |fit(rows).value.centers| == Clusters
            && forall j :: 0 <= j < |rows| ==> 0 <= fit(rows).value.labels[j] < Clusters)
  }

  /** The two results of `_extract_colors`: the rows of the matrix and `colors_with_images`. */
  datatype Assembled = Assembled(rows: seq<seq<Swatch>>, named: seq<(string, seq<Swatch>)>)

  /** One value of the result of `cluster`. */
  datatype ClusterInfo = ClusterInfo(centroid: seq<real>, images: seq<string>)

  // ---------------------------------------------------------------------
  // _extract_colors
  // ---------------------------------------------------------------------

  /** `max(len(faces) for faces in colors.values())`, defined for a non-empty table. */
  function MaxRegions(table: ColorTable): (m: nat)
    requires table != []
    ensures forall i :: 0 <= i < |table| ==> |table[i].1| <= m
    ensures exists i :: 0 <= i < |table| && |table[i].1| == m
    decreases |table|
  {
    if |table| == 1 then |table[0].1|
    else
      var m := MaxRegions(table[1..]);
      assert forall i :: 1 <= i < |table| ==> table[i] == table[1..][i - 1];
      if |table[0].1| > m then |table[0].1| else m
  }

  /** `np.any(np.isnan(color))`. */
  predicate HasNaN(sw: Swatch)
  {
    NaN in sw
  }

  /** Every swatch has `w` values. */
  predicate SameWidth(sws: seq<Swatch>, w: nat)
  {
    forall k :: 0 <= k < |sws| ==> |sws[k]| == w
  }

  /** The value of a swatch at coordinate `c`, when it has one. */
  function At(sw: Swatch, c: nat): Num
  {
    if c < |sw| then sw[c] else Num(0.0)
  }

  /** The sum of the non-NaN values at coordinate `c`. */
  function SumAt(sws: seq<Swatch>, c: nat): real
    decreases |sws|
  {
    if sws == [] then 0.0
    else
      var v := At(sws[|sws| - 1], c);
      SumAt(sws[..|sws| - 1], c) + (if v.Num? then v.v else 0.0)
  }

  /** `np.mean(image_colors, axis=0)` over `w` coordinates: the coordinate-wise mean, NaN wherever some swatch is NaN. */
  function ImageMean(sws: seq<Swatch>, w: nat): (mean: Swatch)
    requires sws != []
    ensures |mean| == w
    ensures forall c :: 0 <= c < w ==> (mean[c] == NaN <==> exists k :: 0 <= k < |sws| && At(sws[k], c) == NaN)
    ensures forall c :: 0 <= c < w && mean[c] != NaN ==> mean[c] == Num(SumAt(sws, c) / |sws| as real)
  {
    seq(w, c requires 0 <= c < w =>
      if exists k :: 0 <= k < |sws| && At(sws[k], c) == NaN then NaN else Num(SumAt(sws, c) / |sws| as real))
  }

  /** Line 42: every swatch containing a NaN replaced by the mean. */
  function Imputed(sws: seq<Swatch>, mean: Swatch): (r: seq<Swatch>)
    ensures |r| == |sws|
    ensures forall k :: 0 <= k < |sws| && !HasNaN(sws[k]) ==> r[k] == sws[k]
    ensures forall k :: 0 <= k < |sws| && HasNaN(sws[k]) ==> r[k] == mean
  {
    seq(|sws|, k requires 0 <= k < |sws| => if HasNaN(sws[k]) then mean else sws[k])
  }

  /** `n` copies of the mean: the padding of lines 47-48. */
  function Padding(mean: Swatch, n: nat): (r: seq<Swatch>)
    ensures |r| == n && forall k :: 0 <= k < n ==> r[k] == mean
  {
    seq(n, _ => mean)
  }

  /**
   * One row of the matrix: imputed, truncated to `maxLen` and padded with
   * the mean to `maxLen`. An image without classes gives an empty row (it
   * only gets this far when `maxLen` is 0).
   */
  function ImageRow(sws: seq<Swatch>, maxLen: nat): (row: seq<Swatch>)
  {
    if sws == [] then []
    else
      var mean := ImageMean(sws, |sws[0]|);
      var kept := Slice(Imputed(sws, mean), 0, maxLen);
      kept + Padding(mean, maxLen - |kept|)
  }

  /** An image numpy accepts: it has classes unless no image has any, and its swatches share one width. */
  predicate ImageOk(sws: seq<Swatch>, maxLen: nat)
  {
    (sws == [] ==> maxLen == 0) && (sws != [] ==> SameWidth(sws, |sws[0]|))
  }

  /** Every image of the table is one numpy accepts. */
  predicate ImagesOk(table: ColorTable, maxLen: nat)
    decreases |table|
  {
    table == [] || (ImagesOk(table[..|table| - 1], maxLen) && ImageOk(Values(table[|table| - 1].1), maxLen))
  }

  /** `ImagesOk` holds exactly when every image is accepted. */
  lemma {:induction false} ImagesOkEach(table: ColorTable, maxLen: nat)
    ensures ImagesOk(table, maxLen) <==> forall i :: 0 <= i < |table| ==> ImageOk(Values(table[i].1), maxLen)
    decreases |table|
  {
    if table != [] {
      var init := table[..|table| - 1];
      ImagesOkEach(init, maxLen);
      assert forall i :: 0 <= i < |init| ==> init[i] == table[i];
    }
  }

  /** A table whose prefix has an image numpy rejects has one too. */
  lemma {:induction false} ImagesOkPrefix(table: ColorTable, n: nat, maxLen: nat)
    requires n <= |table| && ImagesOk(table, maxLen)
    ensures ImagesOk(table[..n], maxLen)
    decreases |table|
  {
    if n < |table| {
      var init := table[..|table| - 1];
      ImagesOkPrefix(init, n, maxLen);
      assert init[..n] == table[..n];
    } else {
      assert table[..n] == table;
    }
  }

  /** The width of the first swatch of the table, or 0 when it has none. */
  function TableWidth(table: ColorTable): nat
    decreases |table|
  {
    if table == [] then 0
    else if table[0].1 != [] then |table[0].1[0].1|
    else TableWidth(table[1..])
  }

  /** Every swatch in the table has the same width, as `np.array` needs for a regular array. */
  predicate Rectangular(table: ColorTable)
  {
    forall i :: 0 <= i < |table| ==> SameWidth(Values(table[i].1), TableWidth(table))
  }

  /** What `_extract_colors` returns; ValueError from `max` of nothing or from numpy's shape checks. */
  function AssembledColors(table: ColorTable): Outcome<Assembled>
  {
    if table == [] then Raised(ValueError)
    else
      var maxLen := MaxRegions(table);
      if !(forall i :: 0 <= i < |table| ==> ImageOk(Values(table[i].1), maxLen)) || !Rectangular(table) then
        Raised(ValueError)
      else
        var rows := Rows(table, maxLen);
        Ok(Assembled(rows, Labelled(table, rows)))
  }

  /** One row per image of the table, in table order. */
  function Rows(table: ColorTable, maxLen: nat): (rows: seq<seq<Swatch>>)
    ensures |rows| == |table| && forall i :: 0 <= i < |table| ==> rows[i] == ImageRow(Values(table[i].1), maxLen)
    decreases |table|
  {
    if table == [] then []
    else
      var init := table[..|table| - 1];
      assert forall i :: 0 <= i < |init| ==> init[i] == table[i];
      Rows(init, maxLen) + [ImageRow(Values(table[|table| - 1].1), maxLen)]
  }

  /** `colors_with_images`: every image's name beside its row. */
  function Labelled(table: ColorTable, rows: seq<seq<Swatch>>): (named: seq<(string, seq<Swatch>)>)
    requires |rows| == |table|
    ensures |named| == |table| && forall i :: 0 <= i < |table| ==> named[i] == (table[i].0, rows[i])
    decreases |table|
  {
    if table == [] then []
    else
      var n := |table| - 1;
      assert forall i :: 0 <= i < n ==> table[..n][i] == table[i] && rows[..n][i] == rows[i];
      Labelled(table[..n], rows[..n]) + [(table[n].0, rows[n])]
  }

  /**
   * A row of the matrix keeps the image's swatches in class order, with
   * every swatch that holds a NaN replaced by the image's mean, and pads
   * with that mean: it has exactly `maxLen` entries whenever the image has
   * at most `maxLen` classes, so truncation drops nothing.
   */
  lemma ImageRowShape(sws: seq<Swatch>, maxLen: nat)
    requires sws != [] && SameWidth(sws, |sws[0]|) && |sws| <= maxLen
    ensures var row := ImageRow(sws, maxLen);
      var mean := ImageMean(sws, |sws[0]|);
      && |row| == maxLen
      && (forall k :: 0 <= k < |sws| && !HasNaN(sws[k]) ==> row[k] == sws[k])
      && (forall k :: 0 <= k < |sws| && HasNaN(sws[k]) ==> row[k] == mean)
      && (forall k :: |sws| <= k < maxLen ==> row[k] == mean)
      && SameWidth(row, |sws[0]|)
  {
  }

  /**
   * Imputation never removes a NaN: `np.mean` propagates it, so the mean
   * that replaces a swatch holding a NaN holds one too.
   */
  lemma ImputationKeepsNaN(sws: seq<Swatch>, maxLen: nat, k: nat)
    requires sws != [] && SameWidth(sws, |sws[0]|) && k < |sws| <= maxLen && HasNaN(sws[k])
    ensures HasNaN(ImageRow(sws, maxLen)[k])
  {
    var w := |sws[0]|;
    var mean := ImageMean(sws, w);
    var c :| 0 <= c < |sws[k]| && sws[k][c] == NaN;
    assert At(sws[k], c) == NaN;
    assert mean[c] == NaN;
  }

  /**
   * `_extract_colors` raises exactly when the table is empty or numpy
   * rejects the shapes; otherwise it returns one row per image, in table
   * order, each with `max_length` entries of one common width, and
   * `colors_with_images` pairs every image's name with its row.
   */
  lemma AssembledShape(table: ColorTable)
    ensures AssembledColors(table).Raised? <==>
      table == [] || !(forall i :: 0 <= i < |table| ==> ImageOk(Values(table[i].1), MaxRegions(table))) || !Rectangular(table)
    ensures AssembledColors(table).Ok? ==>
      var a := AssembledColors(table).value;
        && |a.rows| == |a.named| == |table|
        && forall i :: 0 <= i < |table| ==>
             && a.named[i] == (table[i].0, a.rows[i])
             && |a.rows[i]| == MaxRegions(table)
             && SameWidth(a.rows[i], TableWidth(table))
  {
    if AssembledColors(table).Ok? {
      var a := AssembledColors(table).value;
      var maxLen := MaxRegions(table);
      var w := TableWidth(table);
      forall i | 0 <= i < |table| ensures |a.rows[i]| == maxLen && SameWidth(a.rows[i], w) {
        RowShape(table, i);
      }
    }
  }

  /** The row of image `i` of an accepted table has `max_length` swatches of the table's width. */
  lemma RowShape(table: ColorTable, i: nat)
    requires i < |table| && ImageOk(Values(table[i].1), MaxRegions(table)) && Rectangular(table)
    ensures var row := ImageRow(Values(table[i].1), MaxRegions(table));
      |row| == MaxRegions(table) && SameWidth(row, TableWidth(table))
  {
    var sws := Values(table[i].1);
    assert SameWidth(sws, TableWidth(table));
    if sws != [] {
      ImageRowShape(sws, MaxRegions(table));
    }
  }

  // ---------------------------------------------------------------------
  // cluster
  // ---------------------------------------------------------------------

  /** One row of the matrix flattened, as `reshape(n, -1)` lays it out. */
  function FlatRow(row: seq<Swatch>): (flat: seq<Num>)
    ensures forall v :: v in flat <==> exists k :: 0 <= k < |row| && v in row[k]
    decreases |row|
  {
    if row == [] then []
    else
      var prev := FlatRow(row[..|row| - 1]);
      assert forall k :: 0 <= k < |row| - 1 ==> row[..|row| - 1][k] == row[k];
      prev + row[|row| - 1]
  }

  /** The numbers of a NaN-free sequence; None when it holds a NaN, which the fit rejects with ValueError. */
  function Reals(s: seq<Num>): (r: Option<seq<real>>)
    ensures r.Some? <==> NaN !in s
    ensures r.Some? ==> |r.value| == |s| && forall i :: 0 <= i < |s| ==> s[i] == Num(r.value[i])
    decreases |s|
  {
    if s == [] then Some([])
    else match Reals(s[..|s| - 1])
      case None =>
        assert NaN in s[..|s| - 1];
        None
      case Some(prev) =>
        var v := s[|s| - 1];
        if v.NaN? then None else Some(prev + [v.v])
  }

  /** `pd.DataFrame(flattened_faces)` as the fit sees it; None when some value is NaN. */
  function Features(rows: seq<seq<Swatch>>): (r: Option<seq<seq<real>>>)
    ensures r.Some? <==> forall i :: 0 <= i < |rows| ==> NaN !in FlatRow(rows[i])
    ensures r.Some? ==> |r.value| == |rows|
    decreases |rows|
  {
    if rows == [] then Some([])
    else match Features(rows[..|rows| - 1])
      case None =>
        assert forall i :: 0 <= i < |rows| - 1 ==> rows[..|rows| - 1][i] == rows[i];
        None
      case Some(prev) =>
        match Reals(FlatRow(rows[|rows| - 1]))
        case None => None
        case Some(flat) =>
          assert forall i :: 0 <= i < |rows| - 1 ==> rows[..|rows| - 1][i] == rows[i];
          Some(prev + [flat])
  }

  /** `f"cluster_{label}"`. */
  function ClusterKey(id: int): string
  {
    "cluster_" + IntToString(id)
  }

  /** Different labels name different clusters. */
  lemma ClusterKeyInjective(a: int, b: int)
    requires ClusterKey(a) == ClusterKey(b)
    ensures a == b
  {
    PrefixedNumbersDistinct("cluster_", a, b);
  }

  /** The integer nearest to `y`, ties to the even one, as numpy rounds. */
  function RoundHalfEven(y: real): (n: int)
    ensures n as real - 0.5 <= y <= n as real + 0.5
  {
    var f := y.Floor;
    var frac := y - f as real;
    if frac < 0.5 then f
    else if frac > 0.5 then f + 1
    else if f % 2 == 0 then f else f + 1
  }

  /** `np.round(x, 3)`: the nearest multiple of 0.001, ties to even. */
  function Round3(x: real): (r: real)
    ensures x - 0.0005 <= r <= x + 0.0005
  {
    RoundHalfEven(x * 1000.0) as real / 1000.0
  }

  /** `np.round(centroid, 3).tolist()`. */
  function RoundAll(centroid: seq<real>): (r: seq<real>)
    ensures |r| == |centroid|
    ensures forall i :: 0 <= i < |centroid| ==> centroid[i] - 0.0005 <= r[i] <= centroid[i] + 0.0005
  {
    seq(|centroid|, i requires 0 <= i < |centroid| => Round3(centroid[i]))
  }

  /** `cluster_dict` after the first `n` labels of the initialising loop: cluster `l` with its rounded centroid and no images. */
  function InitialClusters(centers: seq<seq<real>>, n: nat): (r: Dict<string, ClusterInfo>)
    requires n <= |centers|
  {
    seq(n, l requires 0 <= l < n => (ClusterKey(l), ClusterInfo(RoundAll(centers[l]), [])))
  }

  /** Row `j` cannot be assigned: it has no name (IndexError) or its label names no cluster (KeyError). */
  predicate Unassignable(keys: seq<string>, names: seq<string>, labels: seq<int>, j: nat)
    requires j < |labels|
  {
    j >= |names| || ClusterKey(labels[j]) !in keys
  }

  /** The first row from `j` on that the assigning loop cannot assign. */
  function FirstUnassignable(keys: seq<string>, names: seq<string>, labels: seq<int>, j: nat): (r: Option<nat>)
    ensures r.Some? ==> j <= r.value < |labels| && Unassignable(keys, names, labels, r.value)
    ensures forall k :: j <= k < |labels| && (r.None? || k < r.value) ==> !Unassignable(keys, names, labels, k)
    decreases |labels| - j
  {
    if j >= |labels| then None
    else if Unassignable(keys, names, labels, j) then Some(j)
    else FirstUnassignable(keys, names, labels, j + 1)
  }

  /** The cluster key of every row's label: `f"cluster_{label}"`. */
  function RowKeys(labels: seq<int>): (keys: seq<string>)
    ensures |keys| == |labels|
  {
    seq(|labels|, i requires 0 <= i < |labels| => ClusterKey(labels[i]))
  }

  /** The names of the first `n` rows whose label names the cluster `key`, in row order. */
  function Members(names: seq<string>, labels: seq<int>, n: nat, key: string): seq<string>
    requires n <= |names| && n <= |labels|
  {
    Selected(names, RowKeys(labels), n, key)
  }

  /** `cluster_dict` once the first `n` rows are assigned: every cluster has gained its members among them. */
  function Grown(clusters: Dict<string, ClusterInfo>, names: seq<string>, labels: seq<int>, n: nat): (r: Dict<string, ClusterInfo>)
    requires n <= |names| && n <= |labels|
    ensures |r| == |clusters| && Keys(r) == Keys(clusters)
  {
    seq(|clusters|, p requires 0 <= p < |clusters| =>
      (clusters[p].0, clusters[p].1.(images := clusters[p].1.images + Members(names, labels, n, clusters[p].0))))
  }

  /** The assigning loop: the error of the first row it cannot assign, or every cluster grown by its members. */
  function Assigned(clusters: Dict<string, ClusterInfo>, names: seq<string>, labels: seq<int>): Outcome<Dict<string, ClusterInfo>>
  {
    match FirstUnassignable(Keys(clusters), names, labels, 0)
    case Some(j) => Raised(if j >= |names| then IndexError else KeyError)
    case None =>
      assert |labels| == 0 || !Unassignable(Keys(clusters), names, labels, |labels| - 1);
      Ok(Grown(clusters, names, labels, |labels|))
  }

  /** The loop raises at row `i` when it is the first row that cannot be assigned. */
  lemma AssignedStopsAt(clusters: Dict<string, ClusterInfo>, names: seq<string>, labels: seq<int>, i: nat)
    requires i < |labels| && Unassignable(Keys(clusters), names, labels, i)
    requires FirstUnassignable(Keys(clusters), names, labels, 0) == FirstUnassignable(Keys(clusters), names, labels, i)
    ensures Assigned(clusters, names, labels) == Raised(if i >= |names| then IndexError else KeyError)
  {
  }

  /** The loop runs to the end when no row is left that cannot be assigned. */
  lemma AssignedCompletes(clusters: Dict<string, ClusterInfo>, names: seq<string>, labels: seq<int>)
    requires |labels| <= |names|
    requires FirstUnassignable(Keys(clusters), names, labels, 0) == FirstUnassignable(Keys(clusters), names, labels, |labels|)
    ensures Assigned(clusters, names, labels) == Ok(Grown(clusters, names, labels, |labels|))
  {
  }

  /** The image names of `colors_with_images`, in row order. */
  function Names(a: Assembled): (names: seq<string>)
    ensures |names| == |a.named| && forall i :: 0 <= i < |a.named| ==> names[i] == a.named[i].0
  {
    seq(|a.named|, i requires 0 <= i < |a.named| => a.named[i].0)
  }

  /**
   * The fit of the flattened rows; None when they hold a NaN, when they are
   * empty (`reshape(n, -1)` of a zero-size array) or when the fit raises,
   * each a ValueError.
   */
  function FitOfRows(a: Assembled, fit: ClusterFit): Option<KMeansFit>
  {
    match Features(a.rows)
    case None => None
    case Some(features) => if features != [] && features[0] == [] then None else fit(features)
  }

  /** What `cluster` returns once `_extract_colors` has returned `a`. */
  function ClusteredRows(a: Assembled, fit: ClusterFit): Outcome<Dict<string, ClusterInfo>>
  {
    match FitOfRows(a, fit)
    case None => Raised(ValueError)
    case Some(f) =>
      if |f.centers| < Clusters then Raised(IndexError)
      else Assigned(InitialClusters(f.centers, Clusters), Names(a), f.labels)
  }

  /** What `cluster(colors)` returns. */
  function Clustered(table: ColorTable, fit: ClusterFit): Outcome<Dict<string, ClusterInfo>>
  {
    match AssembledColors(table)
    case Raised(e) => Raised(e)
    case Ok(a) => ClusteredRows(a, fit)
  }

  /** The fit `cluster` obtains for the table, when assembling and flattening succeed. */
  function FitOf(table: ColorTable, fit: ClusterFit): Option<KMeansFit>
  {
    match AssembledColors(table)
    case Raised(_) => None
    case Ok(a) => FitOfRows(a, fit)
  }

  /** The initial dict is well formed: its keys `cluster_0` ... `cluster_{n-1}` are distinct. */
  lemma InitialClustersValid(centers: seq<seq<real>>, n: nat)
    requires n <= |centers|
    ensures var keys := Keys(InitialClusters(centers, n));
      && (|keys| == n && forall l :: 0 <= l < n ==> keys[l] == ClusterKey(l))
      && Valid(InitialClusters(centers, n))
  {
    ClusterKeysDistinct(Keys(InitialClusters(centers, n)));
  }

  /** Keys that are `cluster_0` ... `cluster_{n-1}` in order are distinct. */
  lemma ClusterKeysDistinct(keys: seq<string>)
    requires forall l :: 0 <= l < |keys| ==> keys[l] == ClusterKey(l)
    ensures Distinct(keys)
  {
    forall i, j | 0 <= i < j < |keys| ensures keys[i] != keys[j] {
      if keys[i] == keys[j] {
        ClusterKeyInjective(i, j);
      }
    }
  }

  /** One pass of the initialising loop: storing cluster `n` appends it, since no earlier key is `cluster_n`. */
  lemma InitialClustersStep(centers: seq<seq<real>>, n: nat)
    requires n < |centers|
    ensures Put(InitialClusters(centers, n), ClusterKey(n), ClusterInfo(RoundAll(centers[n]), [])) == InitialClusters(centers, n + 1)
  {
    var prev := InitialClusters(centers, n);
    var key := ClusterKey(n);
    if key in Keys(prev) {
      var l :| 0 <= l < n && Keys(prev)[l] == key;
      ClusterKeyInjective(l, n);
    }
    PutNew(prev, key, ClusterInfo(RoundAll(centers[n]), []));
    AppendEquals(prev, (key, ClusterInfo(RoundAll(centers[n]), [])), InitialClusters(centers, n + 1));
  }

  /** Cluster `l` of the initial dict holds the rounded centroid `l` and no images. */
  lemma InitialClustersGet(centers: seq<seq<real>>, n: nat, l: nat)
    requires l < n <= |centers|
    ensures Get(InitialClusters(centers, n), ClusterKey(l)) == Some(ClusterInfo(RoundAll(centers[l]), []))
  {
    InitialClustersValid(centers, n);
    GetAt(InitialClusters(centers, n), l);
  }

  /**
   * One pass of the assigning loop: appending the name of row `n` to the
   * cluster its label names grows the dict from `n` assigned rows to
   * `n + 1`.
   */
  lemma GrownStep(clusters: Dict<string, ClusterInfo>, names: seq<string>, labels: seq<int>, n: nat)
    requires Valid(clusters) && n < |labels| && n < |names| && ClusterKey(labels[n]) in Keys(clusters)
    ensures var key := ClusterKey(labels[n]);
      var g := Grown(clusters, names, labels, n);
      var info := Get(g, key).value;
      Put(g, key, info.(images := info.images + [names[n]])) == Grown(clusters, names, labels, n + 1)
  {
    var key := ClusterKey(labels[n]);
    var g := Grown(clusters, names, labels, n);
    var p := FirstIndex(Keys(g), key).value;
    var info := g[p].1;
    var v := info.(images := info.images + [names[n]]);
    assert Put(g, key, v) == g[p := (key, v)];
    var h := Grown(clusters, names, labels, n + 1);
    assert clusters[p].0 == key by {
      assert Keys(g)[p] == Keys(clusters)[p];
    }
    var c := clusters[p].1;
    assert Members(names, labels, n + 1, key) == Members(names, labels, n, key) + [names[n]];
    assert c.images + Members(names, labels, n, key) + [names[n]] == c.images + Members(names, labels, n + 1, key);
    forall q | 0 <= q < |g| ensures g[p := (key, v)][q] == h[q] {
      if q != p {
        assert Keys(clusters)[q] != Keys(clusters)[p];
        var m := Members(names, labels, n, clusters[q].0);
        assert Members(names, labels, n + 1, clusters[q].0) == m + [];
        assert m + [] == m;
      } else {
        assert v == c.(images := c.images + Members(names, labels, n + 1, key));
      }
    }
  }

  /** Before any row is assigned every cluster holds its initial images. */
  lemma GrownNone(clusters: Dict<string, ClusterInfo>, names: seq<string>, labels: seq<int>)
    ensures Grown(clusters, names, labels, 0) == clusters
  {
    forall p | 0 <= p < |clusters| ensures Grown(clusters, names, labels, 0)[p] == clusters[p] {
      assert clusters[p].1.images + [] == clusters[p].1.images;
    }
  }

  /** In a dict grown from a well-formed one, the cluster at position `p` holds its initial images followed by its members. */
  lemma GrownGet(clusters: Dict<string, ClusterInfo>, names: seq<string>, labels: seq<int>, n: nat, p: nat)
    requires Valid(clusters) && n <= |names| && n <= |labels| && p < |clusters|
    ensures var info := clusters[p].1;
      Get(Grown(clusters, names, labels, n), clusters[p].0) == Some(info.(images := info.images + Members(names, labels, n, clusters[p].0)))
  {
    GetAt(Grown(clusters, names, labels, n), p);
  }

  /**
   * Once the fit has yielded twelve centroids, `cluster` succeeds exactly
   * when every label is a cluster id 0..11 and no label lacks an image;
   * its result then has exactly the keys `cluster_0` ... `cluster_11`, in
   * order, and cluster `l` holds the rounded centroid `l` and the names of
   * the images labelled `l`, in row order.
   */
  lemma ClusteredRowsResult(a: Assembled, fit: ClusterFit)
    requires FitOfRows(a, fit).Some? && |FitOfRows(a, fit).value.centers| >= Clusters
    ensures var f := FitOfRows(a, fit).value;
      var r := ClusteredRows(a, fit);
      && (r.Ok? <==> |f.labels| <= |a.named| && forall j :: 0 <= j < |f.labels| ==> 0 <= f.labels[j] < Clusters)
      && (r.Ok? ==>
            && |Keys(r.value)| == Clusters
            && (forall l :: 0 <= l < Clusters ==> Keys(r.value)[l] == ClusterKey(l))
            && forall l :: 0 <= l < Clusters ==>
                 Get(r.value, ClusterKey(l)) == Some(ClusterInfo(RoundAll(f.centers[l]), Members(Names(a), f.labels, |f.labels|, ClusterKey(l)))))
  {
    var f := FitOfRows(a, fit).value;
    AssignedInitialOk(f.centers, Names(a), f.labels);
    if ClusteredRows(a, fit).Ok? {
      AssignedInitialValue(f.centers, Names(a), f.labels);
    }
  }

  /** Assigning rows to the twelve initial clusters fails exactly when a label is not 0..11 or has no row name. */
  lemma AssignedInitialOk(centers: seq<seq<real>>, names: seq<string>, labels: seq<int>)
    requires |centers| >= Clusters
    ensures Assigned(InitialClusters(centers, Clusters), names, labels).Ok? <==>
      |labels| <= |names| && forall j :: 0 <= j < |labels| ==> 0 <= labels[j] < Clusters
  {
    InitialClustersValid(centers, Clusters);
    var keys := Keys(InitialClusters(centers, Clusters));
    forall j | 0 <= j < |labels| ensures ClusterKey(labels[j]) in keys <==> 0 <= labels[j] < Clusters {
      if ClusterKey(labels[j]) in keys {
        var l :| 0 <= l < Clusters && keys[l] == ClusterKey(labels[j]);
        ClusterKeyInjective(l, labels[j]);
      }
    }
    if |labels| > |names| {
      assert Unassignable(keys, names, labels, |names|);
    }
    if !forall j :: 0 <= j < |labels| ==> 0 <= labels[j] < Clusters {
      var j :| 0 <= j < |labels| && !(0 <= labels[j] < Clusters);
      assert Unassignable(keys, names, labels, j);
    }
  }

  /** Once assigned, cluster `l` of the twelve holds rounded centroid `l` and the names of the rows labelled `l`. */
  lemma AssignedInitialValue(centers: seq<seq<real>>, names: seq<string>, labels: seq<int>)
    requires |centers| >= Clusters && |labels| <= |names| && Assigned(InitialClusters(centers, Clusters), names, labels).Ok?
    ensures var r := Assigned(InitialClusters(centers, Clusters), names, labels).value;
      && |Keys(r)| == Clusters
      && (forall l :: 0 <= l < Clusters ==> Keys(r)[l] == ClusterKey(l))
      && forall l :: 0 <= l < Clusters ==>
           Get(r, ClusterKey(l)) == Some(ClusterInfo(RoundAll(centers[l]), Members(names, labels, |labels|, ClusterKey(l))))
  {
    var init := InitialClusters(centers, Clusters);
    InitialClustersValid(centers, Clusters);
    assert FirstUnassignable(Keys(init), names, labels, 0).None?;
    assert |labels| == 0 || !Unassignable(Keys(init), names, labels, |labels| - 1);
    var g := Grown(init, names, labels, |labels|);
    assert Assigned(init, names, labels).value == g;
    forall l | 0 <= l < Clusters
      ensures Get(g, ClusterKey(l)) == Some(ClusterInfo(RoundAll(centers[l]), Members(names, labels, |labels|, ClusterKey(l))))
    {
      GrownGet(init, names, labels, |labels|, l);
      var m := Members(names, labels, |labels|, ClusterKey(l));
      assert init[l] == (ClusterKey(l), ClusterInfo(RoundAll(centers[l]), []));
      assert [] + m == m;
    }
  }

  /** `cluster` on a table: the same, with the table's image names in table order. */
  lemma ClusteredResult(table: ColorTable, fit: ClusterFit)
    requires FitOf(table, fit).Some? && |FitOf(table, fit).value.centers| >= Clusters
    ensures var f := FitOf(table, fit).value;
      var r := Clustered(table, fit);
      && (r.Ok? <==> |f.labels| <= |table| && forall j :: 0 <= j < |f.labels| ==> 0 <= f.labels[j] < Clusters)
      && (r.Ok? ==>
            && |Keys(r.value)| == Clusters
            && (forall l :: 0 <= l < Clusters ==> Keys(r.value)[l] == ClusterKey(l))
            && forall l :: 0 <= l < Clusters ==>
                 Get(r.value, ClusterKey(l)) == Some(ClusterInfo(RoundAll(f.centers[l]), Members(Keys(table), f.labels, |f.labels|, ClusterKey(l)))))
  {
    var a := AssembledColors(table).value;
    AssembledShape(table);
    assert Names(a) == Keys(table);
    ClusteredRowsResult(a, fit);
  }

  /**
   * With a twelve-means fit, a fit that succeeds labels one row per image,
   * there are at least twelve images, and `cluster` succeeds.
   */
  lemma TwelveMeansClustered(table: ColorTable, fit: ClusterFit)
    requires TwelveMeans(fit) && FitOf(table, fit).Some?
    ensures |FitOf(table, fit).value.labels| == |table| >= Clusters
    ensures Clustered(table, fit).Ok?
  {
    AssembledShape(table);
    ClusteredResult(table, fit);
  }

  /** With a twelve-means fit, `cluster` raises ValueError on fewer than twelve images. */
  lemma TwelveMeansTooFew(table: ColorTable, fit: ClusterFit)
    requires TwelveMeans(fit) && |table| < Clusters
    ensures FitOf(table, fit).None?
    ensures Clustered(table, fit) == Raised(ValueError)
  {
    if AssembledColors(table).Ok? {
      var a := AssembledColors(table).value;
      assert |a.rows| == |table|;
      if Features(a.rows).Some? {
        assert |Features(a.rows).value| < Clusters;
      }
    }
  }

  /**
   * Each labelled image is in exactly one cluster, the one its label
   * names: when `cluster` succeeds, the name of image `i` is among the
   * images of `cluster_l` exactly when image `i` is labelled `l`.
   */
  lemma EachImageInOneCluster(table: ColorTable, fit: ClusterFit, i: nat, l: nat)
    requires Valid(table) && l < Clusters
    requires FitOf(table, fit).Some? && |FitOf(table, fit).value.centers| >= Clusters
    requires i < |table| && i < |FitOf(table, fit).value.labels|
    requires Clustered(table, fit).Ok?
    ensures Get(Clustered(table, fit).value, ClusterKey(l)).Some?
    ensures table[i].0 in Get(Clustered(table, fit).value, ClusterKey(l)).value.images <==> FitOf(table, fit).value.labels[i] == l
  {
    var labels := FitOf(table, fit).value.labels;
    ClusteredResult(table, fit);
    MembersExactlyOnce(Keys(table), labels, |labels|, i, l);
  }

  /** Among the first `n` rows, the name of row `j` is a member of `cluster_l` exactly when row `j` is labelled `l`. */
  lemma MembersExactlyOnce(names: seq<string>, labels: seq<int>, n: nat, j: nat, l: int)
    requires n <= |names| && n <= |labels| && Distinct(names) && j < n
    ensures names[j] in Members(names, labels, n, ClusterKey(l)) <==> labels[j] == l
  {
    SelectedExactly(names, RowKeys(labels), n, j, ClusterKey(l));
    if ClusterKey(labels[j]) == ClusterKey(l) {
      ClusterKeyInjective(labels[j], l);
    }
  }

  /** A name that none of the first `n` rows carries is not a member among them. */
  lemma MembersAmong(names: seq<string>, labels: seq<int>, n: nat, x: string, key: string)
    requires n <= |names| && n <= |labels| && forall k :: 0 <= k < n ==> names[k] != x
    ensures x !in Members(names, labels, n, key)
  {
    SelectedOnlyFrom(names, RowKeys(labels), n, x, key);
  }

  /**
   * `_extract_colors`, the same in both packages. A ragged image raises in `np.mean`; an image
   * without classes beside images with some, or swatches of different
   * widths in different images, make `np.array` raise at the end; here
   * both are reported where they are detected, which yields the same
   * exception.
   */
  method ExtractColors(table: ColorTable) returns (r: Outcome<Assembled>)
    ensures r == AssembledColors(table)
  {
    if table == [] {
      return Raised(ValueError);
    }
    var maxLen := MaxRegions(table);
    var assembled := ImageRows(table, maxLen);
    ImagesOkEach(table, maxLen);
    if assembled.None? || !Rectangular(table) {
      return Raised(ValueError);
    }
    return Ok(assembled.value);
  }

  /** The loop over images of `_extract_colors`; None when numpy raises for some image. */
  method ImageRows(table: ColorTable, maxLen: nat) returns (r: Option<Assembled>)
    ensures r.Some? <==> ImagesOk(table, maxLen)
    ensures r.Some? ==> r.value == Assembled(Rows(table, maxLen), Labelled(table, Rows(table, maxLen)))
  {
    var processed: seq<seq<Swatch>> := [];
    var named: seq<(string, seq<Swatch>)> := [];
    for i := 0 to |table|
      invariant ImagesOk(table[..i], maxLen)
      invariant processed == Rows(table[..i], maxLen)
      invariant named == Labelled(table[..i], processed)
    {
      var name, faces := table[i].0, table[i].1;
      var row := ProcessImage(faces, maxLen);
      assert table[..i + 1][..i] == table[..i];
      if row.None? {
        assert !ImagesOk(table[..i + 1], maxLen);
        if ImagesOk(table, maxLen) {
          ImagesOkPrefix(table, i + 1, maxLen);
        }
        return None;
      }
      assert (processed + [row.value])[..i] == processed;
      named := named + [(name, row.value)];
      processed := processed + [row.value];
    }
    assert table[..|table|] == table;
    return Some(Assembled(processed, named));
  }

  /** One pass of the loop over images, up to the append; None when numpy raises. */
  method ProcessImage(faces: Dict<string, Swatch>, maxLen: nat) returns (row: Option<seq<Swatch>>)
    ensures row.Some? <==> ImageOk(Values(faces), maxLen)
    ensures row.Some? ==> row.value == ImageRow(Values(faces), maxLen)
  {
    var imageColors := ImageColors(faces);
    if !ImageOk(imageColors, maxLen) {
      return None;
    }
    var r := ImageColorsRow(imageColors, maxLen);
    return Some(r);
  }

  /** Lines 37-39 for one image: its swatches in class order. */
  method ImageColors(faces: Dict<string, Swatch>) returns (sws: seq<Swatch>)
    ensures sws == Values(faces)
  {
    sws := [];
    for j := 0 to |faces|
      invariant sws == Values(faces)[..j]
    {
      sws := sws + [faces[j].1];
    }
  }

  /** Lines 41-48 for one image: mean, imputation, truncation and the padding loop. */
  method ImageColorsRow(imageColors: seq<Swatch>, maxLen: nat) returns (row: seq<Swatch>)
    ensures row == ImageRow(imageColors, maxLen)
  {
    if imageColors == [] {
      return [];
    }
    var mean := ImageMean(imageColors, |imageColors[0]|);
    var imputed := Imputed(imageColors, mean);
    row := Slice(imputed, 0, maxLen);
    ghost var kept := row;
    while |row| < maxLen
      invariant |kept| <= |row| <= maxLen || row == kept
      invariant |kept| <= maxLen ==> row == kept + Padding(mean, |row| - |kept|)
      invariant |kept| > maxLen ==> row == kept
      decreases maxLen - |row|
    {
      row := row + [mean];
    }
  }

  class ColorClusterer {
    const fit: ClusterFit

    constructor (fit: ClusterFit)
      ensures this.fit == fit
    {
      this.fit := fit;
    }

    /** `cluster`: assemble, fit, then build and fill the twelve clusters. */
    method Cluster(table: ColorTable) returns (r: Outcome<Dict<string, ClusterInfo>>)
      ensures r == Clustered(table, fit)
    {
      var assembled := ExtractColors(table);
      if assembled.Raised? {
        return Raised(assembled.error);
      }
      r := ClusterRows(assembled.value);
    }

    /** `cluster` from the fit on: build the twelve clusters, then assign every row. */
    method ClusterRows(a: Assembled) returns (r: Outcome<Dict<string, ClusterInfo>>)
      ensures r == ClusteredRows(a, fit)
    {
      var features := Features(a.rows);
      if features.None? {
        return Raised(ValueError);
      }
      if features.value != [] && features.value[0] == [] {
        return Raised(ValueError);
      }
      var fitted := fit(features.value);
      if fitted.None? {
        return Raised(ValueError);
      }
      var labels, centers := fitted.value.labels, fitted.value.centers;
      var clusters: Dict<string, ClusterInfo> := [];
      for l := 0 to Clusters
        invariant l <= |centers| ==> clusters == InitialClusters(centers, l)
        invariant l > |centers| ==> false
      {
        if l >= |centers| {
          return Raised(IndexError);
        }
        InitialClustersStep(centers, l);
        clusters := Put(clusters, ClusterKey(l), ClusterInfo(RoundAll(centers[l]), []));
      }
      InitialClustersValid(centers, Clusters);
      r := AssignRows(clusters, a, labels);
    }

    /** The assigning loop of `cluster`: append every row's image name to the cluster its label names. */
    method AssignRows(init: Dict<string, ClusterInfo>, a: Assembled, labels: seq<int>) returns (r: Outcome<Dict<string, ClusterInfo>>)
      requires Valid(init)
      ensures r == Assigned(init, Names(a), labels)
    {
      ghost var names := Names(a);
      ghost var keys := Keys(init);
      var clusters := init;
      GrownNone(init, names, labels);
      for i := 0 to |labels|
        invariant i <= |names|
        invariant FirstUnassignable(keys, names, labels, 0) == FirstUnassignable(keys, names, labels, i)
        invariant clusters == Grown(init, names, labels, i)
      {
        if i >= |a.named| {
          AssignedStopsAt(init, names, labels, i);
          return Raised(IndexError);
        }
        var name := a.named[i].0;
        var key := ClusterKey(labels[i]);
        if key !in Keys(clusters) {
          AssignedStopsAt(init, names, labels, i);
          return Raised(KeyError);
        }
        assert !Unassignable(keys, names, labels, i);
        var info := Get(clusters, key).value;
        GrownStep(init, names, labels, i);
        clusters := Put(clusters, key, info.(images := info.images + [name]));
      }
      AssignedCompletes(init, names, labels);
      return Ok(clusters);
    }
  }
}
