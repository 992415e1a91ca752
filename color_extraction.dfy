/**
 * Extraction of dominant colours (`ColorExtractor` of the clustering
 * package). For every segmented region the pixels under its mask are
 * sampled, a three-means fit summarises them, and every centroid is
 * replaced by the nearest colour actually observed. The result is stored
 * per file and per class name, with no face id in the key, and finally
 * every stored channel value is divided by 255.
 *
 * The k-means fit is a parameter. A stored entry is the representatives'
 * channel values flattened in row-major order (`[r0, g0, b0, r1, ...]`),
 * which is also the order in which the clusterer later flattens them.
 */
module ColorExtraction {
  import opened Common
  import opened Dicts
  import opened Segmentation

  /** A k-means centroid in RGB space. */
  datatype Point = Point(x: real, y: real, z: real)

  /** `KMeans(n_clusters=3).fit(colors).cluster_centers_`, or None when fitting raises. */
  type ColorFit = seq<Rgb> -> Option<seq<Point>>

  /**
   * What scikit-learn documents of `KMeans(n_clusters=3).fit`: it raises
   * ValueError on fewer than three samples, and a successful fit has three
   * centroids.
   */
  ghost predicate ThreeMeans(fit: ColorFit)
  {
    forall cs :: (|cs| < 3 ==> fit(cs).None?) && (fit(cs).Some? ==> |fit(cs).value| == 3)
  }

  /** The channel values of the representative colours of one region. */
  type Swatch = seq<Num>

  /** `dominant_colors`: file name -> class name -> swatch. */
  type ColorTable = Dict<string, Dict<string, Swatch>>

  // ---------------------------------------------------------------------
  // _get_segmented_colors
  // ---------------------------------------------------------------------

  /** Cell `a` comes before cell `b` in row-major order. */
  predicate RowMajorBefore(a: (nat, nat), b: (nat, nat))
  {
    a.0 < b.0 || (a.0 == b.0 && a.1 < b.1)
  }

  /** The set cells of row `i` of a mask, left to right. */
  function RowCells(i: nat, row: seq<bool>): (cells: seq<(nat, nat)>)
    ensures forall t :: 0 <= t < |cells| ==> cells[t].0 == i && cells[t].1 < |row| && row[cells[t].1]
    ensures forall j :: 0 <= j < |row| && row[j] ==> (i, j) in cells
    ensures forall s, t :: 0 <= s < t < |cells| ==> cells[s].1 < cells[t].1
    decreases |row|
  {
    if row == [] then []
    else
      var cells := RowCells(i, row[..|row| - 1]) + (if row[|row| - 1] then [(i, |row| - 1)] else []);
      assert forall j :: 0 <= j < |row| - 1 ==> row[j] == row[..|row| - 1][j];
      cells
  }

  /** `torch.nonzero(mask)`: every set cell of the mask exactly once, in row-major order. */
  function MaskCells(m: Mask): (cells: seq<(nat, nat)>)
    ensures forall t :: 0 <= t < |cells| ==> cells[t].0 < |m| && cells[t].1 < |m[cells[t].0]| && m[cells[t].0][cells[t].1]
    ensures forall i, j :: 0 <= i < |m| && 0 <= j < |m[i]| && m[i][j] ==> (i, j) in cells
    ensures forall s, t :: 0 <= s < t < |cells| ==> RowMajorBefore(cells[s], cells[t])
    decreases |m|
  {
    if m == [] then []
    else
      var n := |m| - 1;
      var prev := MaskCells(m[..n]);
      var row := RowCells(n, m[n]);
      assert forall t :: 0 <= t < |prev| ==> prev[t].0 < n;
      prev + row
  }

  /** A cell lies inside the picture. */
  predicate InPicture(pic: Picture, c: (nat, nat))
  {
    c.0 < |pic.pixels| && c.1 < |pic.pixels[c.0]|
  }

  /** The pixels at the given cells; None (IndexError) when a cell lies outside the picture. */
  function PixelsAt(pic: Picture, cells: seq<(nat, nat)>): (r: Option<seq<Rgb>>)
    ensures r.Some? <==> forall t :: 0 <= t < |cells| ==> InPicture(pic, cells[t])
    ensures r.Some? ==> |r.value| == |cells|
    ensures r.Some? ==> forall t :: 0 <= t < |cells| ==>
      InPicture(pic, cells[t]) && r.value[t] == pic.pixels[cells[t].0][cells[t].1]
    decreases |cells|
  {
    if cells == [] then Some([])
    else
      var c := cells[|cells| - 1];
      var prev := PixelsAt(pic, cells[..|cells| - 1]);
      if !InPicture(pic, c) then None
      else match prev
        case None =>
          assert forall t :: 0 <= t < |cells| - 1 ==> cells[..|cells| - 1][t] == cells[t];
          None
        case Some(ps) => Some(ps + [pic.pixels[c.0][c.1]])
  }

  /**
   * `_get_segmented_colors`: the colour of the pixel under every set cell of
   * the mask, in row-major order; None for the IndexError of a set cell
   * outside the picture.
   */
  function SegmentedColors(pic: Picture, m: Mask): Option<seq<Rgb>>
  {
    PixelsAt(pic, MaskCells(m))
  }

  /** A mask with no set cell samples nothing: the empty array. */
  lemma EmptyMaskSamplesNothing(pic: Picture, m: Mask)
    requires !AnySet(m)
    ensures SegmentedColors(pic, m) == Some([])
  {
  }

  /** One colour per set cell: the sample has exactly as many colours as the mask has set cells. */
  lemma SampleSizeIsSetCells(pic: Picture, m: Mask)
    requires SegmentedColors(pic, m).Some?
    ensures |SegmentedColors(pic, m).value| == |MaskCells(m)|
    ensures forall c :: c in SegmentedColors(pic, m).value ==>
      exists i, j :: 0 <= i < |m| && 0 <= j < |m[i]| && m[i][j] && InPicture(pic, (i, j)) && c == pic.pixels[i][j]
  {
    var cs := SegmentedColors(pic, m).value;
    var cells := MaskCells(m);
    forall c | c in cs
      ensures exists i, j :: 0 <= i < |m| && 0 <= j < |m[i]| && m[i][j] && InPicture(pic, (i, j)) && c == pic.pixels[i][j]
    {
      var t :| 0 <= t < |cs| && cs[t] == c;
      var (i, j) := cells[t];
      assert InPicture(pic, (i, j));
    }
  }

  // ---------------------------------------------------------------------
  // _update_dominant_colors
  // ---------------------------------------------------------------------

  /** Labels `_update_dominant_colors` never stores. */
  predicate ColorExcluded(name: string)
  {
    name == "background" || name == "imouth"
  }

  /** Squared Euclidean distance between a colour and a centroid; its arg-min is that of the distance. */
  function SqDist(c: Rgb, p: Point): (d: real)
    ensures d >= 0.0
  {
    var dx, dy, dz := c.r as real - p.x, c.g as real - p.y, c.b as real - p.z;
    dx * dx + dy * dy + dz * dz
  }

  /** `np.argmin(distances)`: the first colour at minimal distance from the centroid. */
  function Nearest(colors: seq<Rgb>, p: Point): (i: nat)
    requires colors != []
    ensures i < |colors|
    ensures forall j :: 0 <= j < |colors| ==> SqDist(colors[i], p) <= SqDist(colors[j], p)
    ensures forall j :: 0 <= j < i ==> SqDist(colors[j], p) > SqDist(colors[i], p)
    decreases |colors|
  {
    if |colors| == 1 then 0
    else
      var n := |colors| - 1;
      var k := Nearest(colors[..n], p);
      assert forall j :: 0 <= j < n ==> colors[..n][j] == colors[j];
      if SqDist(colors[n], p) < SqDist(colors[k], p) then n else k
  }

  /** `closest_colors`: for every centroid, in order, the nearest observed colour. */
  function Representatives(colors: seq<Rgb>, centroids: seq<Point>): (reps: seq<Rgb>)
    requires colors != []
    ensures |reps| == |centroids|
    ensures forall k :: 0 <= k < |centroids| ==> reps[k] in colors
    ensures forall k, c :: 0 <= k < |centroids| && c in colors ==> SqDist(reps[k], centroids[k]) <= SqDist(c, centroids[k])
  {
    seq(|centroids|, k requires 0 <= k < |centroids| => colors[Nearest(colors, centroids[k])])
  }

  /** The channels of one colour as stored values. */
  function Channels(c: Rgb): Swatch
  {
    [Num(c.r as real), Num(c.g as real), Num(c.b as real)]
  }

  /** `np.array(closest_colors)`, flattened row-major: three channel values per colour, in order. */
  function ToSwatch(cs: seq<Rgb>): (sw: Swatch)
    ensures |sw| == 3 * |cs|
    ensures forall k :: 0 <= k < |cs| ==> sw[3 * k..3 * k + 3] == Channels(cs[k])
    decreases |cs|
  {
    if cs == [] then []
    else
      var n := |cs| - 1;
      var prev := ToSwatch(cs[..n]);
      var sw := prev + Channels(cs[n]);
      assert forall k :: 0 <= k < n ==> sw[3 * k..3 * k + 3] == prev[3 * k..3 * k + 3];
      sw
  }

  /** `dominant_colors[filename][label_name] = value`, creating the file's dict first when it is missing. */
  function Store(table: ColorTable, file: string, name: string, sw: Swatch): (r: ColorTable)
    ensures Keys(r) == if file in Keys(table) then Keys(table) else Keys(table) + [file]
    ensures forall f :: f != file ==> Get(r, f) == Get(table, f)
  {
    var inner := if file in Keys(table) then Get(table, file).value else [];
    Put(table, file, Put(inner, name, sw))
  }

  /** After a store the file holds its former class dict, or an empty one, with the swatch put under `name`. */
  lemma StoreAt(table: ColorTable, file: string, name: string, sw: Swatch)
    ensures var inner := if file in Keys(table) then Get(table, file).value else [];
      Get(Store(table, file, name, sw), file) == Some(Put(inner, name, sw))
  {
  }

  /** What `_update_dominant_colors` returns; ValueError when the three-means fit raises. */
  function Updated(table: ColorTable, file: string, name: string, colors: seq<Rgb>, fit: ColorFit): Outcome<ColorTable>
  {
    if ColorExcluded(name) || colors == [] then Ok(table)
    else match fit(colors)
      case None => Raised(ValueError)
      case Some(centroids) => Ok(Store(table, file, name, ToSwatch(Representatives(colors, centroids))))
  }

  /**
   * A region that is stored lands at `[file][name]`, overwriting what an
   * earlier face stored there: its swatch has one representative per
   * centroid, each an observed colour nearest to its centroid. Every other
   * class of the file and every other file keep their values, and the file
   * key is created only if it was missing.
   */
  lemma UpdatedStores(table: ColorTable, file: string, name: string, colors: seq<Rgb>, fit: ColorFit)
    requires !ColorExcluded(name) && colors != [] && fit(colors).Some?
    ensures var centroids := fit(colors).value;
      var r := Updated(table, file, name, colors, fit);
      && r.Ok?
      && Keys(r.value) == (if file in Keys(table) then Keys(table) else Keys(table) + [file])
      && (forall f :: f != file ==> Get(r.value, f) == Get(table, f))
      && file in Keys(r.value)
      && var inner := Get(r.value, file).value;
         var old_inner := if file in Keys(table) then Get(table, file).value else [];
         && Keys(inner) == (if name in Keys(old_inner) then Keys(old_inner) else Keys(old_inner) + [name])
         && (forall n :: n != name ==> Get(inner, n) == Get(old_inner, n))
         && exists reps: seq<Rgb> ::
              && Get(inner, name) == Some(ToSwatch(reps))
              && |reps| == |centroids|
              && forall k :: 0 <= k < |reps| ==>
                   && reps[k] in colors
                   && forall c :: c in colors ==> SqDist(reps[k], centroids[k]) <= SqDist(c, centroids[k])
  {
    var reps := Representatives(colors, fit(colors).value);
    var old_inner := if file in Keys(table) then Get(table, file).value else [];
    StoreAt(table, file, name, ToSwatch(reps));
    assert Updated(table, file, name, colors, fit) == Ok(Store(table, file, name, ToSwatch(reps)));
    assert Get(Put(old_inner, name, ToSwatch(reps)), name) == Some(ToSwatch(reps));
  }

  /** Excluded classes and empty samples leave the table unchanged; otherwise it changes only if the fit succeeds. */
  lemma UpdatedUnchanged(table: ColorTable, file: string, name: string, colors: seq<Rgb>, fit: ColorFit)
    ensures ColorExcluded(name) || colors == [] ==> Updated(table, file, name, colors, fit) == Ok(table)
    ensures Updated(table, file, name, colors, fit).Raised? <==> !ColorExcluded(name) && colors != [] && fit(colors).None?
  {
  }

  /** `_update_dominant_colors`, with the loop that finds the nearest observed colour of every centroid. */
  method UpdateDominantColors(table: ColorTable, file: string, name: string, colors: seq<Rgb>, fit: ColorFit)
    returns (r: Outcome<ColorTable>)
    ensures r == Updated(table, file, name, colors, fit)
  {
    if ColorExcluded(name) || colors == [] {
      return Ok(table);
    }
    var fitted := fit(colors);
    if fitted.None? {
      return Raised(ValueError);
    }
    var centroids := fitted.value;
    var closest: seq<Rgb> := [];
    for k := 0 to |centroids|
      invariant closest == Representatives(colors, centroids)[..k]
    {
      closest := closest + [colors[Nearest(colors, centroids[k])]];
    }
    assert closest == Representatives(colors, centroids);
    var inner: Dict<string, Swatch> := [];
    if file in Keys(table) {
      inner := Get(table, file).value;
    }
    return Ok(Put(table, file, Put(inner, name, ToSwatch(closest))));
  }

  // ---------------------------------------------------------------------
  // extract_dominant_colors
  // ---------------------------------------------------------------------

  /** One segment-list entry: sample its pixels, then update the table. */
  function VisitRegion(table: ColorTable, file: string, pic: Picture, region: Region, fit: ColorFit): Outcome<ColorTable>
  {
    match SegmentedColors(pic, region.mask)
    case None => Raised(IndexError)
    case Some(colors) => Updated(table, file, region.className, colors, fit)
  }

  /** The table after the entries of one face's segment list, in order; the first exception ends the walk. */
  function VisitRegions(table: ColorTable, file: string, pic: Picture, regions: seq<Region>, fit: ColorFit): Outcome<ColorTable>
    decreases |regions|
  {
    if regions == [] then Ok(table)
    else match VisitRegion(table, file, pic, regions[0], fit)
      case Raised(e) => Raised(e)
      case Ok(t) => VisitRegions(t, file, pic, regions[1..], fit)
  }

  /** The table after the faces of one image, in face-id iteration order. */
  function VisitFaces(table: ColorTable, file: string, pic: Picture, faces: FaceSegments, fit: ColorFit): Outcome<ColorTable>
    decreases |faces|
  {
    if faces == [] then Ok(table)
    else match VisitRegions(table, file, pic, faces[0].1, fit)
      case Raised(e) => Raised(e)
      case Ok(t) => VisitFaces(t, file, pic, faces[1..], fit)
  }

  /** The table after the files of `all_segments`, in order; a file whose image is not a Pillow image raises TypeError. */
  function VisitFiles(table: ColorTable, segs: Dict<string, SegEntry>, fit: ColorFit): Outcome<ColorTable>
    decreases |segs|
  {
    if segs == [] then Ok(table)
    else
      var (file, entry) := segs[0];
      if !entry.pic.isPil then Raised(TypeError)
      else match VisitFaces(table, file, entry.pic, entry.faces, fit)
        case Raised(e) => Raised(e)
        case Ok(t) => VisitFiles(t, segs[1..], fit)
  }

  /** Division by 255 of one stored value. */
  function Scale(v: Num): Num
  {
    match v
    case NaN => NaN
    case Num(x) => Num(x / 255.0)
  }

  function ScaleSwatch(sw: Swatch): (r: Swatch)
    ensures |r| == |sw|
    ensures forall i :: 0 <= i < |sw| ==> r[i] == Scale(sw[i])
  {
    seq(|sw|, i requires 0 <= i < |sw| => Scale(sw[i]))
  }

  /** The table after `_normalize_colors`. */
  function Normalized(table: ColorTable): ColorTable
  {
    seq(|table|, i requires 0 <= i < |table| =>
      (table[i].0, seq(|table[i].1|, j requires 0 <= j < |table[i].1| => (table[i].1[j].0, ScaleSwatch(table[i].1[j].1)))))
  }

  /** What `extract_dominant_colors(all_segments, normalize)` returns. */
  function ExtractedColors(segs: Dict<string, SegEntry>, normalize: bool, fit: ColorFit): Outcome<ColorTable>
  {
    match VisitFiles([], segs, fit)
    case Raised(e) => Raised(e)
    case Ok(t) => Ok(if normalize then Normalized(t) else t)
  }

  /** `_normalize_colors`: overwrite every stored value, visited in order, by its division by 255. */
  method NormalizeColors(table: ColorTable) returns (r: ColorTable)
    ensures r == Normalized(table)
  {
    r := table;
    for i := 0 to |r|
      invariant |r| == |table|
      invariant forall k :: 0 <= k < i ==> r[k] == Normalized(table)[k]
      invariant forall k :: i <= k < |r| ==> r[k] == table[k]
    {
      var (file, faces) := r[i];
      var inner := faces;
      for j := 0 to |inner|
        invariant |inner| == |faces|
        invariant forall k :: 0 <= k < j ==> inner[k] == Normalized(table)[i].1[k]
        invariant forall k :: j <= k < |inner| ==> inner[k] == faces[k]
      {
        var (name, colors) := inner[j];
        inner := inner[j := (name, ScaleSwatch(colors))];
      }
      assert inner == Normalized(table)[i].1;
      r := r[i := (file, inner)];
    }
  }

  class ColorExtractor {
    const images: seq<NamedImage>
    const fit: ColorFit

    constructor (images: seq<NamedImage>, fit: ColorFit)
      ensures this.images == images && this.fit == fit
    {
      this.images := images;
      this.fit := fit;
    }

    /** `extract_dominant_colors`: files, then face ids, then segment-list entries, each in iteration order. */
    method ExtractDominantColors(segs: Dict<string, SegEntry>, normalize: bool) returns (r: Outcome<ColorTable>)
      ensures r == ExtractedColors(segs, normalize, fit)
    {
      var table: ColorTable := [];
      for i := 0 to |segs|
        invariant VisitFiles(table, segs[i..], fit) == VisitFiles([], segs, fit)
      {
        var (file, entry) := segs[i];
        assert segs[i..][1..] == segs[i + 1..];
        if !entry.pic.isPil {
          return Raised(TypeError);
        }
        var next := ColorsOfImage(table, file, entry.pic, entry.faces);
        if next.Raised? {
          return Raised(next.error);
        }
        table := next.value;
      }
      if normalize {
        table := NormalizeColors(table);
      }
      return Ok(table);
    }

    /** The face loop of `extract_dominant_colors` for one image. */
    method ColorsOfImage(table: ColorTable, file: string, pic: Picture, faces: FaceSegments) returns (r: Outcome<ColorTable>)
      ensures r == VisitFaces(table, file, pic, faces, fit)
    {
      var t := table;
      for j := 0 to |faces|
        invariant VisitFaces(t, file, pic, faces[j..], fit) == VisitFaces(table, file, pic, faces, fit)
      {
        assert faces[j..][1..] == faces[j + 1..];
        var next := ColorsOfFace(t, file, pic, faces[j].1);
        if next.Raised? {
          return Raised(next.error);
        }
        t := next.value;
      }
      return Ok(t);
    }

    /** The segment-list loop of `extract_dominant_colors` for one face. */
    method ColorsOfFace(table: ColorTable, file: string, pic: Picture, regions: seq<Region>) returns (r: Outcome<ColorTable>)
      ensures r == VisitRegions(table, file, pic, regions, fit)
    {
      var t := table;
      for k := 0 to |regions|
        invariant VisitRegions(t, file, pic, regions[k..], fit) == VisitRegions(table, file, pic, regions, fit)
      {
        assert regions[k..][1..] == regions[k + 1..];
        var colors := SegmentedColors(pic, regions[k].mask);
        if colors.None? {
          return Raised(IndexError);
        }
        var next := UpdateDominantColors(t, file, regions[k].className, colors.value, fit);
        if next.Raised? {
          return Raised(next.error);
        }
        t := next.value;
      }
      return Ok(t);
    }
  }

  // ---------------------------------------------------------------------
  // Properties of the extracted table
  // ---------------------------------------------------------------------

  /** A raw stored value: an integer channel value from 0 to 255. */
  predicate IsChannel(v: Num)
  {
    v.Num? && v.v == v.v.Floor as real && 0.0 <= v.v <= 255.0
  }

  /** Every channel value of the swatch comes from an 8-bit pixel. */
  ghost predicate RawSwatch(sw: Swatch)
  {
    forall v :: v in sw ==> IsChannel(v)
  }

  /** The class dict of one file: not empty, no repeated class, no excluded class, raw values only. */
  ghost predicate InnerShaped(inner: Dict<string, Swatch>)
  {
    && inner != []
    && Valid(inner)
    && forall n :: n in Keys(inner) ==> !ColorExcluded(n) && RawSwatch(Get(inner, n).value)
  }

  /** The table before normalisation: no repeated file, only files from `files`, each with a shaped class dict. */
  ghost predicate Shaped(table: ColorTable, files: seq<string>)
  {
    && Valid(table)
    && forall f :: f in Keys(table) ==> f in files && InnerShaped(Get(table, f).value)
  }

  lemma {:induction false} ToSwatchRaw(cs: seq<Rgb>)
    ensures RawSwatch(ToSwatch(cs))
    decreases |cs|
  {
    if cs != [] {
      ToSwatchRaw(cs[..|cs| - 1]);
    }
  }

  /** Putting a swatch of pixel values under an allowed class into a file's class dict, new or shaped, leaves it shaped. */
  lemma InnerShapedPut(inner: Dict<string, Swatch>, name: string, sw: Swatch)
    requires inner == [] || InnerShaped(inner)
    requires !ColorExcluded(name) && RawSwatch(sw)
    ensures InnerShaped(Put(inner, name, sw))
  {
    var inner' := Put(inner, name, sw);
    forall n | n in Keys(inner') ensures !ColorExcluded(n) && RawSwatch(Get(inner', n).value) {
      if n != name {
        assert n in Keys(inner);
      }
    }
    assert name in Keys(inner');
  }

  /** Storing a swatch of pixel values under an allowed class of a known file keeps the table shaped. */
  lemma StoreShaped(table: ColorTable, files: seq<string>, file: string, name: string, sw: Swatch)
    requires Shaped(table, files) && file in files && !ColorExcluded(name) && RawSwatch(sw)
    ensures Shaped(Store(table, file, name, sw), files)
  {
    var inner := if file in Keys(table) then Get(table, file).value else [];
    var r := Store(table, file, name, sw);
    StoreAt(table, file, name, sw);
    InnerShapedPut(inner, name, sw);
    assert Valid(r);
    forall f | f in Keys(r) ensures f in files && InnerShaped(Get(r, f).value) {
      if f != file {
        assert Get(r, f) == Get(table, f);
      }
    }
  }

  lemma UpdatedShaped(table: ColorTable, files: seq<string>, file: string, name: string, colors: seq<Rgb>, fit: ColorFit)
    requires Shaped(table, files) && file in files
    ensures var r := Updated(table, file, name, colors, fit); r.Ok? ==> Shaped(r.value, files)
  {
    if !ColorExcluded(name) && colors != [] && fit(colors).Some? {
      var reps := Representatives(colors, fit(colors).value);
      ToSwatchRaw(reps);
      StoreShaped(table, files, file, name, ToSwatch(reps));
    }
  }

  lemma {:induction false} VisitRegionsShaped(table: ColorTable, files: seq<string>, file: string, pic: Picture, regions: seq<Region>, fit: ColorFit)
    requires Shaped(table, files) && file in files
    ensures var r := VisitRegions(table, file, pic, regions, fit); r.Ok? ==> Shaped(r.value, files)
    decreases |regions|
  {
    if regions != [] {
      var region := regions[0];
      var first := VisitRegion(table, file, pic, region, fit);
      if SegmentedColors(pic, region.mask).Some? {
        UpdatedShaped(table, files, file, region.className, SegmentedColors(pic, region.mask).value, fit);
      }
      if first.Ok? {
        VisitRegionsShaped(first.value, files, file, pic, regions[1..], fit);
      }
    }
  }

  lemma {:induction false} VisitFacesShaped(table: ColorTable, files: seq<string>, file: string, pic: Picture, faces: FaceSegments, fit: ColorFit)
    requires Shaped(table, files) && file in files
    ensures var r := VisitFaces(table, file, pic, faces, fit); r.Ok? ==> Shaped(r.value, files)
    decreases |faces|
  {
    if faces != [] {
      VisitRegionsShaped(table, files, file, pic, faces[0].1, fit);
      var first := VisitRegions(table, file, pic, faces[0].1, fit);
      if first.Ok? {
        VisitFacesShaped(first.value, files, file, pic, faces[1..], fit);
      }
    }
  }

  lemma {:induction false} VisitFilesShaped(table: ColorTable, files: seq<string>, segs: Dict<string, SegEntry>, fit: ColorFit)
    requires Shaped(table, files) && forall f :: f in Keys(segs) ==> f in files
    ensures var r := VisitFiles(table, segs, fit); r.Ok? ==> Shaped(r.value, files)
    decreases |segs|
  {
    if segs != [] {
      var (file, entry) := segs[0];
      assert file in Keys(segs);
      if entry.pic.isPil {
        VisitFacesShaped(table, files, file, entry.pic, entry.faces, fit);
        var first := VisitFaces(table, file, entry.pic, entry.faces, fit);
        if first.Ok? {
          assert forall f :: f in Keys(segs[1..]) ==> f in Keys(segs) by {
            forall f | f in Keys(segs[1..]) ensures f in Keys(segs) {
              var i :| 0 <= i < |segs[1..]| && Keys(segs[1..])[i] == f;
              assert Keys(segs)[i + 1] == f;
            }
          }
          VisitFilesShaped(first.value, files, segs[1..], fit);
        }
      }
    }
  }

  /**
   * With a three-means fit, a region of one or two pixels makes the update
   * raise ValueError, and a stored swatch holds nine values: three
   * representatives of three channels each.
   */
  lemma UpdatedThreeMeans(table: ColorTable, file: string, name: string, colors: seq<Rgb>, fit: ColorFit)
    requires ThreeMeans(fit) && !ColorExcluded(name) && colors != []
    ensures |colors| < 3 ==> Updated(table, file, name, colors, fit) == Raised(ValueError)
    ensures var r := Updated(table, file, name, colors, fit);
      r.Ok? ==> file in Keys(r.value) && Get(Get(r.value, file).value, name).Some? && |Get(Get(r.value, file).value, name).value| == 9
  {
    if fit(colors).Some? {
      UpdatedStores(table, file, name, colors, fit);
    }
  }

  /** Every stored swatch holds nine values. */
  ghost predicate NineWide(table: ColorTable)
  {
    forall f, n :: f in Keys(table) && n in Keys(Get(table, f).value) ==> |Get(Get(table, f).value, n).value| == 9
  }

  /** Storing a nine-value swatch keeps every swatch nine values wide. */
  lemma StoreWide(table: ColorTable, file: string, name: string, sw: Swatch)
    requires NineWide(table) && |sw| == 9
    ensures NineWide(Store(table, file, name, sw))
  {
    var inner := if file in Keys(table) then Get(table, file).value else [];
    var r := Store(table, file, name, sw);
    StoreAt(table, file, name, sw);
    forall f, n | f in Keys(r) && n in Keys(Get(r, f).value) ensures |Get(Get(r, f).value, n).value| == 9 {
      if f == file {
        if n != name {
          assert n in Keys(inner);
        }
      } else {
        assert Get(r, f) == Get(table, f);
      }
    }
  }

  lemma UpdatedWide(table: ColorTable, file: string, name: string, colors: seq<Rgb>, fit: ColorFit)
    requires ThreeMeans(fit) && NineWide(table)
    ensures var r := Updated(table, file, name, colors, fit); r.Ok? ==> NineWide(r.value)
  {
    if !ColorExcluded(name) && colors != [] && fit(colors).Some? {
      var reps := Representatives(colors, fit(colors).value);
      StoreWide(table, file, name, ToSwatch(reps));
    }
  }

  lemma {:induction false} VisitRegionsWide(table: ColorTable, file: string, pic: Picture, regions: seq<Region>, fit: ColorFit)
    requires ThreeMeans(fit) && NineWide(table)
    ensures var r := VisitRegions(table, file, pic, regions, fit); r.Ok? ==> NineWide(r.value)
    decreases |regions|
  {
    if regions != [] {
      var region := regions[0];
      var first := VisitRegion(table, file, pic, region, fit);
      if SegmentedColors(pic, region.mask).Some? {
        UpdatedWide(table, file, region.className, SegmentedColors(pic, region.mask).value, fit);
      }
      if first.Ok? {
        VisitRegionsWide(first.value, file, pic, regions[1..], fit);
      }
    }
  }

  lemma {:induction false} VisitFacesWide(table: ColorTable, file: string, pic: Picture, faces: FaceSegments, fit: ColorFit)
    requires ThreeMeans(fit) && NineWide(table)
    ensures var r := VisitFaces(table, file, pic, faces, fit); r.Ok? ==> NineWide(r.value)
    decreases |faces|
  {
    if faces != [] {
      VisitRegionsWide(table, file, pic, faces[0].1, fit);
      var first := VisitRegions(table, file, pic, faces[0].1, fit);
      if first.Ok? {
        VisitFacesWide(first.value, file, pic, faces[1..], fit);
      }
    }
  }

  lemma {:induction false} VisitFilesWide(table: ColorTable, segs: Dict<string, SegEntry>, fit: ColorFit)
    requires ThreeMeans(fit) && NineWide(table)
    ensures var r := VisitFiles(table, segs, fit); r.Ok? ==> NineWide(r.value)
    decreases |segs|
  {
    if segs != [] {
      var (file, entry) := segs[0];
      if entry.pic.isPil {
        VisitFacesWide(table, file, entry.pic, entry.faces, fit);
        var first := VisitFaces(table, file, entry.pic, entry.faces, fit);
        if first.Ok? {
          VisitFilesWide(first.value, segs[1..], fit);
        }
      }
    }
  }

  /**
   * Normalisation keeps the files, the classes and their order, and turns
   * every raw channel value into the same value divided by 255, which lies
   * in [0, 1].
   */
  lemma NormalizedInUnitInterval(table: ColorTable, files: seq<string>)
    requires Shaped(table, files)
    ensures var r := Normalized(table);
      && Keys(r) == Keys(table)
      && forall i :: 0 <= i < |r| ==>
           && Keys(r[i].1) == Keys(table[i].1)
           && forall j :: 0 <= j < |r[i].1| ==>
                && |r[i].1[j].1| == |table[i].1[j].1|
                && forall v :: v in r[i].1[j].1 ==> v.Num? && 0.0 <= v.v <= 1.0
  {
    var r := Normalized(table);
    forall i, j, v | 0 <= i < |r| && 0 <= j < |r[i].1| && v in r[i].1[j].1
      ensures v.Num? && 0.0 <= v.v <= 1.0
    {
      GetAt(table, i);
      var inner := table[i].1;
      assert InnerShaped(inner);
      GetAt(inner, j);
      assert RawSwatch(inner[j].1);
      var k :| 0 <= k < |r[i].1[j].1| && r[i].1[j].1[k] == v;
      assert IsChannel(inner[j].1[k]);
    }
  }

  /**
   * `extract_dominant_colors` returns a dict with no repeated file, only
   * files of `all_segments`, each with a non-empty class dict that holds no
   * `background` or `imouth` entry; its values are 8-bit channel values,
   * or the same divided by 255 (hence in [0, 1]) when `normalize` is set.
   */
  lemma ExtractedColorsShape(segs: Dict<string, SegEntry>, normalize: bool, fit: ColorFit)
    requires ExtractedColors(segs, normalize, fit).Ok?
    ensures var raw := VisitFiles([], segs, fit);
      && raw.Ok?
      && Shaped(raw.value, Keys(segs))
      && ExtractedColors(segs, normalize, fit).value == if normalize then Normalized(raw.value) else raw.value
  {
    VisitFilesShaped([], Keys(segs), segs, fit);
  }

  /**
   * With a three-means fit, every swatch `extract_dominant_colors` returns,
   * normalised or not, holds nine values.
   */
  lemma ExtractedColorsNineWide(segs: Dict<string, SegEntry>, normalize: bool, fit: ColorFit)
    requires ThreeMeans(fit) && ExtractedColors(segs, normalize, fit).Ok?
    ensures var r := ExtractedColors(segs, normalize, fit).value;
      forall i, j :: 0 <= i < |r| && 0 <= j < |r[i].1| ==> |r[i].1[j].1| == 9
  {
    ExtractedColorsShape(segs, normalize, fit);
    VisitFilesWide([], segs, fit);
    var raw := VisitFiles([], segs, fit).value;
    forall i, j | 0 <= i < |raw| && 0 <= j < |raw[i].1| ensures |raw[i].1[j].1| == 9 {
      GetAt(raw, i);
      assert InnerShaped(raw[i].1);
      GetAt(raw[i].1, j);
      assert raw[i].1[j].0 in Keys(raw[i].1);
    }
    if normalize {
      NormalizedInUnitInterval(raw, Keys(segs));
    }
  }
}
