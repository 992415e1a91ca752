/**
 * Detection and segmentation of faces (`FaceSegmentation` of the
 * clustering package).
 *
 * Phase 1 walks the work list by index. An entry in which the detector finds
 * more than one face is spliced out and replaced by one crop per face, and
 * the index stays where it is, so the first crop is examined next. Entries
 * with zero or one face are recorded in `all_faces` under their own name; an
 * entry whose loading or detection raises is skipped. Fewer than twelve
 * recorded names make the whole call return False. Phase 2 parses and
 * segments every recorded image, dropping the ones that raise.
 *
 * The detector and the parser (with its softmax) are parameters; the
 * detection loop carries a step bound (`fuel`) because the source loop need
 * not terminate: a crop in which the detector again finds several faces is
 * split again, without end.
 */
module Segmentation {
  import opened Common
  import opened Python
  import opened Dicts

  /** Distinct names that must survive detection before segmentation runs. */
  const MinFaces: nat := 12

  /** A face bounding box `(x1, y1, x2, y2)` as the detector reports it. */
  datatype Rect = Rect(x1: real, y1: real, x2: real, y2: real)

  /** Per-pixel probabilities of one class for one face. */
  type Grid = seq<seq<real>>

  type Mask = seq<seq<bool>>

  /**
   * The face parser's output after softmax: `probs[face][class]` is a grid of
   * probabilities, `classes` the size of the tensor's class dimension and
   * `labelNames` the parser's class names.
   */
  datatype Parsing = Parsing(probs: seq<seq<Grid>>, classes: nat, labelNames: seq<string>)

  /** A tensor is rectangular: every face has one grid per class. */
  type SegProbs = p: Parsing | forall f :: 0 <= f < |p.probs| ==> |p.probs[f]| == p.classes
    witness Parsing([], 0, [])

  /** The face detector: the rectangles of the faces it finds, or None when it raises. */
  type Detector = Picture -> Option<seq<Rect>>

  /** The face parser followed by softmax, or None when either raises. */
  type Parser = (Picture, seq<Rect>) -> Option<SegProbs>

  /** One `[mask, class_name]` pair of a face's segment list. */
  datatype Region = Region(mask: Mask, className: string)

  /** The `segments` dict: face id -> the regions kept for that face. */
  type FaceSegments = Dict<nat, seq<Region>>

  /** A value of `all_faces`: the image and what the detector found in it. */
  datatype FaceRecord = FaceRecord(pic: Picture, rects: seq<Rect>)

  /** A value of `all_segments`: `[image, segments]`. */
  datatype SegEntry = SegEntry(pic: Picture, faces: FaceSegments)

  datatype SegOutcome =
    | TooFewFaces   // `process_images` returns False
    | OutOfFuel     // the detection loop had not finished within the model's step bound
    | Segmented(segments: Dict<string, SegEntry>)

  // ---------------------------------------------------------------------
  // _segment_faces
  // ---------------------------------------------------------------------

  /** Labels `_segment_faces` never emits. */
  predicate SegmentExcluded(name: string)
  {
    name == "background" || name == "mouth"
  }

  /** `(probs > 0.5)`, cell by cell. */
  function Threshold(g: Grid): (m: Mask)
    ensures |m| == |g|
    ensures forall i :: 0 <= i < |g| ==> |m[i]| == |g[i]|
    ensures forall i, j :: 0 <= i < |g| && 0 <= j < |g[i]| ==> (m[i][j] <==> g[i][j] > 0.5)
  {
    seq(|g|, i requires 0 <= i < |g| => seq(|g[i]|, j requires 0 <= j < |g[i]| => g[i][j] > 0.5))
  }

  /** `mask.sum() > 0`: some cell of the mask is set. */
  predicate AnySet(m: Mask)
  {
    exists i, j :: 0 <= i < |m| && 0 <= j < |m[i]| && m[i][j]
  }

  /** Class `c` of face `f` yields a region: it is not excluded and its thresholded mask is not empty. */
  predicate Keep(p: SegProbs, f: nat, c: nat)
    requires f < |p.probs| && c < p.classes && c < |p.labelNames|
  {
    !SegmentExcluded(p.labelNames[c]) && AnySet(Threshold(p.probs[f][c]))
  }

  /** The regions of face `f` among the first `n` classes, in class order. */
  function KeptRegions(p: SegProbs, f: nat, n: nat): seq<Region>
    requires f < |p.probs| && n <= p.classes && n <= |p.labelNames|
  {
    if n == 0 then []
    else
      KeptRegions(p, f, n - 1)
      + (if Keep(p, f, n - 1) then [Region(Threshold(p.probs[f][n - 1]), p.labelNames[n - 1])] else [])
  }

  /** The ids of the kept classes of face `f` among the first `n`, in order. */
  ghost function KeptClasses(p: SegProbs, f: nat, n: nat): seq<nat>
    requires f < |p.probs| && n <= p.classes && n <= |p.labelNames|
  {
    if n == 0 then [] else KeptClasses(p, f, n - 1) + (if Keep(p, f, n - 1) then [n - 1] else [])
  }

  /** The `segments` entries of the first `n` faces. */
  function FaceEntries(p: SegProbs, n: nat): FaceSegments
    requires n <= |p.probs| && (n > 0 ==> p.classes <= |p.labelNames|)
  {
    if n == 0 then []
    else
      var rs := KeptRegions(p, n - 1, p.classes);
      FaceEntries(p, n - 1) + (if rs != [] then [(n - 1, rs)] else [])
  }

  /**
   * What `_segment_faces` returns; None when it raises IndexError because a
   * class has no name (`label_names[class_id]`), which happens as soon as
   * there is a face and more classes than names.
   */
  function SegmentedFaces(p: SegProbs): Option<FaceSegments>
  {
    if |p.probs| > 0 && p.classes > |p.labelNames| then None
    else Some(FaceEntries(p, |p.probs|))
  }

  /** The entry of face `f` while its classes below `c` have been visited. */
  ghost function Pending(p: SegProbs, f: nat, c: nat): FaceSegments
    requires f < |p.probs| && c <= p.classes && c <= |p.labelNames|
  {
    var rs := KeptRegions(p, f, c);
    if rs != [] then [(f, rs)] else []
  }

  /** `_segment_faces`: for every face and every class in order, keep the non-empty, non-excluded masks. */
  method SegmentFaces(p: SegProbs) returns (r: Option<FaceSegments>)
    ensures r == SegmentedFaces(p)
  {
    var segments: FaceSegments := [];
    var f := 0;
    while f < |p.probs|
      invariant f <= |p.probs|
      invariant f > 0 ==> p.classes <= |p.labelNames|
      invariant segments == FaceEntries(p, f)
    {
      var next := SegmentFace(p, f, segments);
      if next.None? {
        return None;
      }
      segments := next.value;
      f := f + 1;
    }
    return Some(segments);
  }

  /**
   * The class loop of `_segment_faces` for face `f`, run on the entries of
   * the faces before it; None for the IndexError of a class without a name.
   */
  method SegmentFace(p: SegProbs, f: nat, segs: FaceSegments) returns (r: Option<FaceSegments>)
    requires f < |p.probs| && (f > 0 ==> p.classes <= |p.labelNames|)
    requires segs == FaceEntries(p, f)
    ensures r.None? <==> p.classes > |p.labelNames|
    ensures r.Some? ==> r.value == FaceEntries(p, f + 1)
  {
    var segments := segs;
    FaceEntriesKeys(p, f);
    var c := 0;
    while c < p.classes
      invariant c <= p.classes && c <= |p.labelNames|
      invariant segments == FaceEntries(p, f) + Pending(p, f, c)
    {
      if c >= |p.labelNames| {
        return None;
      }
      segments := SegmentClass(p, f, c, segments);
      c := c + 1;
    }
    return Some(segments);
  }

  /** One pass of the class loop of `_segment_faces`: class `c` of face `f` adds its region when it is kept. */
  method SegmentClass(p: SegProbs, f: nat, c: nat, segs: FaceSegments) returns (segments: FaceSegments)
    requires f < |p.probs| && c < p.classes && c < |p.labelNames|
    requires f > 0 ==> p.classes <= |p.labelNames|
    requires segs == FaceEntries(p, f) + Pending(p, f, c)
    ensures segments == FaceEntries(p, f) + Pending(p, f, c + 1)
  {
    segments := segs;
    var name := p.labelNames[c];
    if !SegmentExcluded(name) {
      var mask := Threshold(p.probs[f][c]);
      if AnySet(mask) {
        AppendRegion(p, f, c, segments);
        if f !in Keys(segments) {
          segments := Put(segments, f, []);
        }
        segments := Put(segments, f, Get(segments, f).value + [Region(mask, name)]);
      } else {
        SkipClass(p, f, c);
      }
    } else {
      SkipClass(p, f, c);
    }
  }

  /**
   * One kept class extends the face's entry by the class's region, after
   * creating the entry with an empty list when the face had none yet.
   */
  lemma AppendRegion(p: SegProbs, f: nat, c: nat, segs: FaceSegments)
    requires f < |p.probs| && c < p.classes && c < |p.labelNames| && Keep(p, f, c)
    requires f > 0 ==> p.classes <= |p.labelNames|
    requires segs == FaceEntries(p, f) + Pending(p, f, c)
    ensures var reg := Region(Threshold(p.probs[f][c]), p.labelNames[c]);
      var started := if f in Keys(segs) then segs else Put(segs, f, []);
      && (f in Keys(segs) <==> KeptRegions(p, f, c) != [])
      && Get(started, f) == Some(KeptRegions(p, f, c))
      && Put(started, f, Get(started, f).value + [reg]) == FaceEntries(p, f) + Pending(p, f, c + 1)
  {
    var done := FaceEntries(p, f);
    var rs := KeptRegions(p, f, c);
    var reg := Region(Threshold(p.probs[f][c]), p.labelNames[c]);
    FaceEntriesKeys(p, f);
    assert KeptRegions(p, f, c + 1) == rs + [reg];
    assert Pending(p, f, c + 1) == [(f, rs + [reg])];
    if rs == [] {
      assert segs == done;
      assert rs + [reg] == [reg];
      PutNew(done, f, []);
      PutLast(done, f, [], [reg]);
    } else {
      assert segs == done + [(f, rs)];
      PutLast(done, f, rs, rs + [reg]);
    }
  }

  /** A class that is not kept leaves the face's entry as it is. */
  lemma SkipClass(p: SegProbs, f: nat, c: nat)
    requires f < |p.probs| && c < p.classes && c < |p.labelNames| && !Keep(p, f, c)
    ensures Pending(p, f, c + 1) == Pending(p, f, c)
  {
    assert KeptRegions(p, f, c + 1) == KeptRegions(p, f, c);
  }

  /** The entries of the first `n` faces are keyed by increasing face ids below `n`. */
  lemma {:induction false} FaceEntriesKeys(p: SegProbs, n: nat)
    requires n <= |p.probs| && (n > 0 ==> p.classes <= |p.labelNames|)
    ensures forall i :: 0 <= i < |FaceEntries(p, n)| ==> FaceEntries(p, n)[i].0 < n
    ensures forall i, j :: 0 <= i < j < |FaceEntries(p, n)| ==> FaceEntries(p, n)[i].0 < FaceEntries(p, n)[j].0
    ensures n !in Keys(FaceEntries(p, n))
  {
    if n > 0 {
      FaceEntriesKeys(p, n - 1);
    }
  }

  /** The kept classes of a face are exactly those that are not excluded and have a non-empty mask, in increasing order, and each region is that class's mask and name. */
  lemma KeptRegionsAreKeptClasses(p: SegProbs, f: nat, n: nat)
    requires f < |p.probs| && n <= p.classes && n <= |p.labelNames|
    ensures forall c: nat :: c in KeptClasses(p, f, n) <==> c < n && Keep(p, f, c)
    ensures forall i, j :: 0 <= i < j < |KeptClasses(p, f, n)| ==> KeptClasses(p, f, n)[i] < KeptClasses(p, f, n)[j]
    ensures |KeptRegions(p, f, n)| == |KeptClasses(p, f, n)|
    ensures forall i :: 0 <= i < |KeptClasses(p, f, n)| ==>
      var c := KeptClasses(p, f, n)[i];
      c < n && KeptRegions(p, f, n)[i] == Region(Threshold(p.probs[f][c]), p.labelNames[c])
  {
    KeptClassesSorted(p, f, n);
    KeptRegionsOfClasses(p, f, n);
  }

  /** The kept classes below `n`, in increasing order. */
  lemma {:induction false} KeptClassesSorted(p: SegProbs, f: nat, n: nat)
    requires f < |p.probs| && n <= p.classes && n <= |p.labelNames|
    ensures forall c: nat :: c in KeptClasses(p, f, n) <==> c < n && Keep(p, f, c)
    ensures forall i :: 0 <= i < |KeptClasses(p, f, n)| ==> KeptClasses(p, f, n)[i] < n
    ensures forall i, j :: 0 <= i < j < |KeptClasses(p, f, n)| ==> KeptClasses(p, f, n)[i] < KeptClasses(p, f, n)[j]
  {
    if n > 0 {
      KeptClassesSorted(p, f, n - 1);
    }
  }

  /** The `i`-th region of a face is the mask and name of its `i`-th kept class. */
  lemma {:induction false} KeptRegionsOfClasses(p: SegProbs, f: nat, n: nat)
    requires f < |p.probs| && n <= p.classes && n <= |p.labelNames|
    ensures |KeptRegions(p, f, n)| == |KeptClasses(p, f, n)|
    ensures forall i :: 0 <= i < |KeptClasses(p, f, n)| ==>
      var c := KeptClasses(p, f, n)[i];
      c < n && KeptRegions(p, f, n)[i] == Region(Threshold(p.probs[f][c]), p.labelNames[c])
  {
    if n > 0 {
      KeptRegionsOfClasses(p, f, n - 1);
    }
  }

  /** Every region kept for a face has a permitted class name and a mask with a set pixel. */
  lemma {:induction false} KeptRegionsWellFormed(p: SegProbs, f: nat, n: nat)
    requires f < |p.probs| && n <= p.classes && n <= |p.labelNames|
    ensures forall r :: r in KeptRegions(p, f, n) ==> !SegmentExcluded(r.className) && AnySet(r.mask)
  {
    if n > 0 {
      KeptRegionsWellFormed(p, f, n - 1);
    }
  }

  /** Each entry of the first `n` faces holds that face's kept regions, and no entry is empty. */
  lemma {:induction false} FaceEntriesValues(p: SegProbs, n: nat)
    requires n <= |p.probs| && (n > 0 ==> p.classes <= |p.labelNames|)
    ensures forall i :: 0 <= i < |FaceEntries(p, n)| ==>
      var (f, rs) := FaceEntries(p, n)[i];
      f < n && rs == KeptRegions(p, f, p.classes) && rs != []
  {
    if n > 0 {
      FaceEntriesValues(p, n - 1);
    }
  }

  /** Face `f` has an entry among the first `n` exactly when it has a kept region below `n`. */
  lemma {:induction false} FaceEntriesCover(p: SegProbs, n: nat)
    requires n <= |p.probs| && (n > 0 ==> p.classes <= |p.labelNames|)
    ensures forall f: nat :: f < n && KeptRegions(p, f, p.classes) != [] ==> f in Keys(FaceEntries(p, n))
  {
    if n > 0 {
      FaceEntriesCover(p, n - 1);
      var prev := FaceEntries(p, n - 1);
      var rs := KeptRegions(p, n - 1, p.classes);
      if rs != [] {
        assert Keys(FaceEntries(p, n)) == Keys(prev) + [n - 1];
      } else {
        assert FaceEntries(p, n) == prev;
      }
    }
  }

  /**
   * `_segment_faces` lists faces in face-id order without repeating one,
   * has an entry for a face exactly when the face has a kept region, and
   * that entry is the face's kept regions in class order.
   */
  lemma SegmentedFacesShape(p: SegProbs)
    requires SegmentedFaces(p).Some?
    ensures var fs := SegmentedFaces(p).value;
      && Valid(fs)
      && (forall i, j :: 0 <= i < j < |fs| ==> fs[i].0 < fs[j].0)
      && (forall f: nat :: f in Keys(fs) <==> f < |p.probs| && KeptRegions(p, f, p.classes) != [])
      && (forall f :: f in Keys(fs) ==> Get(fs, f) == Some(KeptRegions(p, f, p.classes)))
  {
    var n := |p.probs|;
    var fs := FaceEntries(p, n);
    FaceEntriesKeys(p, n);
    FaceEntriesValues(p, n);
    FaceEntriesCover(p, n);
    forall f: nat | f in Keys(fs) ensures f < n && Get(fs, f) == Some(KeptRegions(p, f, p.classes)) {
      var i :| 0 <= i < |fs| && fs[i] == (f, Get(fs, f).value);
    }
  }

  /** No region `_segment_faces` emits is `background` or `mouth`, and each has a set pixel. */
  lemma SegmentedRegionsWellFormed(p: SegProbs)
    requires SegmentedFaces(p).Some?
    ensures var fs := SegmentedFaces(p).value;
      forall i, r :: 0 <= i < |fs| && r in fs[i].1 ==> !SegmentExcluded(r.className) && AnySet(r.mask)
  {
    var fs := FaceEntries(p, |p.probs|);
    FaceEntriesValues(p, |p.probs|);
    forall i, r | 0 <= i < |fs| && r in fs[i].1 ensures !SegmentExcluded(r.className) && AnySet(r.mask) {
      KeptRegionsWellFormed(p, fs[i].0, p.classes);
    }
  }

  // ---------------------------------------------------------------------
  // _extract_multiple_faces
  // ---------------------------------------------------------------------

  /** `np_image[y1:y2, x1:x2]` with `int()` of the box coordinates, turned back into a Pillow image. */
  function Crop(pic: Picture, r: Rect): (c: Picture)
    ensures c.isPil
    ensures |c.pixels| <= |pic.pixels|
    ensures forall row :: row in c.pixels ==> exists orig :: orig in pic.pixels && |row| <= |orig|
  {
    var rows := Slice(pic.pixels, Trunc(r.y1), Trunc(r.y2));
    var c := Picture(true, seq(|rows|, i requires 0 <= i < |rows| => Slice(rows[i], Trunc(r.x1), Trunc(r.x2))));
    assert forall row :: row in c.pixels ==> exists i :: 0 <= i < |rows| && row == Slice(rows[i], Trunc(r.x1), Trunc(r.x2));
    c
  }

  /**
   * Which pixels a crop holds: when the truncated row bounds lie within the
   * picture, the crop is exactly those rows, each sliced to the truncated
   * column bounds.
   */
  lemma CropRows(pic: Picture, r: Rect)
    requires 0 <= Trunc(r.y1) <= Trunc(r.y2) <= |pic.pixels|
    ensures var c := Crop(pic, r);
      && |c.pixels| == Trunc(r.y2) - Trunc(r.y1)
      && forall i :: 0 <= i < |c.pixels| ==> c.pixels[i] == Slice(pic.pixels[Trunc(r.y1) + i], Trunc(r.x1), Trunc(r.x2))
  {
  }

  /** `f"{name}/face_{i}"`. */
  function CropName(name: string, i: nat): string
  {
    name + "/face_" + IntToString(i)
  }

  /** The names `f"{name}/face_{i}"` for `i` in `range(n)`. */
  function CropNames(name: string, n: nat): (names: seq<string>)
    ensures |names| == n
  {
    if n == 0 then [] else CropNames(name, n - 1) + [CropName(name, n - 1)]
  }

  /** The `i`-th of those names is `f"{name}/face_{i}"`. */
  lemma {:induction false} CropNamesAt(name: string, n: nat, i: nat)
    requires i < n
    ensures CropNames(name, n)[i] == CropName(name, i)
    decreases n
  {
    if i < n - 1 {
      CropNamesAt(name, n - 1, i);
    }
  }

  /** `faces_array`: one crop per detected rectangle, in detection order. */
  function FaceCrops(image: NamedImage, rects: seq<Rect>): (crops: seq<NamedImage>)
    ensures |crops| == |rects|
    ensures forall i :: 0 <= i < |rects| ==> crops[i].pic == Crop(image.pic, rects[i])
  {
    var names := CropNames(image.name, |rects|);
    seq(|rects|, i requires 0 <= i < |rects| => NamedImage(names[i], Crop(image.pic, rects[i])))
  }

  /** The crops of the first `i + 1` rectangles extend those of the first `i` by the crop of rectangle `i`. */
  lemma CropsPrefixStep(image: NamedImage, rects: seq<Rect>, i: nat)
    requires i < |rects|
    ensures FaceCrops(image, rects)[..i + 1] == FaceCrops(image, rects)[..i] + [NamedImage(CropName(image.name, i), Crop(image.pic, rects[i]))]
  {
    var all := FaceCrops(image, rects);
    CropNamesAt(image.name, |rects|, i);
    assert all[i] == NamedImage(CropName(image.name, i), Crop(image.pic, rects[i]));
    TakeExtend(all, i);
  }

  /** The crop of rectangle `i` is named `f"{image.name}/face_{i}"`: a fresh name, and no two crops share one. */
  lemma FaceCropNames(image: NamedImage, rects: seq<Rect>)
    ensures var crops := FaceCrops(image, rects);
      && (forall i :: 0 <= i < |rects| ==> crops[i].name == CropName(image.name, i) != image.name)
      && (forall i, j :: 0 <= i < j < |rects| ==> crops[i].name != crops[j].name)
  {
    var crops := FaceCrops(image, rects);
    forall i | 0 <= i < |rects| ensures crops[i].name == CropName(image.name, i) != image.name {
      CropNamesAt(image.name, |rects|, i);
      assert |CropName(image.name, i)| > |image.name|;
    }
    forall i, j | 0 <= i < j < |rects| ensures crops[i].name != crops[j].name {
      if crops[i].name == crops[j].name {
        PrefixedNumbersDistinct(image.name + "/face_", i, j);
      }
    }
  }

  /** The loop that fills `faces_array`, one `[f"{name}/face_{i}", crop]` per rectangle. */
  method CollectCrops(image: NamedImage, rects: seq<Rect>) returns (crops: seq<NamedImage>)
    ensures crops == FaceCrops(image, rects)
  {
    crops := [];
    for i := 0 to |rects|
      invariant crops == FaceCrops(image, rects)[..i]
    {
      CropsPrefixStep(image, rects, i);
      crops := crops + [NamedImage(CropName(image.name, i), Crop(image.pic, rects[i]))];
    }
  }

  /**
   * `_extract_multiple_faces` on the work list `images`: TypeError for an
   * image that is not a Pillow image; otherwise the first entry equal to
   * `image` is replaced by the crops, and a list without such an entry is
   * left as it is.
   */
  function Extracted(images: seq<NamedImage>, image: NamedImage, rects: seq<Rect>): Outcome<seq<NamedImage>>
  {
    if !image.pic.isPil then Raised(TypeError)
    else match FirstIndex(images, image)
      case None => Ok(images)
      case Some(j) => Ok(images[..j] + FaceCrops(image, rects) + images[j + 1..])
  }

  // ---------------------------------------------------------------------
  // process_images, phase 1: detection
  // ---------------------------------------------------------------------

  /** `_load_image` then `_detect_faces`: None when either raises. */
  function Detect(detect: Detector, pic: Picture): Option<seq<Rect>>
  {
    if !pic.isPil then None else detect(pic)
  }

  /** Detection finds more than one face in `pic`, so its entry is split. */
  predicate Splits(detect: Detector, pic: Picture)
  {
    Detect(detect, pic).Some? && |Detect(detect, pic).value| > 1
  }

  /** The variables of the detection loop: the work list, the index and `all_faces`. */
  datatype Progress = Progress(images: seq<NamedImage>, index: nat, faces: Dict<string, FaceRecord>)

  /** One iteration of the detection loop. */
  function Step(detect: Detector, s: Progress): Progress
    requires s.index < |s.images|
  {
    var image := s.images[s.index];
    match Detect(detect, image.pic)
    case None => s.(index := s.index + 1)
    case Some(rects) =>
      if |rects| > 1 then
        match Extracted(s.images, image, rects)
        case Raised(_) => s.(index := s.index + 1)
        case Ok(split) => s.(images := split)
      else
        s.(index := s.index + 1, faces := Put(s.faces, image.name, FaceRecord(image.pic, rects)))
  }

  /** The three ways an iteration of the detection loop can go. */
  lemma StepCases(detect: Detector, s: Progress)
    requires s.index < |s.images|
    ensures var image := s.images[s.index];
      var found := Detect(detect, image.pic);
      var next := s.(index := s.index + 1);
      && (found.None? ==> Step(detect, s) == next)
      && (found.Some? && |found.value| > 1 ==>
            Step(detect, s) == match Extracted(s.images, image, found.value)
              case Raised(_) => next
              case Ok(split) => s.(images := split))
      && (found.Some? && |found.value| <= 1 ==>
            Step(detect, s) == next.(faces := Put(s.faces, image.name, FaceRecord(image.pic, found.value))))
  {
  }

  datatype Detection = Unfinished | Detected(images: seq<NamedImage>, faces: Dict<string, FaceRecord>)

  /** The detection loop from state `s`, allowed `fuel` more iterations. */
  function DetectFrom(detect: Detector, s: Progress, fuel: nat): Detection
    decreases fuel
  {
    if s.index >= |s.images| then Detected(s.images, s.faces)
    else if fuel == 0 then Unfinished
    else DetectFrom(detect, Step(detect, s), fuel - 1)
  }

  /** With iterations left and an entry to visit, the loop does one step and goes on. */
  lemma DetectFromStep(detect: Detector, s: Progress, fuel: nat)
    requires s.index < |s.images| && fuel > 0
    ensures DetectFrom(detect, s, fuel) == DetectFrom(detect, Step(detect, s), fuel - 1)
  {
  }

  function DetectAll(detect: Detector, images: seq<NamedImage>, fuel: nat): Detection
  {
    DetectFrom(detect, Progress(images, 0, []), fuel)
  }

  // ---------------------------------------------------------------------
  // process_images, phase 2: segmentation
  // ---------------------------------------------------------------------

  /** `_load_image`, `_parse_faces`, softmax and `_segment_faces` for one recorded image; None when any raises. */
  function SegmentOne(parse: Parser, rec: FaceRecord): Option<FaceSegments>
  {
    if !rec.pic.isPil then None
    else match parse(rec.pic, rec.rects)
      case None => None
      case Some(p) => SegmentedFaces(p)
  }

  /** `all_segments` after visiting the entries of `faces` in order. */
  function SegmentAll(parse: Parser, faces: Dict<string, FaceRecord>): Dict<string, SegEntry>
    decreases |faces|
  {
    if faces == [] then []
    else
      var (key, rec) := faces[|faces| - 1];
      var done := SegmentAll(parse, faces[..|faces| - 1]);
      match SegmentOne(parse, rec)
      case None => done
      case Some(fs) => Put(done, key, SegEntry(rec.pic, fs))
  }

  /** One more recorded image extends `all_segments` by its entry, unless it raised. */
  lemma SegmentAllNext(parse: Parser, faces: Dict<string, FaceRecord>, i: nat)
    requires i < |faces|
    ensures SegmentAll(parse, faces[..i + 1]) ==
      match SegmentOne(parse, faces[i].1)
      case None => SegmentAll(parse, faces[..i])
      case Some(fs) => Put(SegmentAll(parse, faces[..i]), faces[i].0, SegEntry(faces[i].1.pic, fs))
  {
    assert faces[..i + 1][..i] == faces[..i];
  }

  /** What `process_images` returns. */
  function ProcessedImages(detect: Detector, parse: Parser, images: seq<NamedImage>, fuel: nat): SegOutcome
  {
    match DetectAll(detect, images, fuel)
    case Unfinished => OutOfFuel
    case Detected(_, faces) =>
      if |faces| < MinFaces then TooFewFaces else Segmented(SegmentAll(parse, faces))
  }

  class FaceSegmentation {
    var images: seq<NamedImage>
    const detect: Detector
    const parse: Parser

    constructor (images: seq<NamedImage>, detect: Detector, parse: Parser)
      ensures this.images == images && this.detect == detect && this.parse == parse
    {
      this.images := images;
      this.detect := detect;
      this.parse := parse;
    }

    /** `_extract_multiple_faces`: splice the crops of `image` into the work list; `raised` for TypeError. */
    method ExtractMultipleFaces(image: NamedImage, rects: seq<Rect>) returns (raised: bool)
      modifies this
      ensures raised <==> Extracted(old(images), image, rects).Raised?
      ensures images == if raised then old(images) else Extracted(old(images), image, rects).value
    {
      if !image.pic.isPil {
        return true;
      }
      var crops := CollectCrops(image, rects);
      var found := FirstIndex(images, image);
      if found.Some? {
        var j := found.value;
        images := images[..j] + crops + images[j + 1..];
      }
      return false;
    }

    /** The body of the segmentation loop for one recorded image: None when loading, parsing or segmenting raises. */
    method SegmentRecord(rec: FaceRecord) returns (r: Option<FaceSegments>)
      ensures r == SegmentOne(parse, rec)
    {
      if !rec.pic.isPil {
        return None;
      }
      var parsed := parse(rec.pic, rec.rects);
      if parsed.None? {
        return None;
      }
      r := SegmentFaces(parsed.value);
    }

    /** One iteration of the detection loop, on the work list and the loop's `index` and `all_faces`. */
    method DetectStep(index: nat, allFaces: Dict<string, FaceRecord>) returns (index': nat, allFaces': Dict<string, FaceRecord>)
      requires index < |images|
      modifies this
      ensures Progress(images, index', allFaces') == Step(detect, Progress(old(images), index, allFaces))
    {
      ghost var s := Progress(images, index, allFaces);
      StepCases(detect, s);
      index', allFaces' := index + 1, allFaces;
      var image := images[index];
      var detected := Detect(detect, image.pic);
      if detected.Some? {
        var rects := detected.value;
        if |rects| > 1 {
          var raised := ExtractMultipleFaces(image, rects);
          if !raised {
            index' := index;
          }
        } else {
          allFaces' := Put(allFaces, image.name, FaceRecord(image.pic, rects));
        }
      }
    }

    /** One iteration of the detection loop with `steps` iterations left: the rest of the loop then has one fewer. */
    method DetectIteration(index: nat, allFaces: Dict<string, FaceRecord>, steps: nat) returns (index': nat, allFaces': Dict<string, FaceRecord>)
      requires index < |images| && steps > 0
      modifies this
      ensures DetectFrom(detect, Progress(images, index', allFaces'), steps - 1) == DetectFrom(detect, Progress(old(images), index, allFaces), steps)
    {
      DetectFromStep(detect, Progress(images, index, allFaces), steps);
      index', allFaces' := DetectStep(index, allFaces);
    }

    /**
     * The detection loop of `process_images`, allowed `fuel` iterations:
     * Unfinished when they run out, otherwise the final work list (which it
     * leaves in `images`) and `all_faces`.
     */
    method DetectFaces(fuel: nat) returns (d: Detection)
      modifies this
      ensures d == DetectAll(detect, old(images), fuel)
      ensures d.Detected? ==> images == d.images
    {
      var allFaces: Dict<string, FaceRecord> := [];
      var index: nat := 0;
      var steps := fuel;
      while index < |images|
        invariant DetectFrom(detect, Progress(images, index, allFaces), steps) == DetectAll(detect, old(images), fuel)
        decreases steps
      {
        if steps == 0 {
          return Unfinished;
        }
        index, allFaces := DetectIteration(index, allFaces, steps);
        steps := steps - 1;
      }
      return Detected(images, allFaces);
    }

    /** `process_images`, with at most `fuel` iterations of the detection loop. */
    method ProcessImages(fuel: nat) returns (r: SegOutcome)
      modifies this
      ensures r == ProcessedImages(detect, parse, old(images), fuel)
      ensures DetectAll(detect, old(images), fuel).Detected? ==> images == DetectAll(detect, old(images), fuel).images
    {
      var d := DetectFaces(fuel);
      if d.Unfinished? {
        return OutOfFuel;
      }
      var allFaces := d.faces;
      if |allFaces| < MinFaces {
        return TooFewFaces;
      }
      ghost var afterDetection := images;
      var segments: Dict<string, SegEntry> := [];
      for i := 0 to |allFaces|
        invariant images == afterDetection
        invariant segments == SegmentAll(parse, allFaces[..i])
      {
        var (key, rec) := allFaces[i];
        SegmentAllNext(parse, allFaces, i);
        var faces := SegmentRecord(rec);
        if faces.Some? {
          segments := Put(segments, key, SegEntry(rec.pic, faces.value));
        }
      }
      assert allFaces[..|allFaces|] == allFaces;
      return Segmented(segments);
    }
  }

  // ---------------------------------------------------------------------
  // Properties of the detection loop and of process_images
  // ---------------------------------------------------------------------

  /**
   * A recorded image: an entry named `name` with the recorded picture has
   * been visited, and detection on that picture finds the recorded
   * rectangles, at most one.
   */
  ghost predicate Recorded(detect: Detector, name: string, rec: FaceRecord, seen: seq<NamedImage>)
  {
    NamedImage(name, rec.pic) in seen && Detect(detect, rec.pic) == Some(rec.rects) && |rec.rects| <= 1
  }

  /**
   * What holds of the detection loop's variables at every iteration: no
   * visited entry is one that detection splits, every visited entry in which
   * detection succeeded is recorded under its name, and every record
   * describes a visited entry.
   */
  ghost predicate Consistent(detect: Detector, s: Progress)
  {
    && s.index <= |s.images|
    && (forall j :: 0 <= j < s.index ==> !Splits(detect, s.images[j].pic))
    && (forall j :: 0 <= j < s.index && Detect(detect, s.images[j].pic).Some? ==> s.images[j].name in Keys(s.faces))
    && Valid(s.faces)
    && (forall k :: k in Keys(s.faces) ==> Recorded(detect, k, Get(s.faces, k).value, s.images[..s.index]))
  }

  /**
   * `images.index(image)` finds the entry being visited: an equal entry
   * before it would have been split already. So a split replaces exactly the
   * current entry by its crops, keeps every other entry in place, and the
   * first crop is visited next; loading cannot raise there.
   */
  lemma SplitReplacesCurrentEntry(detect: Detector, s: Progress)
    requires Consistent(detect, s) && s.index < |s.images|
    requires Splits(detect, s.images[s.index].pic)
    ensures var image := s.images[s.index];
      var crops := FaceCrops(image, Detect(detect, image.pic).value);
      && FirstIndex(s.images, image) == Some(s.index)
      && Step(detect, s) == s.(images := s.images[..s.index] + crops + s.images[s.index + 1..])
  {
    var image := s.images[s.index];
    forall j | 0 <= j < s.index ensures s.images[j] != image {
      assert !Splits(detect, s.images[j].pic);
    }
    FirstIndexAt(s.images, image, s.index);
    StepCases(detect, s);
  }

  /** An iteration that splits the current entry keeps the loop's variables consistent. */
  lemma SplitConsistent(detect: Detector, s: Progress)
    requires Consistent(detect, s) && s.index < |s.images|
    requires Splits(detect, s.images[s.index].pic)
    ensures Consistent(detect, Step(detect, s))
  {
    var t := Step(detect, s);
    SplitReplacesCurrentEntry(detect, s);
    assert t.images[..s.index] == s.images[..s.index];
    forall j | 0 <= j < s.index ensures t.images[j] == s.images[j] {
      assert t.images[..s.index][j] == s.images[..s.index][j];
    }
  }

  /** A record of the entries seen so far still describes an entry once one more is seen. */
  lemma RecordedLonger(detect: Detector, name: string, rec: FaceRecord, seen: seq<NamedImage>, image: NamedImage)
    requires Recorded(detect, name, rec, seen)
    ensures Recorded(detect, name, rec, seen + [image])
  {
  }

  /** An iteration in which detection finds nothing keeps the loop's variables consistent. */
  lemma MissConsistent(detect: Detector, s: Progress)
    requires Consistent(detect, s) && s.index < |s.images|
    requires Detect(detect, s.images[s.index].pic).None?
    ensures Consistent(detect, s.(index := s.index + 1))
  {
    var image := s.images[s.index];
    var t := s.(index := s.index + 1);
    assert t.images[..t.index] == s.images[..s.index] + [image];
    forall k | k in Keys(t.faces)
      ensures Recorded(detect, k, Get(t.faces, k).value, t.images[..t.index])
    {
      RecordedLonger(detect, k, Get(s.faces, k).value, s.images[..s.index], image);
    }
  }

  /** An iteration in which detection finds at most one face records it and keeps the loop's variables consistent. */
  lemma HitConsistent(detect: Detector, s: Progress)
    requires Consistent(detect, s) && s.index < |s.images|
    requires Detect(detect, s.images[s.index].pic).Some? && |Detect(detect, s.images[s.index].pic).value| <= 1
    ensures var image := s.images[s.index];
      Consistent(detect, s.(index := s.index + 1, faces := Put(s.faces, image.name, FaceRecord(image.pic, Detect(detect, image.pic).value))))
  {
    HitNamed(detect, s);
    HitRecorded(detect, s);
  }

  /** After recording the current entry, every visited entry in which detection succeeded has a record. */
  lemma HitNamed(detect: Detector, s: Progress)
    requires Consistent(detect, s) && s.index < |s.images|
    requires Detect(detect, s.images[s.index].pic).Some?
    ensures var image := s.images[s.index];
      var faces := Put(s.faces, image.name, FaceRecord(image.pic, Detect(detect, image.pic).value));
      forall j :: 0 <= j < s.index + 1 && Detect(detect, s.images[j].pic).Some? ==> s.images[j].name in Keys(faces)
  {
    var image := s.images[s.index];
    PutKeeps(s.faces, image.name, FaceRecord(image.pic, Detect(detect, image.pic).value));
  }

  /** After recording the current entry, every record describes an entry visited so far. */
  lemma HitRecorded(detect: Detector, s: Progress)
    requires Consistent(detect, s) && s.index < |s.images|
    requires Detect(detect, s.images[s.index].pic).Some? && |Detect(detect, s.images[s.index].pic).value| <= 1
    ensures var image := s.images[s.index];
      var faces := Put(s.faces, image.name, FaceRecord(image.pic, Detect(detect, image.pic).value));
      forall k :: k in Keys(faces) ==> Recorded(detect, k, Get(faces, k).value, s.images[..s.index + 1])
  {
    var image := s.images[s.index];
    var rec := FaceRecord(image.pic, Detect(detect, image.pic).value);
    var faces := Put(s.faces, image.name, rec);
    assert s.images[..s.index + 1] == s.images[..s.index] + [image];
    forall k | k in Keys(faces)
      ensures Recorded(detect, k, Get(faces, k).value, s.images[..s.index + 1])
    {
      if k == image.name {
        assert NamedImage(k, image.pic) == image;
      } else {
        RecordedLonger(detect, k, Get(s.faces, k).value, s.images[..s.index], image);
      }
    }
  }

  /** Every iteration of the detection loop keeps its variables consistent. */
  lemma StepConsistent(detect: Detector, s: Progress)
    requires Consistent(detect, s) && s.index < |s.images|
    ensures Consistent(detect, Step(detect, s))
  {
    if Splits(detect, s.images[s.index].pic) {
      SplitConsistent(detect, s);
    } else if Detect(detect, s.images[s.index].pic).None? {
      MissConsistent(detect, s);
      StepCases(detect, s);
    } else {
      HitConsistent(detect, s);
      StepCases(detect, s);
    }
  }

  /** A finished detection loop left consistent variables with every entry visited. */
  ghost predicate EndsConsistent(detect: Detector, d: Detection)
  {
    d.Detected? ==> Consistent(detect, Progress(d.images, |d.images|, d.faces))
  }

  /** The detection loop ends, if it ends, with consistent variables and every entry visited. */
  lemma {:induction false} DetectFromConsistent(detect: Detector, s: Progress, fuel: nat)
    requires Consistent(detect, s)
    ensures EndsConsistent(detect, DetectFrom(detect, s, fuel))
    decreases fuel
  {
    if s.index < |s.images| && fuel > 0 {
      var t := Step(detect, s);
      assert EndsConsistent(detect, DetectFrom(detect, t, fuel - 1)) by {
        StepConsistent(detect, s);
        DetectFromConsistent(detect, t, fuel - 1);
      }
      DetectFromStep(detect, s, fuel);
    } else if s.index >= |s.images| {
      assert Progress(s.images, |s.images|, s.faces) == s;
    }
  }

  /**
   * After detection no entry of the work list has more than one face; every
   * entry whose loading and detection succeeded is recorded under its name;
   * `all_faces` repeats no name, and each of its records is an entry of the
   * final list together with exactly what detection finds in it.
   */
  lemma DetectionResult(detect: Detector, images: seq<NamedImage>, fuel: nat)
    requires DetectAll(detect, images, fuel).Detected?
    ensures var d := DetectAll(detect, images, fuel);
      && (forall e :: e in d.images ==> !Splits(detect, e.pic))
      && (forall e :: e in d.images && Detect(detect, e.pic).Some? ==> e.name in Keys(d.faces))
      && Valid(d.faces)
      && (forall k :: k in Keys(d.faces) ==> Recorded(detect, k, Get(d.faces, k).value, d.images))
  {
    var d := DetectAll(detect, images, fuel);
    DetectFromConsistent(detect, Progress(images, 0, []), fuel);
    assert d.images[..|d.images|] == d.images;
  }

  /** One entry of `all_segments` for a recorded image, or None when segmenting it raised. */
  function SegmentedEntry(parse: Parser, rec: FaceRecord): (r: Option<SegEntry>)
    ensures r.Some? ==> r.value.pic == rec.pic
  {
    match SegmentOne(parse, rec)
    case None => None
    case Some(fs) => Some(SegEntry(rec.pic, fs))
  }

  /**
   * `all_segments` keeps the order of `all_faces`, leaves out exactly the
   * images whose segmentation raised, and stores under every other name that
   * image's segmentation.
   */
  lemma {:induction false} SegmentAllEntries(parse: Parser, faces: Dict<string, FaceRecord>)
    requires Valid(faces)
    ensures var segs := SegmentAll(parse, faces);
      && Valid(segs)
      && SubsequenceOf(Keys(segs), Keys(faces))
      && (forall k :: k !in Keys(faces) ==> k !in Keys(segs))
      && (forall k :: k in Keys(faces) ==> Get(segs, k) == SegmentedEntry(parse, Get(faces, k).value))
    decreases |faces|
  {
    if faces != [] {
      var n := |faces|;
      var init := faces[..n - 1];
      var (key, rec) := faces[n - 1];
      assert faces == init + [(key, rec)];
      assert Keys(init) == Keys(faces)[..n - 1];
      assert key !in Keys(init) by {
        assert Keys(faces)[n - 1] == key;
      }
      SegmentAllEntries(parse, init);
      PutNew(init, key, rec);
      var prev := SegmentAll(parse, init);
      var segs := SegmentAll(parse, faces);
      assert segs == if SegmentOne(parse, rec).None? then prev else Put(prev, key, SegmentedEntry(parse, rec).value);
      if SegmentOne(parse, rec).Some? {
        PutNew(prev, key, SegmentedEntry(parse, rec).value);
      }
      SubsequenceAppend(Keys(prev), Keys(init), key);
      forall k | k in Keys(faces) ensures Get(segs, k) == SegmentedEntry(parse, Get(faces, k).value) {
        if k != key {
          assert Get(faces, k) == Get(init, k);
          assert Get(segs, k) == Get(prev, k);
        }
      }
    }
  }

  /**
   * `process_images` returns False exactly when detection ends with fewer
   * than twelve distinct names; otherwise every name in `all_segments` names
   * an entry of the final work list, with that entry's picture, in which
   * detection finds at most one face.
   */
  lemma ProcessedImagesResult(detect: Detector, parse: Parser, images: seq<NamedImage>, fuel: nat)
    ensures var r := ProcessedImages(detect, parse, images, fuel);
      var d := DetectAll(detect, images, fuel);
      && (r == TooFewFaces <==> d.Detected? && |Keys(d.faces)| < MinFaces)
      && (r == OutOfFuel <==> d.Unfinished?)
      && (r.Segmented? ==>
            && Valid(r.segments)
            && |Keys(d.faces)| >= MinFaces
            && forall k :: k in Keys(r.segments) ==>
                 && NamedImage(k, Get(r.segments, k).value.pic) in d.images
                 && k in Keys(d.faces)
                 && Get(r.segments, k) == SegmentedEntry(parse, Get(d.faces, k).value))
  {
    var d := DetectAll(detect, images, fuel);
    if d.Detected? {
      DetectionResult(detect, images, fuel);
      SegmentAllEntries(parse, d.faces);
      var segs := SegmentAll(parse, d.faces);
      forall k | k in Keys(segs)
        ensures k in Keys(d.faces) && NamedImage(k, Get(segs, k).value.pic) in d.images
      {
        assert Recorded(detect, k, Get(d.faces, k).value, d.images);
      }
    }
  }
}
