/**
 * `Clustering.execute` of the clustering package: segmentation, then the
 * dominant colours of the segments, then the twelve clusters. A falsy
 * segmentation result, `False` or an empty dict, makes it return `False`
 * before any colour is extracted.
 */
module Clustering {
  import opened Common
  import opened Dicts
  import opened Segmentation
  import opened ColorExtraction
  import CC = ColorClusterer

  /** The detector, the face parser and the two k-means fits the stages are built with. */
  datatype Models = Models(detect: Detector, parse: Parser, colorFit: ColorFit, clusterFit: CC.ClusterFit)

  /** What `execute` returns, or that the model's step bound on detection ran out first. */
  datatype Execution =
    | NotClustered                                 // `return False`
    | Clusters(result: Dict<string, CC.ClusterInfo>)
    | Failed(error: Failure)                       // an exception escapes `execute`
    | StepsExhausted                               // the detection loop did not end within `fuel` steps

  /** Falsy: `False`, or the empty dict. */
  predicate Falsy(s: SegOutcome)
  {
    s == TooFewFaces || s == Segmented([])
  }

  /** What `execute(images)` returns. */
  function Executed(m: Models, images: seq<NamedImage>, fuel: nat): Execution
  {
    var segments := ProcessedImages(m.detect, m.parse, images, fuel);
    if segments.OutOfFuel? then StepsExhausted
    else if Falsy(segments) then NotClustered
    else match ExtractedColors(segments.segments, true, m.colorFit)
      case Raised(e) => Failed(e)
      case Ok(colors) =>
        match CC.Clustered(colors, m.clusterFit)
        case Raised(e) => Failed(e)
        case Ok(clusters) => Clusters(clusters)
  }

  /** `execute`: build each stage and hand its result to the next. */
  method Execute(m: Models, images: seq<NamedImage>, fuel: nat) returns (r: Execution)
    ensures r == Executed(m, images, fuel)
  {
    var faceSegmentation := new FaceSegmentation(images, m.detect, m.parse);
    var segments := faceSegmentation.ProcessImages(fuel);
    if segments.OutOfFuel? {
      return StepsExhausted;
    }
    if Falsy(segments) {
      return NotClustered;
    }
    var colorExtractor := new ColorExtractor(images, m.colorFit);
    var dominantColors := colorExtractor.ExtractDominantColors(segments.segments, true);
    if dominantColors.Raised? {
      return Failed(dominantColors.error);
    }
    var colorClusterer := new CC.ColorClusterer(m.clusterFit);
    var result := colorClusterer.Cluster(dominantColors.value);
    if result.Raised? {
      return Failed(result.error);
    }
    return Clusters(result.value);
  }

  /**
   * `execute` returns False exactly when detection ends with fewer than
   * twelve names or no image survives segmentation, and then no colour is
   * extracted and nothing is clustered.
   */
  lemma ExecutedGate(m: Models, images: seq<NamedImage>, fuel: nat)
    ensures var d := DetectAll(m.detect, images, fuel);
      Executed(m, images, fuel) == NotClustered <==>
        d.Detected? && (|Keys(d.faces)| < MinFaces || SegmentAll(m.parse, d.faces) == [])
  {
    ProcessedImagesResult(m.detect, m.parse, images, fuel);
  }

  /**
   * Past the gate the clusters are those of the normalised dominant
   * colours: every value the clusterer sees is the extracted one divided by
   * 255. The gate counts detected names, not segmented ones: a name reaches
   * the clusterer exactly when it was detected and its own segmentation
   * succeeded, so fewer than twelve images can reach the clusterer
   * (`ExecutedTooFew` says what happens to them there).
   */
  lemma ExecutedPastGate(m: Models, images: seq<NamedImage>, fuel: nat)
    requires var s := ProcessedImages(m.detect, m.parse, images, fuel); s.Segmented? && s.segments != []
    ensures var d := DetectAll(m.detect, images, fuel);
      var segs := ProcessedImages(m.detect, m.parse, images, fuel).segments;
      && d.Detected? && |Keys(d.faces)| >= MinFaces
      && (forall k :: k in Keys(segs) <==> k in Keys(d.faces) && SegmentedEntry(m.parse, Get(d.faces, k).value).Some?)
      && match ExtractedColors(segs, false, m.colorFit)
         case Raised(e) => Executed(m, images, fuel) == Failed(e)
         case Ok(raw) =>
           Executed(m, images, fuel) ==
             match CC.Clustered(Normalized(raw), m.clusterFit)
             case Raised(e) => Failed(e)
             case Ok(clusters) => Clusters(clusters)
  {
    var d := DetectAll(m.detect, images, fuel);
    ProcessedImagesResult(m.detect, m.parse, images, fuel);
    DetectionResult(m.detect, images, fuel);
    SegmentAllEntries(m.parse, d.faces);
    var segs := SegmentAll(m.parse, d.faces);
    forall k | k in Keys(d.faces) && SegmentedEntry(m.parse, Get(d.faces, k).value).Some? ensures k in Keys(segs) {
      assert Get(segs, k).Some?;
    }
  }

  /**
   * With a twelve-means fit, fewer than twelve segmented images past the
   * gate make `execute` raise: extraction raises, or the colour table has
   * at most one entry per segmented image and the fit raises ValueError.
   */
  lemma ExecutedTooFew(m: Models, images: seq<NamedImage>, fuel: nat)
    requires CC.TwelveMeans(m.clusterFit)
    requires var s := ProcessedImages(m.detect, m.parse, images, fuel);
      s.Segmented? && s.segments != [] && |s.segments| < CC.Clusters
    ensures Executed(m, images, fuel).Failed?
    ensures ExtractedColors(ProcessedImages(m.detect, m.parse, images, fuel).segments, true, m.colorFit).Ok? ==>
      Executed(m, images, fuel) == Failed(ValueError)
  {
    var segs := ProcessedImages(m.detect, m.parse, images, fuel).segments;
    if ExtractedColors(segs, true, m.colorFit).Ok? {
      ExtractedColorsShape(segs, true, m.colorFit);
      var raw := VisitFiles([], segs, m.colorFit).value;
      NormalizedInUnitInterval(raw, Keys(segs));
      DistinctWithin(Keys(raw), Keys(segs));
      CC.TwelveMeansTooFew(Normalized(raw), m.clusterFit);
    }
  }

  /**
   * The colour extractor is handed the original image list but reads only
   * the segments: two image lists whose segmentation gives the same result
   * are executed alike.
   */
  lemma ExtractorReadsOnlySegments(m: Models, images: seq<NamedImage>, images': seq<NamedImage>, fuel: nat)
    requires ProcessedImages(m.detect, m.parse, images, fuel) == ProcessedImages(m.detect, m.parse, images', fuel)
    ensures Executed(m, images, fuel) == Executed(m, images', fuel)
  {
  }
}
