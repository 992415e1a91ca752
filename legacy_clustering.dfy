/**
 * `Clustering.execute` of the earlier `cluster` package: the three stages
 * always run, in order, with no gate, and whatever the clusterer returns
 * is the result. The colour extractor of that package
 * (cluster/color_extraction.py) is not part of this model, so it is a
 * parameter: it is handed the original image list and the segments.
 */
module LegacyClustering {
  import opened Common
  import opened Dicts
  import opened Segmentation
  import opened ColorExtraction
  import LegacySegmentation
  import CC = ColorClusterer
  import LegacyColorClusterer

  /** `ColorExtractor(images).extract_dominant_colors(segments)`; Raised when it raises. */
  type Extractor = (seq<NamedImage>, Dict<string, SegEntry>) -> Outcome<ColorTable>

  /** The detector, the face parser, the colour extractor and the twelve-means fit the stages are built with. */
  datatype Models = Models(detect: Detector, parse: Parser, extract: Extractor, clusterFit: CC.ClusterFit)

  /** What `execute(images)` returns: the clusterer's dict, or the exception that escapes. */
  function Executed(m: Models, images: seq<NamedImage>): Outcome<Dict<int, seq<string>>>
  {
    var segments := LegacySegmentation.Segments(m.detect, m.parse, images);
    match m.extract(images, segments)
    case Raised(e) => Raised(e)
    case Ok(colors) => LegacyColorClusterer.Clustered(colors, m.clusterFit)
  }

  /** `execute`: build each stage and hand its result to the next. */
  method Execute(m: Models, images: seq<NamedImage>) returns (r: Outcome<Dict<int, seq<string>>>)
    ensures r == Executed(m, images)
  {
    var faceSegmentation := new LegacySegmentation.FaceSegmentation(images, m.detect, m.parse);
    var segments := faceSegmentation.ProcessImages();
    var dominantColors := m.extract(images, segments);
    if dominantColors.Raised? {
      return Raised(dominantColors.error);
    }
    var colorClusterer := new LegacyColorClusterer.ColorClusterer(m.clusterFit);
    r := colorClusterer.Cluster(dominantColors.value);
  }

  /**
   * With no gate, an extractor that finds no colours (for instance because
   * no image was segmented) sends an empty table to the clusterer, whose
   * `max` of nothing raises ValueError.
   */
  lemma NoColorsRaise(m: Models, images: seq<NamedImage>)
    requires m.extract(images, LegacySegmentation.Segments(m.detect, m.parse, images)) == Ok([])
    ensures Executed(m, images) == Raised(ValueError)
  {
    CC.AssembledShape([]);
  }

  /**
   * When `execute` returns, its result is the clusterer's: the ids 0 ... 11
   * in order, and every image of the colour table listed under its label
   * and under no other.
   */
  lemma ExecutedResult(m: Models, images: seq<NamedImage>, i: nat, l: nat)
    requires m.extract(images, LegacySegmentation.Segments(m.detect, m.parse, images)).Ok?
    requires var colors := m.extract(images, LegacySegmentation.Segments(m.detect, m.parse, images)).value;
      && Valid(colors) && CC.FitOf(colors, m.clusterFit).Some?
      && i < |colors| && i < |CC.FitOf(colors, m.clusterFit).value.labels|
    requires Executed(m, images).Ok? && l < CC.Clusters
    ensures var colors := m.extract(images, LegacySegmentation.Segments(m.detect, m.parse, images)).value;
      var labels := CC.FitOf(colors, m.clusterFit).value.labels;
      var lists := Executed(m, images).value;
      && |Keys(lists)| == CC.Clusters
      && (forall k :: 0 <= k < CC.Clusters ==> Keys(lists)[k] == k)
      && Get(lists, l).Some?
      && (colors[i].0 in Get(lists, l).value <==> labels[i] == l)
  {
    var colors := m.extract(images, LegacySegmentation.Segments(m.detect, m.parse, images)).value;
    LegacyColorClusterer.ClusteredResult(colors, m.clusterFit);
    LegacyColorClusterer.EachImageListedOnce(colors, m.clusterFit, i, l);
  }
}
