/**
 * The earlier segmentation stage (`FaceSegmentation` of the `cluster`
 * package). Every entry of the work list is loaded, detected, parsed and
 * segmented in one step, whole images with however many faces they hold;
 * an entry for which any step raises is skipped, a later entry with the
 * same name replaces an earlier one, and there is no minimum number of
 * images. The list itself is never changed.
 */
module LegacySegmentation {
  import opened Common
  import opened Dicts
  import opened Segmentation

  /** Loading, detection, parsing and `_segment_faces` for one picture; None when any of them raises. */
  function SegmentPicture(detect: Detector, parse: Parser, pic: Picture): Option<FaceSegments>
  {
    if !pic.isPil then None
    else match detect(pic)
      case None => None
      case Some(rects) =>
        match parse(pic, rects)
        case None => None
        case Some(p) => SegmentedFaces(p)
  }

  /** `all_segments` after visiting the entries of `images` in order. */
  function Segments(detect: Detector, parse: Parser, images: seq<NamedImage>): Dict<string, SegEntry>
    decreases |images|
  {
    if images == [] then []
    else
      var image := images[|images| - 1];
      var done := Segments(detect, parse, images[..|images| - 1]);
      match SegmentPicture(detect, parse, image.pic)
      case None => done
      case Some(fs) => Put(done, image.name, SegEntry(image.pic, fs))
  }

  /** Entry `j` is segmented and no later entry with its name is. */
  ghost predicate LastSegmented(detect: Detector, parse: Parser, images: seq<NamedImage>, j: nat)
    requires j < |images|
  {
    && SegmentPicture(detect, parse, images[j].pic).Some?
    && forall j' :: j < j' < |images| && images[j'].name == images[j].name ==>
         SegmentPicture(detect, parse, images[j'].pic).None?
  }

  /**
   * A name is in `all_segments` exactly when some entry of that name was
   * segmented without raising, and its value comes from the last such
   * entry; the names appear in the order of their first successful entry.
   */
  lemma SegmentsEntries(detect: Detector, parse: Parser, images: seq<NamedImage>)
    ensures var segs := Segments(detect, parse, images);
      && Valid(segs)
      && (forall k :: k in Keys(segs) <==>
            exists j :: 0 <= j < |images| && images[j].name == k && SegmentPicture(detect, parse, images[j].pic).Some?)
      && (forall j :: 0 <= j < |images| && LastSegmented(detect, parse, images, j) ==>
            Get(segs, images[j].name) == Some(SegEntry(images[j].pic, SegmentPicture(detect, parse, images[j].pic).value)))
  {
    SegmentsKeys(detect, parse, images);
    SegmentsValues(detect, parse, images);
  }

  /** The names in `all_segments` are those of the entries segmented without raising, none twice. */
  lemma {:induction false} SegmentsKeys(detect: Detector, parse: Parser, images: seq<NamedImage>)
    ensures var segs := Segments(detect, parse, images);
      && Valid(segs)
      && (forall k :: k in Keys(segs) <==>
            exists j :: 0 <= j < |images| && images[j].name == k && SegmentPicture(detect, parse, images[j].pic).Some?)
    decreases |images|
  {
    if images != [] {
      var n := |images|;
      var init := images[..n - 1];
      SegmentsKeys(detect, parse, init);
      var done := Segments(detect, parse, init);
      var segs := Segments(detect, parse, images);
      forall k ensures k in Keys(segs) <==>
        exists j :: 0 <= j < n && images[j].name == k && SegmentPicture(detect, parse, images[j].pic).Some?
      {
        if k in Keys(done) {
          var j :| 0 <= j < n - 1 && init[j].name == k && SegmentPicture(detect, parse, init[j].pic).Some?;
          assert images[j] == init[j];
        }
        if exists j :: 0 <= j < n && images[j].name == k && SegmentPicture(detect, parse, images[j].pic).Some? {
          var j :| 0 <= j < n && images[j].name == k && SegmentPicture(detect, parse, images[j].pic).Some?;
          if j < n - 1 {
            assert init[j] == images[j];
          }
        }
      }
    }
  }

  /** Each name in `all_segments` holds the picture and segments of the last entry of that name segmented without raising. */
  lemma SegmentsValues(detect: Detector, parse: Parser, images: seq<NamedImage>)
    ensures var segs := Segments(detect, parse, images);
      forall j :: 0 <= j < |images| && LastSegmented(detect, parse, images, j) ==>
        Get(segs, images[j].name) == Some(SegEntry(images[j].pic, SegmentPicture(detect, parse, images[j].pic).value))
  {
    forall j | 0 <= j < |images| && LastSegmented(detect, parse, images, j)
      ensures Get(Segments(detect, parse, images), images[j].name) == Some(SegEntry(images[j].pic, SegmentPicture(detect, parse, images[j].pic).value))
    {
      SegmentsValueAt(detect, parse, images, j);
    }
  }

  /** The value stored under the name of entry `j`, when no later entry of that name is segmented. */
  lemma {:induction false} SegmentsValueAt(detect: Detector, parse: Parser, images: seq<NamedImage>, j: nat)
    requires j < |images| && LastSegmented(detect, parse, images, j)
    ensures Get(Segments(detect, parse, images), images[j].name) == Some(SegEntry(images[j].pic, SegmentPicture(detect, parse, images[j].pic).value))
    decreases |images|
  {
    var n := |images|;
    var init := images[..n - 1];
    var image := images[n - 1];
    if j < n - 1 {
      assert init[j] == images[j];
      forall j' | j < j' < n - 1 && init[j'].name == init[j].name
        ensures SegmentPicture(detect, parse, init[j'].pic).None?
      {
        assert init[j'] == images[j'];
      }
      SegmentsValueAt(detect, parse, init, j);
      SegmentsOther(detect, parse, images, images[j].name);
    } else {
      SegmentsLast(detect, parse, images);
    }
  }

  /** The last entry, when segmented, is stored under its name. */
  lemma SegmentsLast(detect: Detector, parse: Parser, images: seq<NamedImage>)
    requires images != [] && SegmentPicture(detect, parse, images[|images| - 1].pic).Some?
    ensures var image := images[|images| - 1];
      Get(Segments(detect, parse, images), image.name) == Some(SegEntry(image.pic, SegmentPicture(detect, parse, image.pic).value))
  {
  }

  /** The last entry leaves every other name as the entries before it stored it. */
  lemma SegmentsOther(detect: Detector, parse: Parser, images: seq<NamedImage>, k: string)
    requires images != []
    requires images[|images| - 1].name == k ==> SegmentPicture(detect, parse, images[|images| - 1].pic).None?
    ensures Get(Segments(detect, parse, images), k) == Get(Segments(detect, parse, images[..|images| - 1]), k)
  {
  }

  class FaceSegmentation {
    const images: seq<NamedImage>
    const detect: Detector
    const parse: Parser

    constructor (images: seq<NamedImage>, detect: Detector, parse: Parser)
      ensures this.images == images && this.detect == detect && this.parse == parse
    {
      this.images := images;
      this.detect := detect;
      this.parse := parse;
    }

    /** `process_images`: the segments of every entry that did not raise, keyed by name. */
    method ProcessImages() returns (segments: Dict<string, SegEntry>)
      ensures segments == Segments(detect, parse, images)
    {
      segments := [];
      for i := 0 to |images|
        invariant segments == Segments(detect, parse, images[..i])
      {
        var image := images[i];
        assert images[..i + 1][..i] == images[..i];
        var faces := SegmentImage(image.pic);
        if faces.Some? {
          segments := Put(segments, image.name, SegEntry(image.pic, faces.value));
        }
      }
      assert images[..|images|] == images;
    }

    /** The `try` block of `process_images` for one picture; None when it raises. */
    method SegmentImage(pic: Picture) returns (r: Option<FaceSegments>)
      ensures r == SegmentPicture(detect, parse, pic)
    {
      if !pic.isPil {
        return None;
      }
      var found := detect(pic);
      if found.None? {
        return None;
      }
      var parsed := parse(pic, found.value);
      if parsed.None? {
        return None;
      }
      r := SegmentFaces(parsed.value);
    }
  }
}
