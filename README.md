# Face-palette clustering, modelled in Dafny

The inference service groups a set of portrait photos into twelve colour
palettes. It does this in three stages.

1. **Segmentation.** `FaceSegmentation.process_images` detects the faces in every
   image. A picture with several faces is split into one crop per face and
   put back on the work list. Fewer than twelve detected images stop the
   pipeline. The face parser then labels each face's pixels by class (skin,
   hair, eyes, ...), and `_segment_faces` keeps one mask per class.
2. **Colour extraction.** `ColorExtractor.extract_dominant_colors` samples
   the pixels under each mask. A three-means fit summarises them, and each
   centroid is replaced by the nearest colour actually present. The values
   are then scaled into [0, 1].
3. **Clustering.** `ColorClusterer.cluster` builds one equally long row of
   colours per image:
   - it replaces a colour holding NaN by the image mean;
   - it pads every image to the longest one.

   It then runs a twelve-means fit. It reports, for every cluster
   `cluster_<l>`, the rounded centroid and the names of its images.

`Clustering.execute` chains the three stages. It returns False when
segmentation finds too little.

The repository also keeps an earlier version of the pipeline, the `cluster`
package. It has the same three stages in simpler form:
- no splitting of group photos;
- no twelve-image gate;
- clusters keyed by integer id and holding only image names.

Both versions are modelled. So are the service's error messages
(`ErrorMessages.get_error_message`).

Project layout:
- `common.dfy`, `dicts.dfy`, `python.dfy`: shared values, insertion-ordered dictionaries, and the few Python/numpy semantics the pipeline relies on (`str`, `int()`, slicing);
- `segmentation.dfy`, `color_extraction.dfy`, `color_clusterer.dfy`, `clustering.dfy`: the `clustering` package;
- `legacy_segmentation.dfy`, `legacy_color_clusterer.dfy`, `legacy_clustering.dfy`: the earlier `cluster` package;
- `error_messages.dfy`: `error/error_messages.py`.

Each stage class is a Dafny `class` whose methods follow the source loops.
Each method is proved equal to a specification function. The properties
below are lemmas about those functions. A Python dict is a sequence of
key/value pairs in insertion order (`Dicts.Dict`). An exception that escapes
a stage is an `Outcome.Raised` carrying its kind. An exception a stage
catches is the `None` of an `Option`.

## Model

All source paths below are under `python-inference/src/`.

| member | source | states |
|---|---|---|
| Python.NatToString | python-inference/src/clustering/color_clusterer.py:79 | `str(n)` is a non-empty string of decimal digits. |
| Python.NatToStringRoundTrip | python-inference/src/clustering/color_clusterer.py:79 | Reading back the digits of `str(n)` gives `n`. |
| Python.IntToString | python-inference/src/clustering/color_clusterer.py:79 | `str(i)` is non-empty and starts with '-' exactly for negative `i`. |
| Python.IntToStringInjective | python-inference/src/clustering/color_clusterer.py:79 | Distinct integers have distinct `str()` forms. |
| Python.PrefixedNumbersDistinct | python-inference/src/clustering/color_clusterer.py:79 | The same prefix followed by two integers' strings is equal only when the integers are. |
| Python.Trunc | python-inference/src/clustering/segmentation.py:91 | `int()` of a float truncates toward zero: within 1 below a non-negative value, within 1 above a negative one. |
| Python.Slice | python-inference/src/clustering/segmentation.py:92 | A Python slice takes elements of the sequence only. Within bounds it is the ordinary subsequence; it is empty when `hi <= lo`. |
| Common.FirstIndex | python-inference/src/clustering/segmentation.py:96 | `list.index`: the first position holding the value; None exactly when the value is absent. |
| Dicts.Get | python-inference/src/clustering/color_clusterer.py:87 | A lookup finds a value exactly when the key is present, and that value is stored under the key. |
| Dicts.Put | python-inference/src/clustering/color_extraction.py:116-118 | `d[k] = v`: an existing key keeps its place, a new key is appended, `k` maps to `v`, every other key is unchanged, and no key is duplicated. |
| Dicts.GetAt | python-inference/src/clustering/color_clusterer.py:87 | In a dict without duplicate keys, looking up an entry's key returns that entry's value. |
| Segmentation.Threshold | python-inference/src/clustering/segmentation.py:173 | The mask has the grid's shape and a cell is set exactly when its probability exceeds 0.5. |
| Segmentation.SegmentFaces | python-inference/src/clustering/segmentation.py:152-179 | Returns what `_segment_faces` returns, None being the IndexError of a class without a name. |
| Segmentation.SegmentFace | python-inference/src/clustering/segmentation.py:168-177 | The class loop for one face extends the earlier faces' entries by that face's entry. It fails exactly when there are more classes than names. |
| Segmentation.AppendRegion | python-inference/src/clustering/segmentation.py:174-177 | A kept class creates the face's entry with an empty list if it has none. It then appends the class's mask and name. |
| Segmentation.SkipClass | python-inference/src/clustering/segmentation.py:169-174 | An excluded class or an empty mask leaves the face's entry unchanged. |
| Segmentation.SegmentClass | python-inference/src/clustering/segmentation.py:168-177 | One iteration of the class loop extends the face's entries by that class, when it is kept. |
| Segmentation.FaceEntriesKeys | python-inference/src/clustering/segmentation.py:167-177 | Face ids appear in strictly increasing order and are below the number of faces visited. |
| Segmentation.KeptRegionsAreKeptClasses | python-inference/src/clustering/segmentation.py:168-177 | A face's kept classes are exactly the classes that are not excluded and have a non-empty mask, in increasing order. Each region is that class's mask and name. |
| Segmentation.KeptClassesSorted | python-inference/src/clustering/segmentation.py:168-174 | A class is kept exactly when it is below the bound, not excluded, and its mask has a set pixel. Kept classes come in strictly increasing order. |
| Segmentation.KeptRegionsOfClasses | python-inference/src/clustering/segmentation.py:168-177 | The i-th region of a face is the thresholded mask and the name of its i-th kept class. |
| Segmentation.KeptRegionsWellFormed | python-inference/src/clustering/segmentation.py:165-174 | No kept region is `background` or `mouth`, and each kept region's mask has a set pixel. |
| Segmentation.FaceEntriesValues | python-inference/src/clustering/segmentation.py:167-177 | Each entry holds exactly its face's kept regions and is never empty. |
| Segmentation.FaceEntriesCover | python-inference/src/clustering/segmentation.py:167-177 | Every face with a kept region has an entry. |
| Segmentation.SegmentedFacesShape | python-inference/src/clustering/segmentation.py:152-179 | The segments dict has no repeated face id and lists faces in id order. A face has an entry exactly when it has a kept region, and the entry is its kept regions in class order. |
| Segmentation.SegmentedRegionsWellFormed | python-inference/src/clustering/segmentation.py:165-177 | No emitted region is `background` or `mouth`, and each has a set pixel. |
| Segmentation.Crop | python-inference/src/clustering/segmentation.py:91-93 | A crop is a Pillow image no taller than the original, and each of its rows is no wider than some row of the original. |
| Segmentation.CropRows | python-inference/src/clustering/segmentation.py:91-93 | When the truncated row bounds lie within the picture, the crop has exactly those rows, each sliced to the truncated column bounds. |
| Segmentation.FaceCrops | python-inference/src/clustering/segmentation.py:89-94 | One crop per rectangle, in detection order. The i-th crop is the picture cut to the i-th rectangle. |
| Segmentation.CropNames | python-inference/src/clustering/segmentation.py:90-94 | One name per rectangle. |
| Segmentation.CropNamesAt | python-inference/src/clustering/segmentation.py:94 | The i-th name is `<name>/face_<i>`. |
| Segmentation.FaceCropNames | python-inference/src/clustering/segmentation.py:90-94 | The i-th crop is named `<name>/face_<i>`. That name differs from the original's and from every other crop's. |
| Segmentation.CropsPrefixStep | python-inference/src/clustering/segmentation.py:90-94 | The crops of the first i+1 rectangles are those of the first i followed by the named crop of rectangle i. |
| Segmentation.CollectCrops | python-inference/src/clustering/segmentation.py:89-94 | The loop that fills `faces_array` yields exactly the crops, in detection order, with their names. |
| Segmentation.StepCases | python-inference/src/clustering/segmentation.py:43-59 | One detection iteration does one of three things. If loading or detection raises, the index advances. If there are several faces, the entry is split in place (or the index advances on the TypeError). Otherwise the picture and its rectangles are recorded under the name and the index advances. |
| Segmentation.DetectFromStep | python-inference/src/clustering/segmentation.py:43-59 | With an entry left to visit and iterations left, the loop does one iteration and continues. |
| Segmentation.SegmentAllNext | python-inference/src/clustering/segmentation.py:65-73 | The segmentation loop adds an image's entry when its parsing and segmentation succeed, and skips it otherwise. |
| Segmentation.FaceSegmentation.constructor | python-inference/src/clustering/segmentation.py:19-29 | Stores the work list and the models. |
| Segmentation.FaceSegmentation.ExtractMultipleFaces | python-inference/src/clustering/segmentation.py:77-99 | Raises TypeError for a non-Pillow image. Otherwise it replaces the first equal entry of the work list by the crops, and leaves a list without one unchanged. |
| Segmentation.FaceSegmentation.SegmentRecord | python-inference/src/clustering/segmentation.py:66-73 | One iteration of the segmentation loop: the image's segments, or None when loading, parsing or segmenting raises. |
| Segmentation.FaceSegmentation.DetectStep | python-inference/src/clustering/segmentation.py:44-59 | One iteration of the detection loop updates the work list, the index and `all_faces` as `Step` does. |
| Segmentation.FaceSegmentation.DetectIteration | python-inference/src/clustering/segmentation.py:43-59 | After one iteration, the remaining loop with one iteration fewer ends as the loop from before the iteration would. |
| Segmentation.FaceSegmentation.DetectFaces | python-inference/src/clustering/segmentation.py:40-59 | The detection loop gives the final work list and `all_faces`. It reports that the step bound ran out when the loop did not finish. |
| Segmentation.FaceSegmentation.ProcessImages | python-inference/src/clustering/segmentation.py:31-75 | Returns what `process_images` returns, and leaves the final work list in `images`. |
| Segmentation.SplitReplacesCurrentEntry | python-inference/src/clustering/segmentation.py:50-52 | During the loop, `images.index(image)` always finds the entry being visited. A split replaces exactly that entry by its crops, and the first crop is visited next. |
| Segmentation.StepConsistent | python-inference/src/clustering/segmentation.py:43-59 | Each iteration keeps the loop invariant. No visited entry is one detection splits. Every visited entry that detection accepts is recorded under its name, and every record describes a visited entry. |
| Segmentation.SplitConsistent | python-inference/src/clustering/segmentation.py:50-52 | An iteration that splits the current entry keeps the loop invariant. |
| Segmentation.MissConsistent | python-inference/src/clustering/segmentation.py:56-59 | An iteration in which loading or detection raises keeps the loop invariant while the index advances. |
| Segmentation.HitConsistent | python-inference/src/clustering/segmentation.py:54-59 | An iteration that finds at most one face records the entry under its name and keeps the loop invariant. |
| Segmentation.HitNamed | python-inference/src/clustering/segmentation.py:54 | After recording, every visited entry with a successful detection has a record under its name. |
| Segmentation.HitRecorded | python-inference/src/clustering/segmentation.py:54 | After recording, every record holds a visited entry's picture with exactly what detection finds in it. |
| Segmentation.RecordedLonger | python-inference/src/clustering/segmentation.py:54-59 | A record that describes a visited entry still does so after more entries are visited. |
| Segmentation.DetectFromConsistent | python-inference/src/clustering/segmentation.py:43-59 | If the detection loop finishes, every entry has been visited and the invariant holds. |
| Segmentation.DetectionResult | python-inference/src/clustering/segmentation.py:43-59 | After detection, no entry of the work list has more than one face, and every entry detection accepted is recorded. `all_faces` has no repeated name. Each record is an entry of the final list with exactly what detection finds in it. |
| Segmentation.SegmentedEntry | python-inference/src/clustering/segmentation.py:70 | A segmentation entry stores the recorded picture. |
| Segmentation.SegmentAllEntries | python-inference/src/clustering/segmentation.py:65-73 | `all_segments` keeps the order of `all_faces` and repeats no name. It leaves out exactly the images whose segmentation raised and stores every other image's segmentation under its name. |
| Segmentation.ProcessedImagesResult | python-inference/src/clustering/segmentation.py:31-75 | `process_images` returns False exactly when detection ends with fewer than twelve names. Otherwise every segmented name is a detected entry of the final list, with its picture and its segmentation. |
| LegacySegmentation.SegmentsEntries | python-inference/src/cluster/segmentation.py:20-38 | A name is in `all_segments` exactly when some entry with that name could be segmented. The value is the last such entry's picture and segments, and no name repeats. |
| LegacySegmentation.SegmentsKeys | python-inference/src/cluster/segmentation.py:25-32 | `all_segments` repeats no name. Its names are exactly those of the entries segmented without raising. |
| LegacySegmentation.SegmentsValues | python-inference/src/cluster/segmentation.py:25-32 | Each entry segmented with no later segmented entry of the same name has its picture and segments stored under its name. |
| LegacySegmentation.SegmentsValueAt | python-inference/src/cluster/segmentation.py:25-32 | The same, for one entry. |
| LegacySegmentation.SegmentsLast | python-inference/src/cluster/segmentation.py:32 | The last entry, when segmented, is stored under its name. |
| LegacySegmentation.SegmentsOther | python-inference/src/cluster/segmentation.py:25-32 | Visiting the last entry leaves every other name's value as before, and leaves the entry's own name alone when segmentation raises. |
| LegacySegmentation.FaceSegmentation.constructor | python-inference/src/cluster/segmentation.py:12-18 | Stores the image list and the models. |
| LegacySegmentation.FaceSegmentation.ProcessImages | python-inference/src/cluster/segmentation.py:20-38 | Returns what `process_images` returns. |
| LegacySegmentation.FaceSegmentation.SegmentImage | python-inference/src/cluster/segmentation.py:26-32 | Loads, detects, parses and segments one image, or gives None when any of these raises. |
| ColorExtraction.RowCells | python-inference/src/clustering/color_extraction.py:84 | `torch.nonzero` on one mask row gives exactly the set columns, in increasing order. |
| ColorExtraction.MaskCells | python-inference/src/clustering/color_extraction.py:84 | `torch.nonzero` on a mask gives exactly the set cells, in row-major order. |
| ColorExtraction.PixelsAt | python-inference/src/clustering/color_extraction.py:85 | Gathering pixels succeeds exactly when every cell lies inside the picture, and it yields those pixels in order. |
| ColorExtraction.EmptyMaskSamplesNothing | python-inference/src/clustering/color_extraction.py:84-86 | An empty mask samples no colour. |
| ColorExtraction.SampleSizeIsSetCells | python-inference/src/clustering/color_extraction.py:72-86 | One colour is sampled per set cell, and every sampled colour is the pixel under a set cell. |
| ColorExtraction.SqDist | python-inference/src/clustering/color_extraction.py:112 | The squared distance from a colour to a centroid is never negative. |
| ColorExtraction.Nearest | python-inference/src/clustering/color_extraction.py:112-113 | `np.argmin` gives the first colour at minimal distance from the centroid. |
| ColorExtraction.Representatives | python-inference/src/clustering/color_extraction.py:110-114 | One sampled colour per centroid, none farther from its centroid than any other sampled colour. |
| ColorExtraction.ToSwatch | python-inference/src/clustering/color_extraction.py:118 | The stored array holds three channels per colour, in order. |
| ColorExtraction.Store | python-inference/src/clustering/color_extraction.py:116-118 | Storing creates the file's entry when missing and changes no other file. |
| ColorExtraction.StoreAt | python-inference/src/clustering/color_extraction.py:116-118 | After a store, the file holds its former class dict, or an empty one, with the swatch put under the label. |
| ColorExtraction.UpdatedStores | python-inference/src/clustering/color_extraction.py:88-120 | For a permitted label with samples and a successful fit, the file's entry gains or replaces that label. The new value is one nearest sampled colour per centroid. Other files and labels are unchanged. |
| ColorExtraction.UpdatedUnchanged | python-inference/src/clustering/color_extraction.py:102-107 | An excluded label or an empty sample leaves the table unchanged. The update raises exactly when the three-means fit fails. |
| ColorExtraction.UpdatedThreeMeans | python-inference/src/clustering/color_extraction.py:106-118 | With a fit that behaves as scikit-learn documents three-means, a region of one or two pixels makes the update raise ValueError. A stored swatch has nine values. |
| ColorExtraction.UpdateDominantColors | python-inference/src/clustering/color_extraction.py:88-120 | Returns what `_update_dominant_colors` returns. |
| ColorExtraction.ScaleSwatch | python-inference/src/clustering/color_extraction.py:131 | Every value is divided by 255, and the length is unchanged. |
| ColorExtraction.NormalizeColors | python-inference/src/clustering/color_extraction.py:122-131 | Returns the table with every stored value divided by 255. |
| ColorExtraction.ColorExtractor.constructor | python-inference/src/clustering/color_extraction.py:11-19 | Stores the image list and the fit. |
| ColorExtraction.ColorExtractor.ExtractDominantColors | python-inference/src/clustering/color_extraction.py:21-44 | Returns what `extract_dominant_colors` returns, normalised or not. |
| ColorExtraction.ColorExtractor.ColorsOfImage | python-inference/src/clustering/color_extraction.py:35-39 | The loop over an image's faces. |
| ColorExtraction.ColorExtractor.ColorsOfFace | python-inference/src/clustering/color_extraction.py:37-39 | The loop over a face's regions. |
| ColorExtraction.ToSwatchRaw | python-inference/src/clustering/color_extraction.py:118 | Every stored value is a channel value in 0..255. |
| ColorExtraction.StoreShaped | python-inference/src/clustering/color_extraction.py:116-118 | Storing a permitted label's channel values for a visited file keeps the table's shape: no repeated file or label, only visited files, no empty or excluded entry, only 8-bit channel values. |
| ColorExtraction.UpdatedShaped | python-inference/src/clustering/color_extraction.py:88-120 | An update keeps the table's shape. |
| ColorExtraction.VisitRegionsShaped | python-inference/src/clustering/color_extraction.py:37-39 | The region loop keeps the table's shape. |
| ColorExtraction.VisitFacesShaped | python-inference/src/clustering/color_extraction.py:36-39 | The face loop keeps the table's shape. |
| ColorExtraction.VisitFilesShaped | python-inference/src/clustering/color_extraction.py:34-39 | The file loop keeps the table's shape. |
| ColorExtraction.StoreWide | python-inference/src/clustering/color_extraction.py:116-118 | Storing a nine-value swatch keeps every swatch nine values wide. |
| ColorExtraction.UpdatedWide | python-inference/src/clustering/color_extraction.py:88-120 | With a three-means fit, an update keeps every swatch nine values wide. |
| ColorExtraction.VisitRegionsWide | python-inference/src/clustering/color_extraction.py:37-39 | The region loop keeps every swatch nine values wide. |
| ColorExtraction.VisitFacesWide | python-inference/src/clustering/color_extraction.py:36-39 | The face loop keeps every swatch nine values wide. |
| ColorExtraction.VisitFilesWide | python-inference/src/clustering/color_extraction.py:34-39 | The file loop keeps every swatch nine values wide. |
| ColorExtraction.NormalizedInUnitInterval | python-inference/src/clustering/color_extraction.py:122-131 | Normalising keeps every key and length, and puts every value in [0, 1]. |
| ColorExtraction.ExtractedColorsShape | python-inference/src/clustering/color_extraction.py:21-44 | Before normalisation, the table repeats no file and holds only segmented files. Each file has a non-empty dict of permitted labels without repeats, holding 8-bit channel values. The result is that table, normalised when asked. |
| ColorExtraction.ExtractedColorsNineWide | python-inference/src/clustering/color_extraction.py:21-44 | With a three-means fit, every returned swatch, normalised or not, has nine values. |
| ColorClusterer.MaxRegions | python-inference/src/clustering/color_clusterer.py:33 | `max_length` is the largest number of labels of any image and is attained. |
| ColorClusterer.ImageMean | python-inference/src/clustering/color_clusterer.py:41 | The per-position mean is NaN exactly where some colour is NaN. Otherwise it is the sum divided by the count. |
| ColorClusterer.Imputed | python-inference/src/clustering/color_clusterer.py:42-43 | A colour with a NaN is replaced by the mean, and every other colour is kept. |
| ColorClusterer.Padding | python-inference/src/clustering/color_clusterer.py:47-48 | Padding appends the requested number of copies of the mean. |
| ColorClusterer.ImagesOkEach | python-inference/src/clustering/color_clusterer.py:35-51 | The image loop succeeds exactly when every image's colours can be averaged. |
| ColorClusterer.ImagesOkPrefix | python-inference/src/clustering/color_clusterer.py:35-51 | When the whole loop succeeds, every prefix of it succeeds. |
| ColorClusterer.Rows | python-inference/src/clustering/color_clusterer.py:35-51 | One processed row per image, in dict order. |
| ColorClusterer.Labelled | python-inference/src/clustering/color_clusterer.py:50 | Each image name is paired with its processed row, in order. |
| ColorClusterer.ImageRowShape | python-inference/src/clustering/color_clusterer.py:36-48 | A row has exactly `max_length` colours, all of the same width. Complete colours are kept in place, colours with a NaN become the mean, and the tail is the mean. |
| ColorClusterer.ImputationKeepsNaN | python-inference/src/clustering/color_clusterer.py:41-43 | Imputation never removes a NaN, because the mean of a position holding NaN is itself NaN. |
| ColorClusterer.AssembledShape | python-inference/src/clustering/color_clusterer.py:20-53 | `_extract_colors` raises exactly on an empty table, on images whose colours cannot be averaged, or on ragged widths. Otherwise it gives one row of `max_length` equal-width colours per image, paired with the image's name. |
| ColorClusterer.RowShape | python-inference/src/clustering/color_clusterer.py:46-48 | An image's row has `max_length` colours of the table's width. |
| ColorClusterer.FlatRow | python-inference/src/clustering/color_clusterer.py:67 | Flattening a row keeps exactly its values. |
| ColorClusterer.Reals | python-inference/src/clustering/color_clusterer.py:68-71 | A row is a valid feature vector exactly when it has no NaN. |
| ColorClusterer.Features | python-inference/src/clustering/color_clusterer.py:67-71 | The feature matrix exists exactly when no row holds NaN, and it has one row per image. |
| ColorClusterer.ClusterKeyInjective | python-inference/src/clustering/color_clusterer.py:79 | Distinct labels get distinct `cluster_<l>` keys. |
| ColorClusterer.RoundHalfEven | python-inference/src/clustering/color_clusterer.py:78 | Rounding lands within one half of the value. |
| ColorClusterer.Round3 | python-inference/src/clustering/color_clusterer.py:78 | `np.round(x, 3)` is within 0.0005 of `x`. |
| ColorClusterer.RoundAll | python-inference/src/clustering/color_clusterer.py:78 | Every coordinate of the rounded centroid is within 0.0005 of the original. |
| ColorClusterer.FirstUnassignable | python-inference/src/clustering/color_clusterer.py:85-87 | Finds the first image whose label has no cluster or has no name, and no earlier image is such. |
| ColorClusterer.RowKeys | python-inference/src/clustering/color_clusterer.py:87 | One cluster key per row. |
| ColorClusterer.AssignedStopsAt | python-inference/src/clustering/color_clusterer.py:85-87 | The assigning loop raises at the first row it cannot assign: IndexError past the named rows, KeyError for a label with no cluster. |
| ColorClusterer.AssignedCompletes | python-inference/src/clustering/color_clusterer.py:85-87 | When no row is unassignable, the loop completes with every cluster grown by its rows. |
| ColorClusterer.GrownNone | python-inference/src/clustering/color_clusterer.py:85-87 | Before any row is assigned, the clusters are unchanged. |
| ColorClusterer.Grown | python-inference/src/clustering/color_clusterer.py:85-87 | Appending images changes no cluster key. |
| ColorClusterer.Names | python-inference/src/clustering/color_clusterer.py:86 | The image names in row order. |
| ColorClusterer.InitialClustersValid | python-inference/src/clustering/color_clusterer.py:77-82 | The initial dict has keys `cluster_0` … `cluster_<n-1>`, in order and distinct. |
| ColorClusterer.ClusterKeysDistinct | python-inference/src/clustering/color_clusterer.py:79 | Keys `cluster_<l>` at position `l` are distinct. |
| ColorClusterer.InitialClustersStep | python-inference/src/clustering/color_clusterer.py:77-82 | One iteration adds `cluster_<n>` with the rounded centroid and no image. |
| ColorClusterer.InitialClustersGet | python-inference/src/clustering/color_clusterer.py:77-82 | Every initial cluster holds its rounded centroid and no image. |
| ColorClusterer.AssignedInitialOk | python-inference/src/clustering/color_clusterer.py:77-87 | Assigning to the twelve initial clusters succeeds exactly when every label is 0..11 and has a row name. |
| ColorClusterer.AssignedInitialValue | python-inference/src/clustering/color_clusterer.py:77-87 | Then keys `cluster_0` … `cluster_11` stay in order, and cluster l holds rounded centroid l and the names of the rows labelled l, in row order. |
| ColorClusterer.GrownStep | python-inference/src/clustering/color_clusterer.py:85-87 | One iteration appends the image's name to its label's cluster. |
| ColorClusterer.GrownGet | python-inference/src/clustering/color_clusterer.py:85-87 | After the loop, each cluster's images are the names of the images labelled with it, in order. |
| ColorClusterer.ClusteredRowsResult | python-inference/src/clustering/color_clusterer.py:65-89 | Clustering the rows succeeds exactly when every label is in 0..11 and names an image. Then the result has the keys `cluster_0` … `cluster_11` in order. Each key holds its rounded centroid and the names labelled with it, in order. |
| ColorClusterer.ClusteredResult | python-inference/src/clustering/color_clusterer.py:55-89 | `cluster` succeeds exactly when every label is in 0..11 and names an image. Then the result has the keys `cluster_0` … `cluster_11` in order. Each key holds its rounded centroid and the names labelled with it, in order. |
| ColorClusterer.TwelveMeansClustered | python-inference/src/clustering/color_clusterer.py:65-89 | With a fit that behaves as scikit-learn documents twelve-means, a successful fit labels one row per image. There are at least twelve images, and `cluster` succeeds. |
| ColorClusterer.TwelveMeansTooFew | python-inference/src/clustering/color_clusterer.py:65-71 | With a twelve-means fit, fewer than twelve images make `cluster` raise ValueError. |
| ColorClusterer.EachImageInOneCluster | python-inference/src/clustering/color_clusterer.py:84-89 | Every labelled image is listed in its own label's cluster and in no other. |
| ColorClusterer.MembersExactlyOnce | python-inference/src/clustering/color_clusterer.py:85-87 | With distinct names, a name is in a cluster's images exactly when its label is that cluster's. |
| ColorClusterer.MembersAmong | python-inference/src/clustering/color_clusterer.py:85-87 | Only labelled images' names are listed. |
| ColorClusterer.ExtractColors | python-inference/src/clustering/color_clusterer.py:20-53 | Returns what `_extract_colors` returns, or the exception it raises. |
| ColorClusterer.ImageRows | python-inference/src/clustering/color_clusterer.py:35-51 | The image loop succeeds exactly when every image can be averaged, and it builds the rows and the name/row pairs. |
| ColorClusterer.ProcessImage | python-inference/src/clustering/color_clusterer.py:36-48 | One iteration of the image loop gives the image's row, or fails exactly when its colours cannot be averaged. |
| ColorClusterer.ImageColors | python-inference/src/clustering/color_clusterer.py:36-38 | Collects an image's colours in label order. |
| ColorClusterer.ImageColorsRow | python-inference/src/clustering/color_clusterer.py:41-48 | Imputes, truncates and pads one image's colours. |
| ColorClusterer.ColorClusterer.constructor | python-inference/src/clustering/color_clusterer.py:16-18 | Stores the twelve-means fit. |
| ColorClusterer.ColorClusterer.Cluster | python-inference/src/clustering/color_clusterer.py:55-89 | Returns what `cluster` returns, or the exception it raises. |
| ColorClusterer.ColorClusterer.ClusterRows | python-inference/src/clustering/color_clusterer.py:67-89 | Reshapes, fits, initialises the twelve clusters and assigns the images. |
| ColorClusterer.ColorClusterer.AssignRows | python-inference/src/clustering/color_clusterer.py:85-87 | Appends every image to its label's cluster, or raises KeyError/IndexError at the first image it cannot place. |
| LegacyColorClusterer.FirstUnlisted | python-inference/src/cluster/color_clusterer.py:53-55 | Finds the first image whose label is not 0..11 or has no name, and no earlier image is such. |
| LegacyColorClusterer.EmptyListsStep | python-inference/src/cluster/color_clusterer.py:49-50 | One iteration adds the id `n` with an empty list. |
| LegacyColorClusterer.ListsKeys | python-inference/src/cluster/color_clusterer.py:46-55 | The lists are keyed by the ids 0 … 11, in order and distinct, both before and after assignment. |
| LegacyColorClusterer.ListsStep | python-inference/src/cluster/color_clusterer.py:53-55 | One iteration appends the image's name to its label's list. |
| LegacyColorClusterer.ClusteredRowsResult | python-inference/src/cluster/color_clusterer.py:39-57 | Clustering the rows succeeds exactly when every label is in 0..11 and names an image. Then ids 0 … 11 each hold the names labelled with them, in order. |
| LegacyColorClusterer.ClusteredResult | python-inference/src/cluster/color_clusterer.py:36-57 | `cluster` succeeds exactly when every label is in 0..11 and names an image. Then ids 0 … 11 each hold the names labelled with them, in order. |
| LegacyColorClusterer.TwelveMeansListed | python-inference/src/cluster/color_clusterer.py:36-57 | With a twelve-means fit, `cluster` succeeds whenever the fit does, and raises ValueError on fewer than twelve images. |
| LegacyColorClusterer.EachImageListedOnce | python-inference/src/cluster/color_clusterer.py:53-57 | Every labelled image is listed under its own label and no other. |
| LegacyColorClusterer.WithLabelExactlyOnce | python-inference/src/cluster/color_clusterer.py:53-55 | With distinct names, a name is in a list exactly when its label is that list's id. |
| LegacyColorClusterer.WithLabelAmong | python-inference/src/cluster/color_clusterer.py:53-55 | Only labelled images' names are listed. |
| LegacyColorClusterer.ColorClusterer.constructor | python-inference/src/cluster/color_clusterer.py:9-10 | Stores the twelve-means fit. |
| LegacyColorClusterer.ColorClusterer.Cluster | python-inference/src/cluster/color_clusterer.py:36-57 | Returns what `cluster` returns, or the exception it raises. |
| LegacyColorClusterer.ColorClusterer.ClusterRows | python-inference/src/cluster/color_clusterer.py:39-57 | Reshapes, fits, creates the twelve empty lists and assigns the images. |
| LegacyColorClusterer.ColorClusterer.ListRows | python-inference/src/cluster/color_clusterer.py:53-55 | Appends every image to its label's list, or raises KeyError/IndexError at the first image it cannot place. |
| Clustering.Execute | python-inference/src/clustering/clustering.py:16-42 | Returns what `execute` returns. |
| Clustering.ExecutedGate | python-inference/src/clustering/clustering.py:31-32 | `execute` returns False exactly when detection ends with fewer than twelve names or no image survives segmentation. |
| Clustering.ExecutedPastGate | python-inference/src/clustering/clustering.py:34-42 | Past the gate, twelve or more images were detected. The clusterer sees exactly the detected images whose segmentation succeeded, with their extracted colours divided by 255. |
| Clustering.ExecutedTooFew | python-inference/src/clustering/clustering.py:28-42 | With a twelve-means fit, fewer than twelve segmented images past the gate make `execute` raise. Once extraction succeeds, the error is ValueError. |
| Clustering.ExtractorReadsOnlySegments | python-inference/src/clustering/clustering.py:35-36 | The result depends on the images only through segmentation. |
| LegacyClustering.Execute | python-inference/src/cluster/clustering.py:12-35 | Returns what `execute` returns, or the exception that escapes. |
| LegacyClustering.NoColorsRaise | python-inference/src/cluster/clustering.py:24-32 | With no gate, an empty colour table reaches the clusterer, and the call raises ValueError. |
| LegacyClustering.ExecutedResult | python-inference/src/cluster/clustering.py:32-35 | When `execute` returns, ids 0 … 11 are listed in order, and every image is listed under its own label only. |
| ErrorMessages.GetErrorMessage | python-inference/src/error/error_messages.py:22-44 | Every declared name yields its own message, and any other name yields "Unknown error". |
| ErrorMessages.DeclaredDistinct | python-inference/src/error/error_messages.py:22-30 | Nine names and nine messages, none repeated. |
| ErrorMessages.UnknownExactlyWhenUndeclared | python-inference/src/error/error_messages.py:44 | "Unknown error" is returned exactly for names that are not declared. |
| ErrorMessages.DatasetRequirementStatesGate | python-inference/src/error/error_messages.py:29 | The dataset message names the same minimum, twelve, that the segmentation gate enforces. |

## Left out

- The face detector, the face parser with its softmax, and both k-means fits (three clusters per region and twelve clusters per dataset) are neural or numerical library calls. They are parameters, and a call that raises is their `None`. The model proves what the pipeline does with any results they return. For the two fits, scikit-learn's documented behaviour is stated as `ColorExtraction.ThreeMeans` and `ColorClusterer.TwelveMeans`: too few samples raise ValueError, and a successful fit has as many centroids as clusters and one label 0..11 per sample. Only the lemmas that need this behaviour assume it. Where the fits place their centroids is not modelled.
- Floating point is modelled as exact `real` arithmetic. NaN is a separate value (`Num.NaN`) that propagates through the mean. Rounding error, infinities and the float32/float64 distinction are not modelled.
- Segmentation.FaceSegmentation.DetectFaces: the detection loop need not end, because a crop in which detection again finds several faces is split again. The model runs it for at most `fuel` iterations. It reports `OutOfFuel` (`Clustering.Execution.StepsExhausted` at the top) when they run out, so it does not show non-termination itself.
- ErrorMessages.GetErrorMessage: `getattr` on the class also finds the class's inherited attributes (`__doc__`, `get_error_message`, ...). Only the nine declared messages are modelled; any other name yields "Unknown error".
- python-inference/src/cluster/color_extraction.py is not part of this model. The earlier orchestrator takes its colour extractor as a parameter (`LegacyClustering.Extractor`).
- Logging, device selection (CPU/GPU), `torch.inference_mode` and the tensor layout conversions of `_load_image` are left out. An image is its pixel grid plus whether it is a Pillow image. Conversion to RGB is the identity.
- A numpy shape error (`np.array` of ragged rows, `reshape` of a zero-size array, `np.mean` of colours of different widths) is reported as `ValueError` where the source raises it. The wording of exception messages is not modelled.
- The three-means fit is handed the sampled colours directly. It is built without a `random_state` (python-inference/src/clustering/color_extraction.py:107), so its centroids, and with them the stored swatches, can differ from run to run. The twelve-means fit uses `random_state=42`. Each fit is a function parameter that stands for the fits of one run. The model describes every single run, but not the variation between runs.
- The `cluster` package's segmentation keeps a picture with several faces whole, and segments all its faces under one name. The model keeps this behaviour.
