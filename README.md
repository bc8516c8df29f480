# Clip preparation of a facial-expression video classifier, in Dafny

This project models the integer and list logic of the clip-preparation pipeline of a 3D-CNN
facial-expression classifier (`ResNet3D.py`). The pipeline turns per-frame image files into
fixed-length clips. It has five parts:

- **Label vocabulary** (`Vocabulary`, `vocabulary.dfy`). The fixed table `facial_expression` maps
  seven expression names to class ids 0..6. Any other directory name gets `-1`.
- **Dataset indexer** (`DatasetIndex`, `dataset_index.dfy`). This is
  `extract_video_paths_and_labels`. It walks the label directories of a data directory. In each one
  it sorts the file names, strips them, and derives a video id from each name by dropping its last
  `_`-separated token. It groups the frame paths by video id in an insertion-ordered dictionary and
  emits parallel lists of groups and labels. The directory listing is an input: a sequence of
  entries in `os.listdir` order, each either a label directory with its file names or something
  else.
- **Clip assembler** (`ClipAssembly`, `clip_assembly.dfy`). This is `process_image`. It keeps the
  paths that are files with an image extension (tested case-insensitively) and that `cv2.imread`
  reads. It collects their processed frames in order and warns about every other path. Then it pads
  the frames by repeating the last one, or cuts them, to exactly `max_frames`. The disk is an input
  (`isFile`, `imread`), and so is the per-frame processing `prep`. Frames are opaque values.
- **Face box** (`FaceBox`, `face_box.dfy`). This is the integer arithmetic of
  `detect_face_and_landmarks`. Each side of the detected box is widened by `int(0.1 * extent)` and
  clamped to the frame. The right and bottom margins are measured from the already widened left and
  top sides.
- **Dataset and collator** (`ClipDataset`, `clip_dataset.dfy`, and `Batching`, `batching.dfy`).
  These are `VideoImageDataset.__len__` and `__getitem__` up to the tensor conversion, and
  `collate_fn`.

`PyText` (`py_text.dfy`) writes out the Python built-ins this code relies on. These are
`str.split`/`str.join`, `str.strip`, `str.lower`, `str.endswith`, `os.path.join`, string order and
`sorted`, list indexing with negative indices, `[x] * n` and `lst[:n]`. `Wrappers` holds `Option`
and `Result`.

The model follows the code in three places where its behaviour may be unintended:

- The video id drops the last `_`-separated token of the whole file name, extension included.
  `vid1_000.png` gives `vid1`. A name without `_` gives the empty id.
- A group of frames that yields no readable frame becomes an empty clip in `process_image`. It is not
  reported there. `__getitem__` then raises, because an empty clip cannot be made into a tensor.
- When several faces are detected, each box is applied in turn to the frame already cropped by the
  previous one. Every box is measured against the same width and height, because each crop is
  resized back to the frame's size. This is not "the last detection wins".

## Model

| member | source | states |
|---|---|---|
| `Vocabulary.LabelOf` | ResNet3D.py:31-39 | every label lookup `facial_expression.get(name, -1)` gives a value in -1..6 |
| `Vocabulary.LabelOfMatchesExpressions` | ResNet3D.py:31-39 | a name gets -1 exactly when it is not one of the seven expressions, and otherwise the id of its place in the table |
| `Vocabulary.LabelOfOnto` | ResNet3D.py:31-39 | every class id 0..6 is the label of its expression name |
| `DatasetIndex.VideoIdWithoutUnderscore` | ResNet3D.py:56 | a file name without `_` belongs to the video with the empty id |
| `DatasetIndex.VideoIdAtLastUnderscore` | ResNet3D.py:56 | the video id of a name with `_` is everything before its last `_` |
| `PyText.JoinSplit` | ResNet3D.py:56 | joining the parts of `name.split('_')` with `_` gives the name back, so dropping the last part removes exactly the last token |
| `PyText.StripSpec` | ResNet3D.py:55 | `strip()` returns the piece of the name between a run of leading and a run of trailing whitespace; that piece neither starts nor ends with whitespace, and a name without whitespace is unchanged |
| `PyText.SortSorted` | ResNet3D.py:54 | `sorted()` returns the names in ascending code-point order, as a permutation of the listing |
| `PyText.SortUnique` | ResNet3D.py:54 | any ascending permutation of the names is the one `sorted()` returns, so the order of the listing does not matter |
| `DatasetIndex.FrameRefsTags` | ResNet3D.py:54-57 | the i-th tagged frame is the i-th sorted name, stripped, with its video id and joined path |
| `DatasetIndex.FirstIdsDistinct` | ResNet3D.py:53-61 | no video id gets two groups in one directory |
| `DatasetIndex.FirstIdsCover` | ResNet3D.py:53-61 | the ids of a directory's groups are exactly the ids of its files, and exactly those with a non-empty group |
| `DatasetIndex.MemberIndicesExact` | ResNet3D.py:53-61 | the group of an id lists exactly the files with that id, in ascending listing position, so each group keeps sorted order |
| `DatasetIndex.EachFrameInExactlyOneGroup` | ResNet3D.py:53-61 | every file of a directory lands in the group of its own id and in no other |
| `DatasetIndex.GroupsInFirstOccurrenceOrder` | ResNet3D.py:53-64 | groups come out in the order in which their first files appear in the sorted listing |
| `DatasetIndex.GroupsCoverAllFrames` | ResNet3D.py:53-64 | every group is non-empty and the group sizes add up to the number of files |
| `DatasetIndex.GroupsKeepEveryPath` | ResNet3D.py:53-64 | the groups of a directory, laid end to end, hold exactly the paths of its files, each as often as it is listed |
| `DatasetIndex.GroupByVideo` | ResNet3D.py:53-61 | the dictionary loop over the sorted, stripped names yields, in insertion order, the grouping by video id |
| `DatasetIndex.ValuesInOrder` | ResNet3D.py:63 | `video_to_frames.values()` yields each key's list, in the insertion order of the keys |
| `DatasetIndex.AppendGroups` | ResNet3D.py:63-65 | the groups of a directory are appended in order, each with the directory's label |
| `DatasetIndex.ExtractVideoPathsAndLabels` | ResNet3D.py:44-67 | the nested loops produce the groups of every label directory in listing order, skipping non-directories, and one label per group |
| `DatasetIndex.IndexedShape` | ResNet3D.py:46-67 | the path and label lists have equal length, every label is in -1..6, every group is non-empty, and the group sizes add up to the number of files in the label directories |
| `DatasetIndex.IndexedKeepsEveryFile` | ResNet3D.py:46-67 | the groups of `video_paths`, laid end to end, hold the path of every file of every label directory exactly as often as it is listed: no file is lost or duplicated |
| `ClipAssembly.ImageExtensionIgnoresCase` | ResNet3D.py:180 | the extension whitelist ignores letter case |
| `ClipAssembly.ImageExtensionBySuffix` | ResNet3D.py:180 | only the end of a path decides the extension test |
| `ClipAssembly.AcceptedItems` | ResNet3D.py:176-190 | a list element gives a frame exactly when it is a str naming a file with a whitelisted extension that `imread` reads |
| `ClipAssembly.EveryItemAccountedFor` | ResNet3D.py:176-190 | each list element gives exactly one frame or exactly one warning |
| `ClipAssembly.CollectedConcat` | ResNet3D.py:177-190 | the frames of a list are those of its first part followed by those of its second part |
| `ClipAssembly.ItemInPlace` | ResNet3D.py:176-190 | a skipped element does not abort the clip or disturb the order of the frames around it, and an accepted element contributes its frame in its own place |
| `ClipAssembly.SinglePathFailedReadRaises` | ResNet3D.py:192-198 | as written, a single image path whose read fails raises an unbound-local error, while the corrected branch skips it with a failed-read warning |
| `ClipAssembly.SinglePathMatchesList` | ResNet3D.py:192-200 | the corrected single-path branch collects the same frames as a one-element list, and agrees with the code as written wherever that does not raise |
| `ClipAssembly.Fit` | ResNet3D.py:202-205 | no frames stay no frames; 1..max_frames-1 frames are kept and then padded with copies of the last frame up to max_frames; exactly max_frames are left alone; more are cut to the first max_frames (negative max_frames follows Python's slice rule) |
| `ClipAssembly.FitLength` | ResNet3D.py:202-205 | any non-empty frame list becomes a clip of exactly max_frames frames |
| `ClipAssembly.FitIdempotent` | ResNet3D.py:202-205 | padding or cutting an assembled clip again changes nothing |
| `ClipAssembly.FitFramesComeFromInput` | ResNet3D.py:202-205 | each clip frame is the read frame at its position, or a copy of the last read frame |
| `ClipAssembly.ProcessImage` | ResNet3D.py:167-205 | the loop collects the readable frames in order with one warning per skipped path, then pads or cuts them to max_frames |
| `ClipAssembly.ClipOfVideo` | ResNet3D.py:176-205 | a video with at least one readable frame yields exactly max_frames frames; one with none yields an empty clip and a warning for every path |
| `FaceBox.Tenth` | ResNet3D.py:138-141 | `int(0.1 * d)` is d divided by ten, truncated toward zero |
| `FaceBox.Expand` | ResNet3D.py:138-141 | the four clamps: the left and top sides are never below 0, the right side never beyond w and the bottom side never beyond h |
| `FaceBox.ExpandContains` | ResNet3D.py:138-141 | a box inside the frame only grows, and the expanded box is still inside the frame with ordered sides |
| `FaceBox.ExpandMargins` | ResNet3D.py:138-141 | the left and top margins are a tenth of the original extent; the right and bottom margins are a tenth of the extent measured from the widened left and top; the frame edge cuts each one short |
| `FaceBox.FarMarginAtLeastNearMargin` | ResNet3D.py:140-141 | unless the frame edge cuts it, the right (bottom) margin is at least a tenth of the original width (height) |
| `FaceBox.ExpandExample` | ResNet3D.py:137-141 | a 100-pixel box gains 10 pixels on the left and 11 on the right |
| `FaceBox.CropBoxes` | ResNet3D.py:128-145 | every detection, in order, gives one crop: its expanded box, clamped to the frame; no detection gives no crop |
| `ClipDataset.VideoImageDataset.GetItem` | ResNet3D.py:255-266 | an example exists exactly when idx indexes both the groups and a given label list (negative idx allowed) and the group's clip is non-empty; it is that clip and the label at idx; a missing label list raises a type error, and an empty clip raises in the transpose or, through `augment_frames`, in `torch.stack` |
| `ClipDataset.NegativeIndexSameItem` | ResNet3D.py:256-257 | idx - len reads the same example as idx |
| `ClipDataset.IndexedDatasetItems` | ResNet3D.py:252-266 | a dataset built from the indexer has as many labels as groups (`__len__`), and every label is in -1..6; an index below its length gives its label and a clip of clip_length frames when a frame of the group reads and clip_length is positive, and raises on the empty clip otherwise |
| `Batching.ZipUnzip` | ResNet3D.py:286 | unzipping a batch loses nothing: zipping the halves back gives the batch |
| `Batching.UnzipZip` | ResNet3D.py:286 | unzipping two zipped lists gives the two lists back |
| `Batching.Collate` | ResNet3D.py:285-291 | an empty batch and clips of different shapes fail; otherwise the stacked shape is the batch length followed by the clip shape, the label vector has the batch length, and the i-th clip and label come from the i-th pair |
| `Batching.CollateRoundTrip` | ResNet3D.py:285-291 | the pairs can be recovered from the batch in their original order |
| `Batching.CollateFourClips` | ResNet3D.py:285-291 | four clips of shape (3, 10, 112, 112) stack into shape (4, 3, 10, 112, 112) with four labels |

## Findings

| source | as written | input that shows it | evidently intended | confidence | as-written member | corrected member |
|---|---|---|---|---|---|---|
| ResNet3D.py:192-198 | when a single path is given and `cv2.imread` returns `None`, line 198 appends `processed_frame`. That local is never assigned on this branch, so Python raises `UnboundLocalError` | `process_image("x.png")` where `x.png` exists but cannot be decoded | skip the file with a failed-read warning, as the list branch does (lines 185-186) | high; not executed | `ClipAssembly.SinglePathFailedReadRaises` (about `ClipAssembly.SinglePathAsWritten`) | `ClipAssembly.SinglePathMatchesList` (about `ClipAssembly.SinglePathOutcome`, which `ClipAssembly.ProcessImage` implements) |

## Left out

- `split_dataset` beyond the indexer: `random.seed` and the split by `train_test_split`. These are library randomness, and their reproducibility cannot be stated here.
- A missing data directory: `os.listdir` would raise. The listing is an input, so the model always has one.
- `video_to_frames`: video decoding and file writing.
- The face detector and the landmark mesh, with their shared module-level instances. Also the conversion of relative boxes to pixels (`int(bboxC.xmin * w)`, which is floating point), the contrast and sharpness enhancement, the crop-and-resize, and the landmark drawing. These are image-library and model calls. `FaceBox.CropBoxes` keeps only which boxes are applied, and in what order.
- `read_and_process_frame`: face cropping, `cv2.resize` and the `/ 255.0` scaling. These become the opaque `prep` function.
- `augment_frames`, the dataset's `transform`, the `resize` setting, the axis transposes and the tensor conversions in `__getitem__`. These are floating point and torchvision. Only their failure on an empty clip is modelled, as `EmptyClip`.
- `ResNet3DModel` and the commented-out training script.
- Printing: warnings are returned as a list instead of printed.
- `FaceBox.Tenth`: models `int(0.1 * d)` as exact division truncated toward zero. The double-precision product rounds, but for any extent a frame can have, truncation gives the same integer.
- `PyText.Lower`: lowers only ASCII letters. No other character lowers to one of the characters of `.png`, `.jpg`, `.jpeg` or `.bmp`, so the extension test is unchanged.
- `ClipAssembly.ProcessImage`: on a single path whose read fails, it skips the path with a warning where the code raises (see Findings). The code as written is `ClipAssembly.SinglePathAsWritten`.
- Values that `isinstance` rejects: any argument that is not a list or a str is `OtherArg`, and any list element that is not a str is `OtherItem`.
