/**
 * The clip assembler, `process_image`: reads the frames of one video from disk, keeps those with
 * an image extension that read successfully, and pads (by repeating the last frame) or cuts the
 * result to exactly `max_frames` frames.
 *
 * The disk is an input: os.path.isfile and cv2.imread become the two fields of a Disk value, and
 * the per-frame work of `read_and_process_frame` (face crop, resize, scaling to [0, 1]) is a
 * function `prep` from images to frames. Frames are opaque values.
 */
module ClipAssembly {
  import opened Wrappers
  import opened PyText

  // ---------------------------------------------------------------------------
  // the extension whitelist
  // ---------------------------------------------------------------------------

  /** path.lower().endswith(('.png', '.jpg', '.jpeg', '.bmp')) */
  predicate HasImageExtension(path: string) {
    var lower := Lower(path);
    EndsWith(lower, ".png") || EndsWith(lower, ".jpg") || EndsWith(lower, ".jpeg") || EndsWith(lower, ".bmp")
  }

  /** The test ignores case: two names equal up to case are both accepted or both refused. */
  lemma ImageExtensionIgnoresCase(a: string, b: string)
    requires Lower(a) == Lower(b)
    ensures HasImageExtension(a) <==> HasImageExtension(b)
    ensures HasImageExtension(a) <==> HasImageExtension(Lower(a))
  {
    LowerIdempotent(a);
  }

  /** Only the last five characters of a name decide the test (".jpeg" is the longest extension). */
  lemma ImageExtensionBySuffix(prefix: string, name: string)
    requires |name| >= 5
    ensures HasImageExtension(prefix + name) <==> HasImageExtension(name)
  {
    LowerConcat(prefix, name);
    var l, n := Lower(prefix + name), Lower(name);
    assert l == Lower(prefix) + n;
    forall e | e in [".png", ".jpg", ".jpeg", ".bmp"] ensures EndsWith(l, e) <==> EndsWith(n, e) {
      assert l[|l| - |e|..] == n[|n| - |e|..];
    }
  }

  // ---------------------------------------------------------------------------
  // the reading loop
  // ---------------------------------------------------------------------------

  /** One element of the list handed to process_image: a str, or any other Python value. */
  datatype Item = PathItem(path: string) | OtherItem

  /** The argument of process_image: a list, a single str, or any other Python value. */
  datatype PathArg = PathList(items: seq<Item>) | SinglePath(path: string) | OtherArg

  /** What process_image learns from the disk: os.path.isfile, and cv2.imread (None on failure). */
  datatype Disk<Img> = Disk(isFile: string -> bool, imread: string -> Option<Img>)

  /** The warnings process_image prints. */
  datatype Warning =
    | InvalidPath(item: Item)
    | UnsupportedFormat(path: string)
    | FailedRead(path: string)
    | UnsupportedVideoFormat(path: string)

  /** What one list element contributes: the processed frame, or the warning it is skipped with. */
  function ItemOutcome<Img, F>(item: Item, disk: Disk<Img>, prep: Img -> F): Result<F, Warning> {
    match item
    case OtherItem => Err(InvalidPath(item))
    case PathItem(path) =>
      if !disk.isFile(path) then Err(InvalidPath(item))
      else if !HasImageExtension(path) then Err(UnsupportedFormat(path))
      else match disk.imread(path)
        case None => Err(FailedRead(path))
        case Some(image) => Ok(prep(image))
  }

  /** The frames the list loop collects, in list order. */
  function Collected<Img, F>(items: seq<Item>, disk: Disk<Img>, prep: Img -> F): seq<F> {
    if items == [] then []
    else
      var prior := Collected(items[..|items| - 1], disk, prep);
      match ItemOutcome(items[|items| - 1], disk, prep)
      case Ok(frame) => prior + [frame]
      case Err(_) => prior
  }

  /** The warnings the list loop prints, in list order. */
  function Warned<Img, F>(items: seq<Item>, disk: Disk<Img>, prep: Img -> F): seq<Warning> {
    if items == [] then []
    else
      var prior := Warned(items[..|items| - 1], disk, prep);
      match ItemOutcome(items[|items| - 1], disk, prep)
      case Ok(_) => prior
      case Err(warning) => prior + [warning]
  }

  /** Every element gives either one frame or one warning, never both and never neither. */
  lemma {:induction false} EveryItemAccountedFor<Img, F>(items: seq<Item>, disk: Disk<Img>, prep: Img -> F)
    ensures |Collected(items, disk, prep)| + |Warned(items, disk, prep)| == |items|
  {
    if items != [] {
      EveryItemAccountedFor(items[..|items| - 1], disk, prep);
    }
  }

  /** Collecting a list collects its two halves one after the other. */
  lemma {:induction false} CollectedConcat<Img, F>(a: seq<Item>, b: seq<Item>, disk: Disk<Img>, prep: Img -> F)
    ensures Collected(a + b, disk, prep) == Collected(a, disk, prep) + Collected(b, disk, prep)
  {
    if b == [] {
      assert a + b == a;
    } else {
      assert (a + b)[..|a + b| - 1] == a + b[..|b| - 1];
      assert (a + b)[|a + b| - 1] == b[|b| - 1];
      CollectedConcat(a, b[..|b| - 1], disk, prep);
    }
  }

  /**
   * A skipped element (not a str, not a file, an unsupported extension, or a failed read) does
   * not abort the clip: the frames around it are collected as if it were absent. An accepted
   * element contributes its processed frame in its own place.
   */
  lemma ItemInPlace<Img, F>(a: seq<Item>, item: Item, b: seq<Item>, disk: Disk<Img>, prep: Img -> F)
    ensures ItemOutcome(item, disk, prep).Err? ==>
      Collected(a + [item] + b, disk, prep) == Collected(a, disk, prep) + Collected(b, disk, prep)
    ensures ItemOutcome(item, disk, prep).Ok? ==>
      Collected(a + [item] + b, disk, prep)
        == Collected(a, disk, prep) + [ItemOutcome(item, disk, prep).value] + Collected(b, disk, prep)
  {
    CollectedConcat(a + [item], b, disk, prep);
    CollectedConcat(a, [item], disk, prep);
    assert [item][..0] == [];
  }

  /**
   * An element is accepted exactly when it is a str naming a file with an image extension that
   * cv2.imread reads.
   */
  lemma AcceptedItems<Img, F>(item: Item, disk: Disk<Img>, prep: Img -> F)
    ensures ItemOutcome(item, disk, prep).Ok? <==>
      item.PathItem? && disk.isFile(item.path) && HasImageExtension(item.path) && disk.imread(item.path).Some?
  {
  }

  // ---------------------------------------------------------------------------
  // the single-path branch
  // ---------------------------------------------------------------------------

  /** The exceptions the model can see process_image raise. */
  datatype PyError = UnboundLocalError

  /**
   * The single-str branch as written (lines 192-200): when cv2.imread fails, line 198 still
   * appends `processed_frame`, a local that was never assigned, and Python raises.
   */
  function SinglePathAsWritten<Img, F>(path: string, disk: Disk<Img>, prep: Img -> F): Result<seq<F>, PyError> {
    if !disk.isFile(path) || !HasImageExtension(path) then Ok([])
    else match disk.imread(path)
      case None => Err(UnboundLocalError)
      case Some(image) => Ok([prep(image)])
  }

  /** The single-str branch with a failed read skipped and reported, as the list branch does. */
  function SinglePathOutcome<Img, F>(path: string, disk: Disk<Img>, prep: Img -> F): (seq<F>, seq<Warning>) {
    if !disk.isFile(path) then ([], [])
    else if !HasImageExtension(path) then ([], [UnsupportedVideoFormat(path)])
    else match disk.imread(path)
      case None => ([], [FailedRead(path)])
      case Some(image) => ([prep(image)], [])
  }

  /** A readable image file passed alone raises, as written, when cv2.imread returns None. */
  lemma SinglePathFailedReadRaises<Img, F>(path: string, disk: Disk<Img>, prep: Img -> F)
    requires disk.isFile(path) && HasImageExtension(path) && disk.imread(path).None?
    ensures SinglePathAsWritten(path, disk, prep) == Err(UnboundLocalError)
    ensures SinglePathOutcome(path, disk, prep) == ([], [FailedRead(path)])
  {
  }

  /**
   * The corrected branch agrees with the list branch: a single path is handled as the one-element
   * list holding it, except that a path that is not a file is skipped silently and an
   * unsupported extension is reported as an unsupported video format.
   */
  lemma SinglePathMatchesList<Img, F>(path: string, disk: Disk<Img>, prep: Img -> F)
    ensures SinglePathOutcome(path, disk, prep).0 == Collected([PathItem(path)], disk, prep)
    ensures disk.isFile(path) && HasImageExtension(path) ==>
      SinglePathOutcome(path, disk, prep).1 == Warned([PathItem(path)], disk, prep)
    ensures SinglePathAsWritten(path, disk, prep).Ok? ==>
      SinglePathAsWritten(path, disk, prep).value == SinglePathOutcome(path, disk, prep).0
  {
    assert [PathItem(path)][..0] == [];
  }

  /** The frames read from the argument of process_image, before padding or cutting. */
  function ReadFrames<Img, F>(input: PathArg, disk: Disk<Img>, prep: Img -> F): seq<F> {
    match input
    case PathList(items) => Collected(items, disk, prep)
    case SinglePath(path) => SinglePathOutcome(path, disk, prep).0
    case OtherArg => []
  }

  /** The warnings printed while reading the argument of process_image. */
  function ReadWarnings<Img, F>(input: PathArg, disk: Disk<Img>, prep: Img -> F): seq<Warning> {
    match input
    case PathList(items) => Warned(items, disk, prep)
    case SinglePath(path) => SinglePathOutcome(path, disk, prep).1
    case OtherArg => []
  }

  // ---------------------------------------------------------------------------
  // padding and cutting
  // ---------------------------------------------------------------------------

  /**
   * Lines 202-205: between 1 and max_frames - 1 frames are padded with copies of the last frame,
   * more than max_frames are cut to the first max_frames (with Python's slice rule for a
   * negative max_frames), and otherwise the frames are left alone, so no frames stay no frames.
   */
  function Fit<F>(frames: seq<F>, maxFrames: int): (clip: seq<F>)
    ensures frames == [] ==> clip == []
    ensures 0 < |frames| < maxFrames ==>
      |clip| == maxFrames && clip[..|frames|] == frames
      && forall i :: |frames| <= i < maxFrames ==> clip[i] == frames[|frames| - 1]
    ensures |frames| == maxFrames ==> clip == frames
    ensures 0 <= maxFrames < |frames| ==> clip == frames[..maxFrames]
    ensures maxFrames < 0 ==> clip == frames[..if |frames| + maxFrames < 0 then 0 else |frames| + maxFrames]
  {
    if 0 < |frames| < maxFrames then frames + Repeat(frames[|frames| - 1], maxFrames - |frames|)
    else if |frames| > maxFrames then SliceTo(frames, maxFrames)
    else frames
  }

  /** Any non-empty set of frames becomes a clip of exactly max_frames frames. */
  lemma FitLength<F>(frames: seq<F>, maxFrames: nat)
    requires frames != []
    ensures |Fit(frames, maxFrames)| == maxFrames
  {
  }

  /** A clip is already fitted: fitting it again changes nothing. */
  lemma FitIdempotent<F>(frames: seq<F>, maxFrames: nat)
    ensures Fit(Fit(frames, maxFrames), maxFrames) == Fit(frames, maxFrames)
  {
  }

  /**
   * Every frame of a clip is a read frame: the first ones in their original order, and any
   * further ones copies of the last read frame.
   */
  lemma FitFramesComeFromInput<F>(frames: seq<F>, maxFrames: nat, i: nat)
    requires i < |Fit(frames, maxFrames)|
    ensures i < |frames| ==> Fit(frames, maxFrames)[i] == frames[i]
    ensures i >= |frames| ==> Fit(frames, maxFrames)[i] == frames[|frames| - 1]
  {
    if i < |frames| && |frames| < maxFrames {
      assert Fit(frames, maxFrames)[..|frames|][i] == frames[i];
    }
  }

  // ---------------------------------------------------------------------------
  // process_image
  // ---------------------------------------------------------------------------

  /**
   * process_image(input_path, max_frames): the frames read from the argument, in order, padded or
   * cut to max_frames, and the warnings printed on the way. The single-str branch skips a failed
   * read instead of raising.
   */
  method ProcessImage<Img, F>(input: PathArg, maxFrames: int, disk: Disk<Img>, prep: Img -> F)
    returns (frames: seq<F>, warnings: seq<Warning>)
    ensures frames == Fit(ReadFrames(input, disk, prep), maxFrames)
    ensures warnings == ReadWarnings(input, disk, prep)
  {
    frames, warnings := [], [];
    match input {
      case PathList(items) =>
        var i := 0;
        while i < |items|
          invariant 0 <= i <= |items|
          invariant frames == Collected(items[..i], disk, prep)
          invariant warnings == Warned(items[..i], disk, prep)
        {
          assert items[..i + 1][..i] == items[..i];
          var item := items[i];
          if item.PathItem? && disk.isFile(item.path) {
            var path := item.path;
            if HasImageExtension(path) {
              var image := disk.imread(path);
              if image.Some? {
                frames := frames + [prep(image.value)];
              } else {
                warnings := warnings + [FailedRead(path)];
              }
            } else {
              warnings := warnings + [UnsupportedFormat(path)];
            }
          } else {
            warnings := warnings + [InvalidPath(item)];
          }
          i := i + 1;
        }
        assert items[..i] == items;
      case SinglePath(path) =>
        if disk.isFile(path) {
          if HasImageExtension(path) {
            var image := disk.imread(path);
            if image.Some? {
              frames := frames + [prep(image.value)];
            } else {
              warnings := warnings + [FailedRead(path)];
            }
          } else {
            warnings := warnings + [UnsupportedVideoFormat(path)];
          }
        }
      case OtherArg =>
    }
    if |frames| > 0 && |frames| < maxFrames {
      frames := frames + Repeat(frames[|frames| - 1], maxFrames - |frames|);
    } else if |frames| > maxFrames {
      frames := SliceTo(frames, maxFrames);
    }
  }

  /**
   * The clip of a video: exactly max_frames frames as soon as one frame reads, none otherwise,
   * and one warning for every element of the list that gave no frame.
   */
  lemma ClipOfVideo<Img, F>(items: seq<Item>, maxFrames: nat, disk: Disk<Img>, prep: Img -> F)
    ensures Collected(items, disk, prep) != [] ==>
      |Fit(ReadFrames(PathList(items), disk, prep), maxFrames)| == maxFrames
    ensures Collected(items, disk, prep) == [] ==>
      Fit(ReadFrames(PathList(items), disk, prep), maxFrames) == []
        && |ReadWarnings(PathList(items), disk, prep)| == |items|
  {
    EveryItemAccountedFor(items, disk, prep);
  }
}
