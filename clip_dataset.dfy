/**
 * VideoImageDataset: the random-access collection that maps an index to the clip of one video
 * group and its label. It keeps the groups, labels and clip length it was built with and never
 * updates them; every access assembles the clip afresh.
 */
module ClipDataset {
  import opened Wrappers
  import opened PyText
  import ClipAssembly
  import DatasetIndex
  import Vocabulary

  /**
   * The exceptions __getitem__ can raise: an index out of range, a missing label list, and an
   * empty clip, which np.transpose (ValueError) or, through augment_frames, torch.stack rejects.
   */
  datatype ItemError = IndexError | TypeError | EmptyClip

  /** A video group as the list of str that process_image receives. */
  function AsItems(paths: seq<string>): (items: seq<ClipAssembly.Item>)
    ensures |items| == |paths|
    ensures forall i :: 0 <= i < |paths| ==> items[i] == ClipAssembly.PathItem(paths[i])
  {
    seq(|paths|, i requires 0 <= i < |paths| => ClipAssembly.PathItem(paths[i]))
  }

  /** The state given to the constructor: groups, labels (None when not given) and clip length. */
  datatype VideoImageDataset = VideoImageDataset(videoPaths: seq<seq<string>>, labels: Option<seq<int>>, clipLength: int)
  {
    /** __len__: the number of video groups. */
    function Len(): nat {
      |videoPaths|
    }

    /** idx, negative or not, is a position both in the groups and in a given label list. */
    predicate Indexes(idx: int) {
      0 <= idx + Len() && idx < Len() && labels.Some? && 0 <= idx + |labels.value| && idx < |labels.value|
    }

    /** The clip process_image assembles from the k-th group. */
    function ClipAt<Img, F>(k: nat, disk: ClipAssembly.Disk<Img>, prep: Img -> F): seq<F>
      requires k < Len()
    {
      ClipAssembly.Fit(ClipAssembly.ReadFrames(ClipAssembly.PathList(AsItems(videoPaths[k])), disk, prep), clipLength)
    }

    /**
     * __getitem__(idx) up to the tensor conversion: the clip of the group at idx and the label at
     * idx (a negative idx counting from the end). An empty clip cannot be transposed into a
     * tensor, so it raises.
     */
    function GetItem<Img, F>(idx: int, disk: ClipAssembly.Disk<Img>, prep: Img -> F): (r: Result<(seq<F>, int), ItemError>)
      ensures r.Ok? <==> (Indexes(idx) && ClipAt(ListIndex(Len(), idx).value, disk, prep) != [])
      ensures r == Err(TypeError) <==> 0 <= idx + Len() && idx < Len() && labels.None?
      ensures r == Err(EmptyClip) <==> (Indexes(idx) && ClipAt(ListIndex(Len(), idx).value, disk, prep) == [])
      ensures r.Ok? ==> (r.value.0 == ClipAt(ListIndex(Len(), idx).value, disk, prep)
        && r.value.1 == labels.value[ListIndex(|labels.value|, idx).value])
    {
      match ListIndex(|videoPaths|, idx)
      case None => Err(IndexError)
      case Some(k) =>
        if labels.None? then Err(TypeError)
        else match ListIndex(|labels.value|, idx)
          case None => Err(IndexError)
          case Some(m) =>
            var frames := ClipAt(k, disk, prep);
            if frames == [] then Err(EmptyClip) else Ok((frames, labels.value[m]))
    }
  }

  /** A negative index reads the same example as the index it stands for. */
  lemma NegativeIndexSameItem<Img, F>(ds: VideoImageDataset, idx: int, disk: ClipAssembly.Disk<Img>, prep: Img -> F)
    requires 0 <= idx < ds.Len()
    requires ds.labels.Some? && |ds.labels.value| == ds.Len()
    ensures ds.GetItem(idx - ds.Len(), disk, prep) == ds.GetItem(idx, disk, prep)
  {
  }

  /**
   * A dataset built from the indexer's output has one label per group, and every label is a
   * class id or -1. An index below its length gives an example of exactly clip_length frames
   * when at least one frame of the group reads and clip_length is positive; otherwise the clip
   * is empty and the access raises.
   */
  lemma IndexedDatasetItems<Img, F>(dataDir: string, listing: seq<DatasetIndex.ListingEntry>,
                                    clipLength: nat, idx: int, disk: ClipAssembly.Disk<Img>, prep: Img -> F)
    requires 0 <= idx < |DatasetIndex.IndexedPaths(dataDir, listing)|
    ensures var ds := VideoImageDataset(DatasetIndex.IndexedPaths(dataDir, listing),
                                        Some(DatasetIndex.IndexedLabels(dataDir, listing)), clipLength);
      && ds.Len() == |DatasetIndex.IndexedLabels(dataDir, listing)|
      && Vocabulary.UNKNOWN_LABEL <= DatasetIndex.IndexedLabels(dataDir, listing)[idx] < Vocabulary.NUM_CLASSES
      && (ClipAssembly.Collected(AsItems(ds.videoPaths[idx]), disk, prep) != [] && clipLength > 0 ==>
            && ds.GetItem(idx, disk, prep).Ok?
            && ds.GetItem(idx, disk, prep).value.1 == DatasetIndex.IndexedLabels(dataDir, listing)[idx]
            && |ds.GetItem(idx, disk, prep).value.0| == clipLength)
      && (ClipAssembly.Collected(AsItems(ds.videoPaths[idx]), disk, prep) == [] || clipLength == 0 ==>
            ds.GetItem(idx, disk, prep) == Err(EmptyClip))
  {
    DatasetIndex.IndexedShape(dataDir, listing);
    var paths := DatasetIndex.IndexedPaths(dataDir, listing);
    ClipAssembly.ClipOfVideo(AsItems(paths[idx]), clipLength, disk, prep);
  }
}
