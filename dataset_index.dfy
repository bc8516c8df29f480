/**
 * The dataset indexer, `extract_video_paths_and_labels` inside `split_dataset`: a walk over the
 * label directories of a data directory that groups each directory's frame files into videos by
 * their video id and gives every video the class id of its directory.
 *
 * The file system is an input: the listing of the data directory, in the order os.listdir
 * returns it, where each entry is either a directory (with the names os.listdir returns for it)
 * or anything else, which the indexer skips.
 */
module DatasetIndex {
  import opened PyText
  import Vocabulary

  // ---------------------------------------------------------------------------
  // video ids
  // ---------------------------------------------------------------------------

  /** '_'.join(name.split('_')[:-1]): the file name without its last '_'-separated token. */
  function VideoId(name: string): string {
    var parts := Split(name, '_');
    Join('_', parts[..|parts| - 1])
  }

  /** A name without '_' belongs to the video with the empty id. */
  lemma VideoIdWithoutUnderscore(name: string)
    requires '_' !in name
    ensures VideoId(name) == ""
  {
    SplitWithoutSeparator(name, '_');
  }

  /** A name with '_' belongs to the video named by everything before its last '_'. */
  lemma {:induction false} VideoIdAtLastUnderscore(name: string, k: nat)
    requires k < |name| && name[k] == '_'
    requires forall j :: k < j < |name| ==> name[j] != '_'
    ensures VideoId(name) == name[..k]
  {
    var t := name[1..];
    var rest := Split(t, '_');
    if k == 0 {
      assert '_' !in t by {
        forall j | 0 <= j < |t| ensures t[j] != '_' {
          assert t[j] == name[j + 1];
        }
      }
      SplitWithoutSeparator(t, '_');
      assert Split(name, '_') == ["", t];
    } else {
      assert t[k - 1] == '_';
      SplitWithSeparator(t, '_');
      VideoIdAtLastUnderscore(t, k - 1);
      var m := |rest|;
      assert Join('_', rest[..m - 1]) == t[..k - 1];
      if name[0] == '_' {
        var parts := [""] + rest;
        assert parts[..|parts| - 1] == [""] + rest[..m - 1];
        assert ([""] + rest[..m - 1])[1..] == rest[..m - 1];
      } else {
        var parts := [[name[0]] + rest[0]] + rest[1..];
        assert parts[..|parts| - 1] == [[name[0]] + rest[0]] + rest[1..m - 1];
        JoinConsHead('_', name[0], rest[0], rest[1..m - 1]);
        assert [rest[0]] + rest[1..m - 1] == rest[..m - 1];
      }
      assert name[..k] == [name[0]] + t[..k - 1];
    }
  }

  // ---------------------------------------------------------------------------
  // grouping one label directory
  // ---------------------------------------------------------------------------

  /** One frame file of a label directory: the video id of its stripped name and its path. */
  datatype FrameRef = FrameRef(videoId: string, path: string)

  /** One listed name of a label directory, stripped, with the video id and the path it gives. */
  function Tag(labelDir: string, rawName: string): FrameRef {
    var name := Strip(rawName);
    FrameRef(VideoId(name), PathJoin(labelDir, name))
  }

  /** The frame files of a directory in the given order, each tagged. */
  function FrameRefs(labelDir: string, names: seq<string>): (fs: seq<FrameRef>)
    ensures |fs| == |names|
  {
    if names == [] then []
    else FrameRefs(labelDir, names[..|names| - 1]) + [Tag(labelDir, names[|names| - 1])]
  }

  /** The i-th frame is the i-th name, tagged: positions in fs are positions in the listing. */
  lemma {:induction false} FrameRefsTags(labelDir: string, names: seq<string>)
    ensures forall i :: 0 <= i < |names| ==> FrameRefs(labelDir, names)[i] == Tag(labelDir, names[i])
  {
    if names != [] {
      var p := names[..|names| - 1];
      FrameRefsTags(labelDir, p);
      assert forall i :: 0 <= i < |p| ==> names[i] == p[i];
    }
  }

  /** The video ids of fs without repetitions, in the order of their first occurrence. */
  function FirstIds(fs: seq<FrameRef>): (ids: seq<string>)
    ensures |ids| <= |fs|
  {
    if fs == [] then []
    else
      var ids := FirstIds(fs[..|fs| - 1]);
      var id := fs[|fs| - 1].videoId;
      if id in ids then ids else ids + [id]
  }

  /** The paths of the frames of video id, in the order of fs. */
  function Members(fs: seq<FrameRef>, id: string): seq<string> {
    if fs == [] then []
    else
      var prior := Members(fs[..|fs| - 1], id);
      if fs[|fs| - 1].videoId == id then prior + [fs[|fs| - 1].path] else prior
  }

  /** The positions in fs of the frames of video id, in ascending order. */
  function MemberIndices(fs: seq<FrameRef>, id: string): seq<nat> {
    if fs == [] then []
    else
      var prior := MemberIndices(fs[..|fs| - 1], id);
      if fs[|fs| - 1].videoId == id then prior + [|fs| - 1] else prior
  }

  /** The videos of a directory: one group of paths per video id, in first-occurrence order. */
  function Groups(fs: seq<FrameRef>): (groups: seq<seq<string>>)
    ensures |groups| == |FirstIds(fs)|
  {
    var ids := FirstIds(fs);
    seq(|ids|, j requires 0 <= j < |ids| => Members(fs, ids[j]))
  }

  /** No video id is listed twice. */
  lemma {:induction false} FirstIdsDistinct(fs: seq<FrameRef>)
    ensures forall i, j :: 0 <= i < j < |FirstIds(fs)| ==> FirstIds(fs)[i] != FirstIds(fs)[j]
  {
    if fs != [] {
      FirstIdsDistinct(fs[..|fs| - 1]);
    }
  }

  /** The listed ids are exactly the ids of the frames, and exactly those with a non-empty group. */
  lemma {:induction false} FirstIdsCover(fs: seq<FrameRef>)
    ensures forall i :: 0 <= i < |fs| ==> fs[i].videoId in FirstIds(fs)
    ensures forall id :: id in FirstIds(fs) <==> Members(fs, id) != []
  {
    if fs != [] {
      var p := fs[..|fs| - 1];
      FirstIdsCover(p);
      forall i | 0 <= i < |fs| - 1 ensures fs[i].videoId in FirstIds(fs) {
        assert fs[i] == p[i];
      }
    }
  }

  /** The group of id lists, in ascending position, exactly the frames of fs whose id is id. */
  lemma {:induction false} MemberIndicesExact(fs: seq<FrameRef>, id: string)
    ensures |MemberIndices(fs, id)| == |Members(fs, id)|
    ensures forall t :: 0 <= t < |MemberIndices(fs, id)| ==>
      MemberIndices(fs, id)[t] < |fs| && fs[MemberIndices(fs, id)[t]].videoId == id
      && Members(fs, id)[t] == fs[MemberIndices(fs, id)[t]].path
    ensures forall s, t :: 0 <= s < t < |MemberIndices(fs, id)| ==>
      MemberIndices(fs, id)[s] < MemberIndices(fs, id)[t]
    ensures forall i :: 0 <= i < |fs| && fs[i].videoId == id ==> i in MemberIndices(fs, id)
  {
    if fs != [] {
      var p := fs[..|fs| - 1];
      MemberIndicesExact(p, id);
      var idx, pidx := MemberIndices(fs, id), MemberIndices(p, id);
      forall t | 0 <= t < |pidx| ensures fs[pidx[t]] == p[pidx[t]] {
      }
      forall i | 0 <= i < |fs| && fs[i].videoId == id ensures i in idx {
        if i < |p| {
          assert p[i] == fs[i];
          assert i in pidx;
        }
      }
    }
  }

  /** Every frame file lands in the group of its own id and in no other: grouping is a partition. */
  lemma EachFrameInExactlyOneGroup(fs: seq<FrameRef>, i: nat)
    requires i < |fs|
    ensures exists j :: 0 <= j < |FirstIds(fs)| && FirstIds(fs)[j] == fs[i].videoId
    ensures forall j :: 0 <= j < |FirstIds(fs)| ==>
      (i in MemberIndices(fs, FirstIds(fs)[j]) <==> FirstIds(fs)[j] == fs[i].videoId)
  {
    FirstIdsCover(fs);
    var ids := FirstIds(fs);
    assert fs[i].videoId in ids;
    forall j | 0 <= j < |ids|
      ensures i in MemberIndices(fs, ids[j]) <==> ids[j] == fs[i].videoId
    {
      MemberIndicesExact(fs, ids[j]);
    }
  }

  lemma MemberIndicesPrefix(fs: seq<FrameRef>, id: string)
    requires fs != []
    requires MemberIndices(fs[..|fs| - 1], id) != []
    ensures MemberIndices(fs, id) != []
    ensures MemberIndices(fs, id)[0] == MemberIndices(fs[..|fs| - 1], id)[0]
  {
  }

  /** Groups appear in the order in which their first frames appear. */
  lemma {:induction false} GroupsInFirstOccurrenceOrder(fs: seq<FrameRef>, j: nat, k: nat)
    requires j < k < |FirstIds(fs)|
    ensures MemberIndices(fs, FirstIds(fs)[j]) != [] && MemberIndices(fs, FirstIds(fs)[k]) != []
    ensures MemberIndices(fs, FirstIds(fs)[j])[0] < MemberIndices(fs, FirstIds(fs)[k])[0]
  {
    var p := fs[..|fs| - 1];
    var x := fs[|fs| - 1];
    var ids, pids := FirstIds(fs), FirstIds(p);
    FirstIdsCover(p);
    MemberIndicesExact(p, ids[j]);
    MemberIndicesExact(p, ids[k]);
    MemberIndicesExact(fs, ids[k]);
    if k < |pids| {
      GroupsInFirstOccurrenceOrder(p, j, k);
      MemberIndicesPrefix(fs, ids[j]);
      MemberIndicesPrefix(fs, ids[k]);
    } else {
      assert ids[k] == x.videoId && ids[k] !in pids;
      assert MemberIndices(p, ids[k]) == [];
      MemberIndicesPrefix(fs, ids[j]);
    }
  }

  // ---------------------------------------------------------------------------
  // frame counts
  // ---------------------------------------------------------------------------

  /** The total number of paths over a list of groups. */
  function TotalSize(groups: seq<seq<string>>): nat {
    if groups == [] then 0 else TotalSize(groups[..|groups| - 1]) + |groups[|groups| - 1]|
  }

  lemma {:induction false} TotalSizeConcat(a: seq<seq<string>>, b: seq<seq<string>>)
    ensures TotalSize(a + b) == TotalSize(a) + TotalSize(b)
  {
    if b == [] {
      assert a + b == a;
    } else {
      assert (a + b)[..|a + b| - 1] == a + b[..|b| - 1];
      assert (a + b)[|a + b| - 1] == b[|b| - 1];
      TotalSizeConcat(a, b[..|b| - 1]);
    }
  }

  /** The sizes of the groups of the given ids. */
  function GroupSizes(fs: seq<FrameRef>, ids: seq<string>): nat {
    if ids == [] then 0 else GroupSizes(fs, ids[..|ids| - 1]) + |Members(fs, ids[|ids| - 1])|
  }

  lemma {:induction false} GroupSizesOfGroups(fs: seq<FrameRef>, ids: seq<string>)
    ensures TotalSize(seq(|ids|, j requires 0 <= j < |ids| => Members(fs, ids[j]))) == GroupSizes(fs, ids)
  {
    if ids != [] {
      var q := ids[..|ids| - 1];
      GroupSizesOfGroups(fs, q);
      var whole := seq(|ids|, j requires 0 <= j < |ids| => Members(fs, ids[j]));
      assert whole[..|whole| - 1] == seq(|q|, j requires 0 <= j < |q| => Members(fs, q[j]));
    }
  }

  lemma {:induction false} GroupSizesStep(fs: seq<FrameRef>, ids: seq<string>)
    requires fs != []
    requires forall i, j :: 0 <= i < j < |ids| ==> ids[i] != ids[j]
    ensures GroupSizes(fs, ids) ==
      GroupSizes(fs[..|fs| - 1], ids) + (if fs[|fs| - 1].videoId in ids then 1 else 0)
  {
    if ids != [] {
      var q := ids[..|ids| - 1];
      GroupSizesStep(fs, q);
      assert fs[|fs| - 1].videoId in ids <==>
        fs[|fs| - 1].videoId in q || fs[|fs| - 1].videoId == ids[|ids| - 1];
      assert ids[|ids| - 1] !in q;
    }
  }

  /** Grouping neither loses nor duplicates a frame: the group sizes add up to the number of files. */
  lemma {:induction false} GroupsCoverAllFrames(fs: seq<FrameRef>)
    ensures TotalSize(Groups(fs)) == |fs|
    ensures forall j :: 0 <= j < |Groups(fs)| ==> Groups(fs)[j] != []
  {
    FirstIdsCover(fs);
    GroupSizesOfGroups(fs, FirstIds(fs));
    SizesMatchCount(fs);
  }

  lemma {:induction false} SizesMatchCount(fs: seq<FrameRef>)
    ensures GroupSizes(fs, FirstIds(fs)) == |fs|
  {
    if fs != [] {
      var p := fs[..|fs| - 1];
      var x := fs[|fs| - 1];
      SizesMatchCount(p);
      FirstIdsDistinct(fs);
      FirstIdsDistinct(p);
      var ids, pids := FirstIds(fs), FirstIds(p);
      GroupSizesStep(fs, ids);
      if x.videoId in pids {
        assert ids == pids;
        GroupSizesStep(fs, pids);
      } else {
        assert ids == pids + [x.videoId];
        assert ids[..|ids| - 1] == pids;
        GroupSizesStep(fs, pids);
        FirstIdsCover(p);
        assert Members(p, x.videoId) == [];
      }
    }
  }

  /** The paths of a list of groups, one group after the other. */
  function Flatten(groups: seq<seq<string>>): (paths: seq<string>)
    ensures |paths| == TotalSize(groups)
  {
    if groups == [] then [] else Flatten(groups[..|groups| - 1]) + groups[|groups| - 1]
  }

  lemma {:induction false} FlattenConcat(a: seq<seq<string>>, b: seq<seq<string>>)
    ensures Flatten(a + b) == Flatten(a) + Flatten(b)
  {
    if b == [] {
      assert a + b == a;
    } else {
      assert (a + b)[..|a + b| - 1] == a + b[..|b| - 1];
      assert (a + b)[|a + b| - 1] == b[|b| - 1];
      FlattenConcat(a, b[..|b| - 1]);
    }
  }

  /** The paths of the frames, in the order of fs. */
  function Paths(fs: seq<FrameRef>): (paths: seq<string>)
    ensures |paths| == |fs|
  {
    if fs == [] then [] else Paths(fs[..|fs| - 1]) + [fs[|fs| - 1].path]
  }

  /** The paths, with their multiplicities, of the groups of the given ids. */
  function GroupBag(fs: seq<FrameRef>, ids: seq<string>): multiset<string> {
    if ids == [] then multiset{} else GroupBag(fs, ids[..|ids| - 1]) + multiset(Members(fs, ids[|ids| - 1]))
  }

  lemma {:induction false} GroupBagOfGroups(fs: seq<FrameRef>, ids: seq<string>)
    ensures multiset(Flatten(seq(|ids|, j requires 0 <= j < |ids| => Members(fs, ids[j])))) == GroupBag(fs, ids)
  {
    if ids != [] {
      var q := ids[..|ids| - 1];
      GroupBagOfGroups(fs, q);
      var whole := seq(|ids|, j requires 0 <= j < |ids| => Members(fs, ids[j]));
      assert whole[..|whole| - 1] == seq(|q|, j requires 0 <= j < |q| => Members(fs, q[j]));
    }
  }

  lemma {:induction false} GroupBagStep(fs: seq<FrameRef>, ids: seq<string>)
    requires fs != []
    requires forall i, j :: 0 <= i < j < |ids| ==> ids[i] != ids[j]
    ensures GroupBag(fs, ids) == GroupBag(fs[..|fs| - 1], ids)
      + (if fs[|fs| - 1].videoId in ids then multiset{fs[|fs| - 1].path} else multiset{})
  {
    if ids != [] {
      var q := ids[..|ids| - 1];
      GroupBagStep(fs, q);
      assert fs[|fs| - 1].videoId in ids <==>
        fs[|fs| - 1].videoId in q || fs[|fs| - 1].videoId == ids[|ids| - 1];
      assert ids[|ids| - 1] !in q;
    }
  }

  lemma {:induction false} BagMatchesFrames(fs: seq<FrameRef>)
    ensures GroupBag(fs, FirstIds(fs)) == multiset(Paths(fs))
  {
    if fs != [] {
      var p := fs[..|fs| - 1];
      var x := fs[|fs| - 1];
      BagMatchesFrames(p);
      FirstIdsDistinct(fs);
      FirstIdsDistinct(p);
      var ids, pids := FirstIds(fs), FirstIds(p);
      if x.videoId in pids {
        assert ids == pids;
        GroupBagStep(fs, pids);
      } else {
        assert ids == pids + [x.videoId];
        assert ids[..|ids| - 1] == pids;
        GroupBagStep(fs, pids);
        FirstIdsCover(p);
        assert Members(p, x.videoId) == [];
      }
    }
  }

  /**
   * Grouping neither loses nor duplicates a file: the groups, laid end to end, hold exactly the
   * paths of the frames, each as often as it is listed.
   */
  lemma GroupsKeepEveryPath(fs: seq<FrameRef>)
    ensures multiset(Flatten(Groups(fs))) == multiset(Paths(fs))
  {
    GroupBagOfGroups(fs, FirstIds(fs));
    BagMatchesFrames(fs);
  }

  /**
   * An insertion-ordered dictionary from video id to paths, given as a map and the order of its
   * keys, holds the grouping of fs.
   */
  ghost predicate DictHolds(fs: seq<FrameRef>, order: seq<string>, dict: map<string, seq<string>>) {
    && order == FirstIds(fs)
    && (forall id :: id in dict <==> id in order)
    && (forall id :: id in dict ==> dict[id] == Members(fs, id))
  }

  /** One step of the grouping loop keeps the dictionary in step with the frames seen so far. */
  lemma DictAppend(fs: seq<FrameRef>, order: seq<string>, dict: map<string, seq<string>>, x: FrameRef)
    requires DictHolds(fs, order, dict)
    ensures DictHolds(fs + [x],
      if x.videoId in dict then order else order + [x.videoId],
      dict[x.videoId := (if x.videoId in dict then dict[x.videoId] else []) + [x.path]])
  {
    var gs := fs + [x];
    assert gs[..|gs| - 1] == fs;
    if x.videoId !in dict {
      FirstIdsCover(fs);
    }
  }

  /** The dictionary's values, in key order, are the groups. */
  lemma DictValues(fs: seq<FrameRef>, order: seq<string>, dict: map<string, seq<string>>)
    requires DictHolds(fs, order, dict)
    ensures |order| == |Groups(fs)|
    ensures forall k :: 0 <= k < |order| ==> order[k] in dict && dict[order[k]] == Groups(fs)[k]
  {
  }

  /**
   * The grouping loop of one label directory: walks the directory's names (already sorted),
   * strips each, and appends its path to the list of its video id in an insertion-ordered
   * dictionary, whose values are the result.
   */
  method GroupByVideo(labelDir: string, names: seq<string>) returns (groups: seq<seq<string>>)
    ensures groups == Groups(FrameRefs(labelDir, names))
  {
    // a Python dict: the map and the insertion order of its keys
    var videoToFrames: map<string, seq<string>> := map[];
    var order: seq<string> := [];
    var i := 0;
    while i < |names|
      invariant 0 <= i <= |names|
      invariant DictHolds(FrameRefs(labelDir, names[..i]), order, videoToFrames)
    {
      var frame := Tag(labelDir, names[i]);
      var videoId, framePath := frame.videoId, frame.path;
      DictAppend(FrameRefs(labelDir, names[..i]), order, videoToFrames, frame);
      assert names[..i + 1][..i] == names[..i];
      if videoId !in videoToFrames {
        videoToFrames := videoToFrames[videoId := []];
        order := order + [videoId];
      }
      videoToFrames := videoToFrames[videoId := videoToFrames[videoId] + [framePath]];
      i := i + 1;
    }
    assert names[..i] == names;
    ghost var fs := FrameRefs(labelDir, names);
    DictValues(fs, order, videoToFrames);
    groups := ValuesInOrder(order, videoToFrames);
  }

  /** list(d.values()) for an insertion-ordered dictionary given as a map and its key order. */
  method ValuesInOrder(order: seq<string>, dict: map<string, seq<string>>) returns (values: seq<seq<string>>)
    requires forall k :: 0 <= k < |order| ==> order[k] in dict
    ensures |values| == |order|
    ensures forall k :: 0 <= k < |order| ==> values[k] == dict[order[k]]
  {
    values := [];
    var j := 0;
    while j < |order|
      invariant 0 <= j <= |order|
      invariant |values| == j
      invariant forall k :: 0 <= k < j ==> values[k] == dict[order[k]]
    {
      values := values + [dict[order[j]]];
      j := j + 1;
    }
  }

  // ---------------------------------------------------------------------------
  // the whole data directory
  // ---------------------------------------------------------------------------

  /** One entry of os.listdir(data_dir): a label directory with its file names, or anything else. */
  datatype ListingEntry = LabelDir(name: string, frameNames: seq<string>) | OtherEntry(name: string)

  /** The video groups of one label directory. */
  function DirGroups(dataDir: string, e: ListingEntry): seq<seq<string>>
    requires e.LabelDir?
  {
    Groups(FrameRefs(PathJoin(dataDir, e.name), Sort(e.frameNames)))
  }

  /** video_paths: the groups of every label directory, in listing order. */
  function IndexedPaths(dataDir: string, listing: seq<ListingEntry>): seq<seq<string>> {
    if listing == [] then []
    else
      var e := listing[|listing| - 1];
      IndexedPaths(dataDir, listing[..|listing| - 1]) + (if e.LabelDir? then DirGroups(dataDir, e) else [])
  }

  /** video_labels: one label per group, the class id of the group's directory. */
  function IndexedLabels(dataDir: string, listing: seq<ListingEntry>): seq<int> {
    if listing == [] then []
    else
      var e := listing[|listing| - 1];
      IndexedLabels(dataDir, listing[..|listing| - 1])
        + (if e.LabelDir? then Repeat(Vocabulary.LabelOf(e.name), |DirGroups(dataDir, e)|) else [])
  }

  /** The number of frame files over all label directories. */
  function FrameCount(listing: seq<ListingEntry>): nat {
    if listing == [] then 0
    else
      var e := listing[|listing| - 1];
      FrameCount(listing[..|listing| - 1]) + (if e.LabelDir? then |e.frameNames| else 0)
  }

  /** The path of every file of every label directory, in listing order and sorted within a directory. */
  function ListedPaths(dataDir: string, listing: seq<ListingEntry>): seq<string> {
    if listing == [] then []
    else
      var e := listing[|listing| - 1];
      ListedPaths(dataDir, listing[..|listing| - 1])
        + (if e.LabelDir? then Paths(FrameRefs(PathJoin(dataDir, e.name), Sort(e.frameNames))) else [])
  }

  /**
   * The groups laid end to end hold the path of every file of every label directory exactly as
   * often as it is listed: no file is lost or duplicated.
   */
  lemma {:induction false} IndexedKeepsEveryFile(dataDir: string, listing: seq<ListingEntry>)
    ensures multiset(Flatten(IndexedPaths(dataDir, listing))) == multiset(ListedPaths(dataDir, listing))
  {
    if listing != [] {
      var p := listing[..|listing| - 1];
      var e := listing[|listing| - 1];
      IndexedKeepsEveryFile(dataDir, p);
      var added := if e.LabelDir? then DirGroups(dataDir, e) else [];
      if e.LabelDir? {
        GroupsKeepEveryPath(FrameRefs(PathJoin(dataDir, e.name), Sort(e.frameNames)));
      }
      FlattenConcat(IndexedPaths(dataDir, p), added);
    }
  }

  /**
   * The path and label lists are parallel, every label is a class id or -1, every group holds
   * at least one frame, and the group sizes add up to the number of listed files.
   */
  lemma {:induction false} IndexedShape(dataDir: string, listing: seq<ListingEntry>)
    ensures |IndexedPaths(dataDir, listing)| == |IndexedLabels(dataDir, listing)|
    ensures forall j :: 0 <= j < |IndexedLabels(dataDir, listing)| ==>
      Vocabulary.UNKNOWN_LABEL <= IndexedLabels(dataDir, listing)[j] < Vocabulary.NUM_CLASSES
    ensures forall j :: 0 <= j < |IndexedPaths(dataDir, listing)| ==> IndexedPaths(dataDir, listing)[j] != []
    ensures TotalSize(IndexedPaths(dataDir, listing)) == FrameCount(listing)
  {
    if listing != [] {
      var p := listing[..|listing| - 1];
      var e := listing[|listing| - 1];
      IndexedShape(dataDir, p);
      var added := if e.LabelDir? then DirGroups(dataDir, e) else [];
      if e.LabelDir? {
        var fs := FrameRefs(PathJoin(dataDir, e.name), Sort(e.frameNames));
        GroupsCoverAllFrames(fs);
        SortSorted(e.frameNames);
      }
      TotalSizeConcat(IndexedPaths(dataDir, p), added);
    }
  }

  lemma IndexedStep(dataDir: string, listing: seq<ListingEntry>, i: nat)
    requires i < |listing|
    ensures IndexedPaths(dataDir, listing[..i + 1]) == IndexedPaths(dataDir, listing[..i])
      + (if listing[i].LabelDir? then DirGroups(dataDir, listing[i]) else [])
    ensures IndexedLabels(dataDir, listing[..i + 1]) == IndexedLabels(dataDir, listing[..i])
      + (if listing[i].LabelDir? then Repeat(Vocabulary.LabelOf(listing[i].name), |DirGroups(dataDir, listing[i])|) else [])
  {
    assert listing[..i + 1][..i] == listing[..i];
  }

  /** The emitting loop of one label directory: each group is appended with its directory's class id. */
  method AppendGroups(videoPaths: seq<seq<string>>, videoLabels: seq<int>, groups: seq<seq<string>>, classId: int)
    returns (paths: seq<seq<string>>, labels: seq<int>)
    ensures paths == videoPaths + groups
    ensures labels == videoLabels + Repeat(classId, |groups|)
  {
    paths, labels := videoPaths, videoLabels;
    var j := 0;
    while j < |groups|
      invariant 0 <= j <= |groups|
      invariant paths == videoPaths + groups[..j]
      invariant labels == videoLabels + Repeat(classId, j)
    {
      assert groups[..j + 1] == groups[..j] + [groups[j]];
      paths := paths + [groups[j]];
      labels := labels + [classId];
      j := j + 1;
    }
    assert groups[..j] == groups;
  }

  /** extract_video_paths_and_labels(data_dir) */
  method ExtractVideoPathsAndLabels(dataDir: string, listing: seq<ListingEntry>)
    returns (videoPaths: seq<seq<string>>, videoLabels: seq<int>)
    ensures videoPaths == IndexedPaths(dataDir, listing)
    ensures videoLabels == IndexedLabels(dataDir, listing)
  {
    videoPaths, videoLabels := [], [];
    var i := 0;
    while i < |listing|
      invariant 0 <= i <= |listing|
      invariant videoPaths == IndexedPaths(dataDir, listing[..i])
      invariant videoLabels == IndexedLabels(dataDir, listing[..i])
    {
      var entry := listing[i];
      IndexedStep(dataDir, listing, i);
      if entry.LabelDir? {
        var labelDir := PathJoin(dataDir, entry.name);
        var groups := GroupByVideo(labelDir, Sort(entry.frameNames));
        assert groups == DirGroups(dataDir, entry);
        videoPaths, videoLabels := AppendGroups(videoPaths, videoLabels, groups, Vocabulary.LabelOf(entry.name));
      }
      i := i + 1;
    }
    assert listing[..i] == listing;
  }
}
