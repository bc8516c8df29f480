/**
 * The batch collator, `collate_fn`: unzips a list of (clip, label) pairs and stacks the clips
 * into one tensor and the labels into one vector. A tensor is an opaque value with a shape.
 */
module Batching {
  import opened Wrappers

  /** A stacked batch: the clips in order, the stacked tensor's shape, and the label vector. */
  datatype Batch<X> = Batch(inputs: seq<X>, shape: seq<nat>, labels: seq<int>)

  /**
   * The failures of collate_fn: zip(*batch) of an empty batch leaves nothing to unpack into
   * (inputs, labels), and torch.stack refuses tensors of different shapes.
   */
  datatype CollateError = UnpackError | StackShapeMismatch

  /** zip(*batch) for a list of pairs. */
  function Unzip<X>(batch: seq<(X, int)>): (seq<X>, seq<int>) {
    (seq(|batch|, i requires 0 <= i < |batch| => batch[i].0),
     seq(|batch|, i requires 0 <= i < |batch| => batch[i].1))
  }

  /** zip(inputs, labels) for two lists of the same length. */
  function Zip<X>(inputs: seq<X>, labels: seq<int>): seq<(X, int)>
    requires |inputs| == |labels|
  {
    seq(|inputs|, i requires 0 <= i < |inputs| => (inputs[i], labels[i]))
  }

  /** Unzipping loses nothing: zipping the two halves back gives the batch. */
  lemma ZipUnzip<X>(batch: seq<(X, int)>)
    ensures |Unzip(batch).0| == |Unzip(batch).1| == |batch|
    ensures Zip(Unzip(batch).0, Unzip(batch).1) == batch
  {
  }

  /** And the other way round: unzipping a zipped pair of lists gives the two lists. */
  lemma UnzipZip<X>(inputs: seq<X>, labels: seq<int>)
    requires |inputs| == |labels|
    ensures Unzip(Zip(inputs, labels)) == (inputs, labels)
  {
    var (xs, ys) := Unzip(Zip(inputs, labels));
    assert xs == inputs;
    assert ys == labels;
  }

  /** All tensors of the list have the shape of the first. */
  predicate SameShape<X>(inputs: seq<X>, shapeOf: X -> seq<nat>) {
    forall i :: 0 <= i < |inputs| ==> shapeOf(inputs[i]) == shapeOf(inputs[0])
  }

  /**
   * collate_fn(batch): fails on an empty batch and on tensors of different shapes; otherwise the
   * stacked tensor has the batch length as its new first dimension, and the i-th stacked clip and
   * the i-th label are those of the i-th pair.
   */
  function Collate<X>(batch: seq<(X, int)>, shapeOf: X -> seq<nat>): (r: Result<Batch<X>, CollateError>)
    ensures r == Err(UnpackError) <==> batch == []
    ensures r.Ok? <==> batch != [] && forall i :: 0 <= i < |batch| ==> shapeOf(batch[i].0) == shapeOf(batch[0].0)
    ensures r.Ok? ==> (
      && |r.value.inputs| == |r.value.labels| == |batch|
      && r.value.shape == [|batch|] + shapeOf(batch[0].0)
      && forall i :: 0 <= i < |batch| ==> r.value.inputs[i] == batch[i].0 && r.value.labels[i] == batch[i].1)
  {
    if batch == [] then Err(UnpackError)
    else
      var (inputs, labels) := Unzip(batch);
      assert forall i :: 0 <= i < |batch| ==> inputs[i] == batch[i].0;
      if SameShape(inputs, shapeOf) then Ok(Batch(inputs, [|inputs|] + shapeOf(inputs[0]), labels))
      else Err(StackShapeMismatch)
  }

  /** Collating is invertible: the pairs come back from the batch in the order they went in. */
  lemma CollateRoundTrip<X>(batch: seq<(X, int)>, shapeOf: X -> seq<nat>)
    requires Collate(batch, shapeOf).Ok?
    ensures Zip(Collate(batch, shapeOf).value.inputs, Collate(batch, shapeOf).value.labels) == batch
  {
  }

  /** Four clips of shape (3, 10, 112, 112) stack into a (4, 3, 10, 112, 112) tensor and four labels. */
  lemma CollateFourClips<X>(clips: seq<X>, labels: seq<int>, shapeOf: X -> seq<nat>)
    requires |clips| == 4 && |labels| == 4
    requires forall i :: 0 <= i < 4 ==> shapeOf(clips[i]) == [3, 10, 112, 112]
    ensures Collate(Zip(clips, labels), shapeOf).Ok?
    ensures Collate(Zip(clips, labels), shapeOf).value.shape == [4, 3, 10, 112, 112]
    ensures |Collate(Zip(clips, labels), shapeOf).value.labels| == 4
  {
  }
}
