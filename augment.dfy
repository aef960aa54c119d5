/**
 The two stochastic views of an item sequence used by the free contrastive branch.
 Each item gets one uniform draw; view 1 keeps the items whose draw is above
 `mask_ratio`, view 2 those whose draw is below it. The kept rows are then packed
 into a rectangular batch, which fails when rows kept different numbers of items.
 The draws are an input here: row b, position j holds the draw made for item j of
 row b.
 */
module Augment {
  import opened Errors
  import opened Tensor

  datatype View =
    | KeepAbove  // `reconstruct_train_data1`: keep when draw > mask_ratio
    | KeepBelow  // `reconstruct_train_data2`: keep when draw < mask_ratio

  predicate Keeps(draw: real, maskRatio: real, view: View): (k: bool)
    ensures k ==> draw != maskRatio
  {
    match view
    case KeepAbove => draw > maskRatio
    case KeepBelow => draw < maskRatio
  }

  /** Which items of a row a view keeps, given the row's draws. */
  function KeepMask(draws: seq<real>, maskRatio: real, view: View): (k: seq<bool>)
    ensures |k| == |draws|
  {
    seq(|draws|, i requires 0 <= i < |draws| => Keeps(draws[i], maskRatio, view))
  }

  /** One augmented row: the kept items, in their original order. */
  function AugmentRow(row: seq<int>, draws: seq<real>, maskRatio: real, view: View): (kept: seq<int>)
    requires |row| == |draws|
    ensures |kept| == Count(KeepMask(draws, maskRatio, view))
  {
    SelectLength(row, KeepMask(draws, maskRatio, view));
    Select(row, KeepMask(draws, maskRatio, view))
  }

  /** Extending a row by one item extends its augmented row by that item exactly when the view keeps it. */
  lemma AugmentRowStep(row: seq<int>, draws: seq<real>, maskRatio: real, view: View, j: nat)
    requires |row| == |draws| && j < |row|
    ensures AugmentRow(row[..j + 1], draws[..j + 1], maskRatio, view)
            == AugmentRow(row[..j], draws[..j], maskRatio, view)
               + (if Keeps(draws[j], maskRatio, view) then [row[j]] else [])
  {
    assert row[..j + 1] == row[..j] + [row[j]];
    assert KeepMask(draws[..j + 1], maskRatio, view)
           == KeepMask(draws[..j], maskRatio, view) + [Keeps(draws[j], maskRatio, view)];
    SelectAppend(row[..j], [row[j]], KeepMask(draws[..j], maskRatio, view), [Keeps(draws[j], maskRatio, view)]);
  }

  /** There is one draw per item. */
  predicate DrawsFit(itemSeq: seq<seq<int>>, draws: seq<seq<real>>) {
    |draws| == |itemSeq| && forall b :: 0 <= b < |itemSeq| ==> |draws[b]| == |itemSeq[b]|
  }

  function AugmentRows(itemSeq: seq<seq<int>>, draws: seq<seq<real>>, maskRatio: real, view: View): (rows: seq<seq<int>>)
    requires DrawsFit(itemSeq, draws)
    ensures |rows| == |itemSeq|
  {
    seq(|itemSeq|, b requires 0 <= b < |itemSeq| => AugmentRow(itemSeq[b], draws[b], maskRatio, view))
  }

  /** All rows have the length of the first. */
  predicate Uniform<T>(rows: seq<seq<T>>) {
    forall b :: 0 <= b < |rows| ==> |rows[b]| == |rows[0]|
  }

  /**
   `torch.tensor(rows).view(len(rows), -1)`: a ragged list cannot become a tensor, and
   an empty batch cannot be viewed with an inferred width.
   */
  function Pack(rows: seq<seq<int>>): (r: Result<seq<seq<int>>>)
    ensures r.Ok? <==> |rows| > 0 && Uniform(rows)
    ensures !Uniform(rows) ==> r == Err(RaggedBatch)
    ensures r.Ok? ==> r.value == rows && IsMatrix(r.value, |rows|, |rows[0]|)
  {
    if !Uniform(rows) then Err(RaggedBatch)
    else
      UniformReshape(rows);
      Reshape(Flatten(rows), |rows|)
  }

  lemma UniformReshape(rows: seq<seq<int>>)
    requires Uniform(rows)
    ensures |rows| > 0 ==> Reshape(Flatten(rows), |rows|) == Ok(rows)
  {
    if |rows| > 0 {
      ReshapeFlatten(rows, |rows[0]|);
    }
  }

  /**
   An augmented row lists, in increasing order, exactly the positions whose draw the
   view keeps, and holds the row's items at those positions.
   */
  lemma AugmentRowExact(row: seq<int>, draws: seq<real>, maskRatio: real, view: View)
    requires |row| == |draws|
    ensures var kept := AugmentRow(row, draws, maskRatio, view);
            var idx := Indices(KeepMask(draws, maskRatio, view));
      && |kept| == |idx|
      && (forall k :: 0 <= k < |idx| ==> kept[k] == row[idx[k]])
      && (forall k, l :: 0 <= k < l < |idx| ==> idx[k] < idx[l])
      && (forall i :: 0 <= i < |row| ==> (i in idx <==> Keeps(draws[i], maskRatio, view)))
  {
    var keep := KeepMask(draws, maskRatio, view);
    SelectAt(row, keep);
    IndicesExact(keep);
  }

  /** An augmented row is a subsequence of its row, so it is no longer. */
  lemma AugmentRowSubsequence(row: seq<int>, draws: seq<real>, maskRatio: real, view: View)
    requires |row| == |draws|
    ensures IsSubsequence(AugmentRow(row, draws, maskRatio, view), row)
    ensures |AugmentRow(row, draws, maskRatio, view)| <= |row|
  {
    SelectIsSubsequence(row, KeepMask(draws, maskRatio, view));
  }

  /** An item whose draw equals `mask_ratio` is kept by neither view. */
  lemma TieKeptByNeither(row: seq<int>, draws: seq<real>, maskRatio: real, i: nat)
    requires |row| == |draws| && i < |row| && draws[i] == maskRatio
    ensures i !in Indices(KeepMask(draws, maskRatio, KeepAbove))
    ensures i !in Indices(KeepMask(draws, maskRatio, KeepBelow))
  {
    IndicesExact(KeepMask(draws, maskRatio, KeepAbove));
    IndicesExact(KeepMask(draws, maskRatio, KeepBelow));
  }

  /**
   Packing the augmented rows succeeds exactly when the batch is non-empty and every
   row kept the same number of items; the packed batch is then those rows.
   */
  lemma PackAugmented(itemSeq: seq<seq<int>>, draws: seq<seq<real>>, maskRatio: real, view: View)
    requires DrawsFit(itemSeq, draws)
    ensures var rows := AugmentRows(itemSeq, draws, maskRatio, view);
      && (Pack(rows).Ok? <==>
            |itemSeq| > 0 && forall b :: 0 <= b < |itemSeq| ==>
              Count(KeepMask(draws[b], maskRatio, view)) == Count(KeepMask(draws[0], maskRatio, view)))
      && (Pack(rows).Ok? ==> forall b :: 0 <= b < |itemSeq| ==>
            Pack(rows).value[b] == AugmentRow(itemSeq[b], draws[b], maskRatio, view))
  {
    var rows := AugmentRows(itemSeq, draws, maskRatio, view);
    forall b | 0 <= b < |itemSeq|
      ensures |rows[b]| == Count(KeepMask(draws[b], maskRatio, view))
    {
      SelectLength(itemSeq[b], KeepMask(draws[b], maskRatio, view));
    }
  }
}
