/**
 The CCLSRec recommender object, restricted to its discrete state: the configured
 training batch size, loss type and mask ratio, and the correlated-sample mask it
 caches for the training batch size when it is constructed.
 */
module CclsRec {
  import opened Errors
  import opened Tensor
  import opened Contrastive
  import opened Augment

  datatype LossType = BPR | CE

  /** The configuration entries the modelled part reads. */
  datatype Config = Config(lossType: string, trainBatchSize: nat, maskRatio: real)

  /** The constructor's `loss_type` check: 'BPR' and 'CE' are accepted, anything else raises. */
  function ParseLossType(name: string): (r: Result<LossType>)
    ensures r.Ok? <==> name == "BPR" || name == "CE"
    ensures r.Ok? ==> (r.value == BPR <==> name == "BPR")
    ensures r.Err? ==> r.error == UnknownLossType
  {
    if name == "BPR" then Ok(BPR)
    else if name == "CE" then Ok(CE)
    else Err(UnknownLossType)
  }

  class CCLSRec {
    const batchSize: nat
    const lossType: LossType
    const maskRatio: real
    /** The mask cached for `batchSize` (`mask_default`). */
    const maskDefault: array2<bool>

    /** The cache holds the correlated-sample mask of the training batch size. */
    ghost predicate Valid()
      reads maskDefault
    {
      && maskDefault.Length0 == 2 * batchSize
      && maskDefault.Length1 == 2 * batchSize
      && forall r, c :: 0 <= r < 2 * batchSize && 0 <= c < 2 * batchSize ==>
           maskDefault[r, c] == CorrelatedMask(batchSize)[r][c]
    }

    constructor (lossType: LossType, trainBatchSize: nat, maskRatio: real)
      ensures Valid() && fresh(maskDefault)
      ensures this.lossType == lossType && batchSize == trainBatchSize && this.maskRatio == maskRatio
    {
      this.lossType := lossType;
      batchSize := trainBatchSize;
      this.maskRatio := maskRatio;
      var mask := MaskCorrelatedSamples(trainBatchSize);
      maskDefault := mask;
    }

    /** The mask `info_nce` uses for a batch of size b: the cached one for the training batch size, a fresh one otherwise. */
    function MaskFor(b: nat): (mask: seq<seq<bool>>)
      reads maskDefault
      requires Valid()
      ensures mask == CorrelatedMask(b)
    {
      if b != batchSize then CorrelatedMask(b)
      else
        var n := 2 * b;
        var cached := seq(n, r requires 0 <= r < n reads maskDefault =>
          seq(n, c requires 0 <= c < n reads maskDefault => maskDefault[r, c]));
        assert forall r :: 0 <= r < n ==> cached[r] == CorrelatedMask(b)[r];
        cached
    }

    /**
     `info_nce` on a 2B x 2B similarity matrix: whichever way the mask is obtained, the
     result is the logit assembly with the correlated-sample mask of B, which succeeds
     exactly for a non-empty batch.
     */
    function InfoNce<T>(sim: seq<seq<T>>, b: nat): (r: Result<(seq<seq<T>>, seq<int>)>)
      reads maskDefault
      requires Valid() && IsMatrix(sim, 2 * b, 2 * b)
      ensures r == AssembleLogits(sim, b, CorrelatedMask(b))
      ensures r.Ok? <==> b >= 1
    {
      InfoNceLayout(sim, b);
      AssembleLogits(sim, b, MaskFor(b))
    }

    /** `reconstruct_train_data1`: per row, keep the items whose draw is above `mask_ratio`, then pack the rows. */
    method ReconstructTrainData1(itemSeq: seq<seq<int>>, draws: seq<seq<real>>) returns (r: Result<seq<seq<int>>>)
      requires DrawsFit(itemSeq, draws)
      ensures r == Pack(AugmentRows(itemSeq, draws, maskRatio, KeepAbove))
    {
      var maskedItemSequence: seq<seq<int>> := [];
      var b := 0;
      while b < |itemSeq|
        invariant 0 <= b <= |itemSeq|
        invariant |maskedItemSequence| == b
        invariant forall k :: 0 <= k < b ==>
                    maskedItemSequence[k] == AugmentRow(itemSeq[k], draws[k], maskRatio, KeepAbove)
      {
        var instance := itemSeq[b];
        var maskedSequence: seq<int> := [];
        var j := 0;
        while j < |instance|
          invariant 0 <= j <= |instance|
          invariant maskedSequence == AugmentRow(instance[..j], draws[b][..j], maskRatio, KeepAbove)
        {
          var prob := draws[b][j];
          if prob > maskRatio {
            maskedSequence := maskedSequence + [instance[j]];
          }
          AugmentRowStep(instance, draws[b], maskRatio, KeepAbove, j);
          j := j + 1;
        }
        assert instance[..j] == instance && draws[b][..j] == draws[b];
        maskedItemSequence := maskedItemSequence + [maskedSequence];
        b := b + 1;
      }
      assert maskedItemSequence == AugmentRows(itemSeq, draws, maskRatio, KeepAbove);
      r := Pack(maskedItemSequence);
    }

    /** `reconstruct_train_data2`: per row, keep the items whose draw is below `mask_ratio`, then pack the rows. */
    method ReconstructTrainData2(itemSeq: seq<seq<int>>, draws: seq<seq<real>>) returns (r: Result<seq<seq<int>>>)
      requires DrawsFit(itemSeq, draws)
      ensures r == Pack(AugmentRows(itemSeq, draws, maskRatio, KeepBelow))
    {
      var maskedItemSequence: seq<seq<int>> := [];
      var b := 0;
      while b < |itemSeq|
        invariant 0 <= b <= |itemSeq|
        invariant |maskedItemSequence| == b
        invariant forall k :: 0 <= k < b ==>
                    maskedItemSequence[k] == AugmentRow(itemSeq[k], draws[k], maskRatio, KeepBelow)
      {
        var instance := itemSeq[b];
        var maskedSequence: seq<int> := [];
        var j := 0;
        while j < |instance|
          invariant 0 <= j <= |instance|
          invariant maskedSequence == AugmentRow(instance[..j], draws[b][..j], maskRatio, KeepBelow)
        {
          var prob := draws[b][j];
          if prob < maskRatio {
            maskedSequence := maskedSequence + [instance[j]];
          }
          AugmentRowStep(instance, draws[b], maskRatio, KeepBelow, j);
          j := j + 1;
        }
        assert instance[..j] == instance && draws[b][..j] == draws[b];
        maskedItemSequence := maskedItemSequence + [maskedSequence];
        b := b + 1;
      }
      assert maskedItemSequence == AugmentRows(itemSeq, draws, maskRatio, KeepBelow);
      r := Pack(maskedItemSequence);
    }
  }

  /**
   Builds the model from its configuration: an unknown `loss_type` raises before the
   mask is cached.
   */
  method Create(config: Config) returns (r: Result<CCLSRec>)
    ensures r.Ok? <==> config.lossType == "BPR" || config.lossType == "CE"
    ensures r.Err? ==> r.error == UnknownLossType
    ensures r.Ok? ==> && fresh(r.value) && fresh(r.value.maskDefault) && r.value.Valid()
                      && Ok(r.value.lossType) == ParseLossType(config.lossType)
                      && r.value.batchSize == config.trainBatchSize
                      && r.value.maskRatio == config.maskRatio
  {
    match ParseLossType(config.lossType)
    case Err(e) =>
      r := Err(e);
    case Ok(lossType) =>
      var model := new CCLSRec(lossType, config.trainBatchSize, config.maskRatio);
      r := Ok(model);
  }
}
