/**
 The extended attention mask of the masked sequence encoder: an additive bias per
 (example, query position i, key position j), 0 where j may be attended to from i and
 -10000 elsewhere. A key may be attended to when it is not after the query and holds
 a real item (ids above 0; 0 is padding).
 */
module Attention {
  import opened Tensor

  /** The additive bias of a position that may not be attended to. */
  const MaskedBias: int := -10000

  /** `(item_seq > 0).long()`: 1 at real items, 0 at padding. */
  function NonPadIndicator(itemSeq: seq<seq<int>>, maxLen: nat): (a: seq<seq<int>>)
    requires IsMatrix(itemSeq, |itemSeq|, maxLen)
    ensures IsMatrix(a, |itemSeq|, maxLen)
    ensures forall b, j :: 0 <= b < |itemSeq| && 0 <= j < maxLen ==> (a[b][j] == 1 <==> itemSeq[b][j] > 0) && 0 <= a[b][j] <= 1
  {
    seq(|itemSeq|, b requires 0 <= b < |itemSeq| =>
      seq(maxLen, j requires 0 <= j < maxLen => if itemSeq[b][j] > 0 then 1 else 0))
  }

  /** `torch.triu(torch.ones(n, n), diagonal=1)`: ones strictly above the main diagonal. */
  function StrictUpperOnes(n: nat): (u: seq<seq<int>>)
    ensures IsMatrix(u, n, n)
  {
    seq(n, i requires 0 <= i < n => seq(n, j requires 0 <= j < n => if j - i >= 1 then 1 else 0))
  }

  /** `(triu(ones, 1) == 0).long()`: ones on and below the main diagonal. */
  function SubsequentMask(n: nat): (s: seq<seq<int>>)
    ensures IsMatrix(s, n, n)
    ensures forall i, j :: 0 <= i < n && 0 <= j < n ==> s[i][j] == (if j <= i then 1 else 0)
  {
    var upper := StrictUpperOnes(n);
    seq(n, i requires 0 <= i < n => seq(n, j requires 0 <= j < n => if upper[i][j] == 0 then 1 else 0))
  }

  /**
   `extended_attention_mask * subsequent_mask`: the pad indicator of key j broadcast
   over the query positions, times the causal pattern. Entry (b, i, j) is 1 when key j
   may be attended to from query i and 0 otherwise.
   */
  function Extended(itemSeq: seq<seq<int>>, maxLen: nat): (e: seq<seq<seq<int>>>)
    requires IsMatrix(itemSeq, |itemSeq|, maxLen)
    ensures |e| == |itemSeq|
    ensures forall b :: 0 <= b < |e| ==> |e[b]| == maxLen
    ensures forall b, i :: 0 <= b < |e| && 0 <= i < |e[b]| ==> |e[b][i]| == maxLen
    ensures forall b, i, j :: 0 <= b < |e| && 0 <= i < maxLen && 0 <= j < maxLen ==>
              e[b][i][j] == (if j <= i && itemSeq[b][j] > 0 then 1 else 0)
  {
    var attention := NonPadIndicator(itemSeq, maxLen);
    var subsequent := SubsequentMask(maxLen);
    seq(|itemSeq|, b requires 0 <= b < |itemSeq| =>
      seq(maxLen, i requires 0 <= i < maxLen =>
        seq(maxLen, j requires 0 <= j < maxLen => attention[b][j] * subsequent[i][j])))
  }

  /**
   `get_attention_mask`: the broadcast product turned into the bias (1 - x) * -10000.
   The singleton head axis of the returned [batch, 1, len, len] tensor is left out.
   */
  function GetAttentionMask(itemSeq: seq<seq<int>>, maxLen: nat): (m: seq<seq<seq<int>>>)
    requires IsMatrix(itemSeq, |itemSeq|, maxLen)
    ensures |m| == |itemSeq|
    ensures forall b :: 0 <= b < |m| ==> |m[b]| == maxLen
    ensures forall b, i :: 0 <= b < |m| && 0 <= i < |m[b]| ==> |m[b][i]| == maxLen
    ensures forall b, i, j :: 0 <= b < |m| && 0 <= i < maxLen && 0 <= j < maxLen ==>
              (m[b][i][j] == 0 <==> j <= i && itemSeq[b][j] > 0)
    ensures forall b, i, j :: 0 <= b < |m| && 0 <= i < maxLen && 0 <= j < maxLen ==>
              (m[b][i][j] == 0 || m[b][i][j] == MaskedBias)
    ensures forall b, i, j :: 0 <= b < |m| && 0 <= i < maxLen && i < j < maxLen ==> m[b][i][j] == MaskedBias
    ensures forall b, i, j :: 0 <= b < |m| && 0 <= i < maxLen && 0 <= j < maxLen && itemSeq[b][j] <= 0 ==>
              m[b][i][j] == MaskedBias
  {
    var extended := Extended(itemSeq, maxLen);
    seq(|itemSeq|, b requires 0 <= b < |itemSeq| =>
      seq(maxLen, i requires 0 <= i < maxLen =>
        seq(maxLen, j requires 0 <= j < maxLen => (1 - extended[b][i][j]) * MaskedBias)))
  }
}
