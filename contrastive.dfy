/**
 The pairing bookkeeping of the contrastive branch. Two batches of B representations
 are stacked into 2B rows; row r is paired with row (r + B) mod 2B. Every row's
 similarity to its partner is its positive score, and the 2B - 2 others (all but
 itself and its partner) are its negatives. The similarity and distance values are
 abstract: only which entries are selected, and in what layout, is modelled.
 */
module Contrastive {
  import opened Errors
  import opened Tensor

  /** The row that row r of the 2B stacked representations is paired with. */
  function Partner(batchSize: nat, r: nat): (p: nat)
    requires r < 2 * batchSize
    ensures p < 2 * batchSize && p != r
    ensures p == (r + batchSize) % (2 * batchSize)
  {
    if r < batchSize then
      DivisionUnique(r + batchSize, 2 * batchSize, 0, r + batchSize);
      r + batchSize
    else
      DivisionUnique(r + batchSize, 2 * batchSize, 1, r - batchSize);
      r - batchSize
  }

  /** The value of `mask_correlated_samples(batchSize)`: true except on the diagonal and at each row's partner. */
  function CorrelatedMask(batchSize: nat): (m: seq<seq<bool>>)
    ensures IsMatrix(m, 2 * batchSize, 2 * batchSize)
    ensures forall r, c :: 0 <= r < 2 * batchSize && 0 <= c < 2 * batchSize ==>
              (m[r][c] <==> c != r && c != Partner(batchSize, r))
    ensures forall r, c :: 0 <= r < 2 * batchSize && 0 <= c < 2 * batchSize ==> m[r][c] == m[c][r]
  {
    var n := 2 * batchSize;
    var m := seq(n, r requires 0 <= r < n => seq(n, c requires 0 <= c < n => c != r && c != Partner(batchSize, r)));
    assert forall r, c :: 0 <= r < n && 0 <= c < n ==> m[r][c] == (c != r && c != Partner(batchSize, r));
    m
  }

  /**
   Builds the correlated-sample mask in place: all ones, the diagonal cleared, then
   each pair (i, B + i) and (B + i, i) cleared in turn.
   */
  method MaskCorrelatedSamples(batchSize: nat) returns (mask: array2<bool>)
    ensures fresh(mask)
    ensures mask.Length0 == 2 * batchSize && mask.Length1 == 2 * batchSize
    ensures forall r, c :: 0 <= r < 2 * batchSize && 0 <= c < 2 * batchSize ==>
              mask[r, c] == (c != r && c != Partner(batchSize, r))
  {
    var n := 2 * batchSize;
    mask := new bool[n, n]((_, _) => true);
    forall d | 0 <= d < n {
      mask[d, d] := false;
    }
    var i := 0;
    while i < batchSize
      invariant 0 <= i <= batchSize
      invariant forall r, c :: 0 <= r < n && 0 <= c < n ==>
                  mask[r, c] == (c != r && !(r < i && c == r + batchSize)
                                        && !(batchSize <= r < batchSize + i && c == r - batchSize))
    {
      mask[i, batchSize + i] := false;
      mask[batchSize + i, i] := false;
      i := i + 1;
    }
  }

  /** Every row of the correlated-sample mask keeps exactly 2B - 2 entries. */
  lemma MaskRowCount(batchSize: nat, r: nat)
    requires r < 2 * batchSize
    ensures Count(CorrelatedMask(batchSize)[r]) == 2 * batchSize - 2
  {
    var row := CorrelatedMask(batchSize)[r];
    var p := Partner(batchSize, r);
    SelectSkipTwo(row, row, if r < p then r else p, if r < p then p else r);
    SelectLength(row, row);
  }

  /** `cat(diag(sim, B), diag(sim, -B))`: each row's similarity to its partner. */
  function PositiveSamples<T>(sim: seq<seq<T>>, batchSize: nat): (p: seq<T>)
    requires IsMatrix(sim, 2 * batchSize, 2 * batchSize)
    ensures |p| == 2 * batchSize
    ensures forall r :: 0 <= r < 2 * batchSize ==> p[r] == sim[r][Partner(batchSize, r)]
  {
    Diagonal(sim, 2 * batchSize, batchSize) + Diagonal(sim, 2 * batchSize, -(batchSize as int))
  }

  /**
   The logit assembly of `info_nce` for a given mask: the positives as a first column,
   the masked entries of `sim` reshaped to 2B rows after it, and 2B zero labels.
   */
  function AssembleLogits<T>(sim: seq<seq<T>>, batchSize: nat, mask: seq<seq<bool>>): (out: Result<(seq<seq<T>>, seq<int>)>)
    requires IsMatrix(sim, 2 * batchSize, 2 * batchSize) && IsMatrix(mask, 2 * batchSize, 2 * batchSize)
    ensures out.Err? ==> out.error == ReshapeFailed
    ensures out.Ok? ==> && |out.value.0| == 2 * batchSize && |out.value.1| == 2 * batchSize
                        && forall r :: 0 <= r < 2 * batchSize ==>
                             |out.value.0[r]| >= 1 && out.value.0[r][0] == sim[r][Partner(batchSize, r)] && out.value.1[r] == 0
  {
    var n := 2 * batchSize;
    var positives := PositiveSamples(sim, batchSize);
    match Reshape(MaskedSelect(sim, mask), n)
    case Err(e) => Err(e)
    case Ok(negatives) =>
      var logits := seq(n, r requires 0 <= r < n => [positives[r]] + negatives[r]);
      var labels := seq(n, _ => 0);
      Ok((logits, labels))
  }

  /**
   With the correlated-sample mask, the logits are 2B x (2B - 1): column 0 is the row's
   similarity to its partner and the rest are the row's other entries, without itself
   and its partner, in column order; all labels are 0. An empty batch cannot be
   reshaped and fails.
   */
  lemma InfoNceLayout<T>(sim: seq<seq<T>>, batchSize: nat)
    requires IsMatrix(sim, 2 * batchSize, 2 * batchSize)
    ensures var out := AssembleLogits(sim, batchSize, CorrelatedMask(batchSize));
      && (out.Ok? <==> batchSize >= 1)
      && (out.Ok? ==>
            && IsMatrix(out.value.0, 2 * batchSize, 2 * batchSize - 1)
            && |out.value.1| == 2 * batchSize && (forall k :: 0 <= k < 2 * batchSize ==> out.value.1[k] == 0)
            && forall r :: 0 <= r < 2 * batchSize ==>
                 && out.value.0[r][0] == sim[r][Partner(batchSize, r)]
                 && out.value.0[r][1..] == DropTwo(sim[r], r, Partner(batchSize, r)))
  {
    var n := 2 * batchSize;
    var mask := CorrelatedMask(batchSize);
    var rows := seq(n, r requires 0 <= r < n => Select(sim[r], mask[r]));
    CorrelatedRows(sim, batchSize);
    assert MaskedSelect(sim, mask) == Flatten(rows);
    if batchSize >= 1 {
      ReshapeFlatten(rows, n - 2);
      AssembledNegatives(sim, batchSize, mask, rows);
    }
  }

  /** When `sim[mask]` reshapes to `negatives`, the columns after the first hold those rows. */
  lemma AssembledNegatives<T>(sim: seq<seq<T>>, batchSize: nat, mask: seq<seq<bool>>, negatives: seq<seq<T>>)
    requires IsMatrix(sim, 2 * batchSize, 2 * batchSize) && IsMatrix(mask, 2 * batchSize, 2 * batchSize)
    requires Reshape(MaskedSelect(sim, mask), 2 * batchSize) == Ok(negatives)
    ensures AssembleLogits(sim, batchSize, mask).Ok?
    ensures forall r :: 0 <= r < 2 * batchSize ==> AssembleLogits(sim, batchSize, mask).value.0[r][1..] == negatives[r]
  {
    var logits := AssembleLogits(sim, batchSize, mask).value.0;
    forall r | 0 <= r < 2 * batchSize ensures logits[r][1..] == negatives[r] {
      assert logits[r] == [PositiveSamples(sim, batchSize)[r]] + negatives[r];
    }
  }

  /** Row r of `sim[mask]`, for the correlated-sample mask, is row r of `sim` without columns r and partner(r). */
  lemma CorrelatedRows<T>(sim: seq<seq<T>>, batchSize: nat)
    requires IsMatrix(sim, 2 * batchSize, 2 * batchSize)
    ensures forall r :: 0 <= r < 2 * batchSize ==>
              && Select(sim[r], CorrelatedMask(batchSize)[r]) == DropTwo(sim[r], r, Partner(batchSize, r))
              && |Select(sim[r], CorrelatedMask(batchSize)[r])| == 2 * batchSize - 2
  {
    var mask := CorrelatedMask(batchSize);
    forall r | 0 <= r < 2 * batchSize
      ensures Select(sim[r], mask[r]) == DropTwo(sim[r], r, Partner(batchSize, r))
      ensures |Select(sim[r], mask[r])| == 2 * batchSize - 2
    {
      var p := Partner(batchSize, r);
      SelectSkipTwo(sim[r], mask[r], if r < p then r else p, if r < p then p else r);
    }
  }

  /** Entry (r, (r + B) mod 2B) of each of the 2B rows, read straight off the pairing convention. */
  function PartnerEntries<T>(m: seq<seq<T>>, batchSize: nat): (p: seq<T>)
    requires IsMatrix(m, 2 * batchSize, 2 * batchSize)
    ensures |p| == 2 * batchSize
    ensures forall r :: 0 <= r < 2 * batchSize ==> p[r] == m[r][(r + batchSize) % (2 * batchSize)]
  {
    seq(2 * batchSize, r requires 0 <= r < 2 * batchSize => m[r][Partner(batchSize, r)])
  }

  /** The two diagonals `info_nce` and `decompose` concatenate are exactly the partner entries. */
  lemma PositivesArePartnerEntries<T>(m: seq<seq<T>>, batchSize: nat)
    requires IsMatrix(m, 2 * batchSize, 2 * batchSize)
    ensures PositiveSamples(m, batchSize) == PartnerEntries(m, batchSize)
  {
    var p, q := PositiveSamples(m, batchSize), PartnerEntries(m, batchSize);
    assert forall r :: 0 <= r < 2 * batchSize ==> p[r] == m[r][Partner(batchSize, r)] == q[r];
  }

  /** `ones(B, B).fill_diagonal_(0)`: every entry except the diagonal. */
  function OffDiagonalMask(batchSize: nat): (m: seq<seq<bool>>)
    ensures IsMatrix(m, batchSize, batchSize)
  {
    seq(batchSize, r requires 0 <= r < batchSize => seq(batchSize, c requires 0 <= c < batchSize => c != r))
  }

  function Sum(s: seq<real>): real {
    if s == [] then 0.0 else s[0] + Sum(s[1..])
  }

  /**
   The index selection of `decompose`. `dist` holds the pairwise distances of the 2B
   stacked representations, `refDist` those of the B reference representations. The
   result is the alignment (the sum of the partner-pair distances) and the off-diagonal
   reference distances reshaped to B rows, from which uniformity is computed.
   */
  function Decompose(dist: seq<seq<real>>, refDist: seq<seq<real>>, batchSize: nat): (out: Result<(real, seq<seq<real>>)>)
    requires IsMatrix(dist, 2 * batchSize, 2 * batchSize) && IsMatrix(refDist, batchSize, batchSize)
    ensures out.Err? ==> out.error == ReshapeFailed
    ensures out.Ok? ==> |out.value.1| == batchSize
  {
    var alignment := Sum(PositiveSamples(dist, batchSize));
    match Reshape(MaskedSelect(refDist, OffDiagonalMask(batchSize)), batchSize)
    case Err(e) => Err(e)
    case Ok(negatives) => Ok((alignment, negatives))
  }

  /**
   `decompose` pairs rows exactly as `info_nce` does: alignment sums the 2B entries
   dist[r][(r + B) mod 2B]. Uniformity sees B rows of the B - 1 off-diagonal reference
   distances, in column order. An empty batch fails.
   */
  lemma DecomposeSelection(dist: seq<seq<real>>, refDist: seq<seq<real>>, batchSize: nat)
    requires IsMatrix(dist, 2 * batchSize, 2 * batchSize) && IsMatrix(refDist, batchSize, batchSize)
    ensures var out := Decompose(dist, refDist, batchSize);
      && (out.Ok? <==> batchSize >= 1)
      && (out.Ok? ==>
            && out.value.0 == Sum(PartnerEntries(dist, batchSize))
            && IsMatrix(out.value.1, batchSize, batchSize - 1)
            && forall r :: 0 <= r < batchSize ==> out.value.1[r] == refDist[r][..r] + refDist[r][r + 1..])
  {
    PositivesArePartnerEntries(dist, batchSize);
    OffDiagonalReshape(refDist, batchSize);
  }

  /** `ref_dist[mask].view(B, -1)` with the off-diagonal mask: B rows, row r being row r of `ref_dist` without column r. */
  lemma OffDiagonalReshape(refDist: seq<seq<real>>, batchSize: nat)
    requires IsMatrix(refDist, batchSize, batchSize)
    ensures var out := Reshape(MaskedSelect(refDist, OffDiagonalMask(batchSize)), batchSize);
      && (out.Ok? <==> batchSize >= 1)
      && (out.Ok? ==> && IsMatrix(out.value, batchSize, batchSize - 1)
                      && forall r :: 0 <= r < batchSize ==> out.value[r] == refDist[r][..r] + refDist[r][r + 1..])
  {
    var mask := OffDiagonalMask(batchSize);
    var rows := seq(batchSize, r requires 0 <= r < batchSize => Select(refDist[r], mask[r]));
    forall r | 0 <= r < batchSize
      ensures rows[r] == refDist[r][..r] + refDist[r][r + 1..]
    {
      SelectSkipOne(refDist[r], mask[r], r);
    }
    assert MaskedSelect(refDist, mask) == Flatten(rows);
    if batchSize >= 1 {
      ReshapeFlatten(rows, batchSize - 1);
    }
  }

  lemma {:induction false} SumNonnegative(s: seq<real>)
    requires forall k :: 0 <= k < |s| ==> s[k] >= 0.0
    ensures Sum(s) >= 0.0
  {
    if s != [] {
      SumNonnegative(s[1..]);
    }
  }

  /** Distances are non-negative, so the alignment is too. */
  lemma AlignmentNonnegative(dist: seq<seq<real>>, refDist: seq<seq<real>>, batchSize: nat)
    requires IsMatrix(dist, 2 * batchSize, 2 * batchSize) && IsMatrix(refDist, batchSize, batchSize)
    requires forall r, c :: 0 <= r < |dist| && 0 <= c < |dist[r]| ==> dist[r][c] >= 0.0
    ensures Decompose(dist, refDist, batchSize).Ok? ==> Decompose(dist, refDist, batchSize).value.0 >= 0.0
  {
    SumNonnegative(PositiveSamples(dist, batchSize));
  }
}
