# CCLSRec: the discrete layer of a contrastive sequential recommender

CCLSRec predicts a user's next item from their interaction history. It encodes the
sequence with a causally masked self-attention stack. Training adds two InfoNCE
contrastive losses and an alignment/uniformity diagnostic.

Underneath the floating-point tensor arithmetic sits exact index and mask
bookkeeping. This project models that layer and proves its contracts:

- **Correlated-sample mask** (`mask_correlated_samples`). For a batch of B, the
  2B x 2B boolean mask is false on the diagonal and at each row's partner
  (r + B) mod 2B, and true everywhere else. It is built in place: fill, clear the
  diagonal, then loop over the pairs. The constructor caches it for the training
  batch size.
- **InfoNCE logit assembly** (`info_nce`). The similarity matrix is an abstract
  2B x 2B matrix. Each row's positive is its partner entry, taken from the ±B
  diagonals. Its negatives are the masked entries in row-major order, reshaped to
  2B rows. Logits are the positive followed by the negatives, and every label is 0.
  For the training batch size the cached mask is used; otherwise the mask is
  recomputed.
- **Attention mask** (`get_attention_mask`). The bias at (b, i, j) is 0 when j <= i
  and item j is not padding, and -10000 otherwise.
- **Augmentation** (`reconstruct_train_data1/2`). Each item has a draw. View 1 keeps
  items whose draw is above `mask_ratio`, and view 2 keeps those below it. The kept
  rows are then packed into one tensor, which raises when the rows have different
  lengths.
- **`decompose` selection**. Alignment sums the partner-pair distances, using the
  same pairing as InfoNCE. Uniformity works on the B - 1 off-diagonal reference
  distances of each row.
- **`loss_type` validation**. Only 'BPR' and 'CE' are accepted.

Files: `tensor.dfy` has the torch operations used, over nested sequences (boolean-mask
selection, flatten, `reshape(n, -1)`, `diag`); `contrastive.dfy` the pairing, the mask,
the logit assembly and `decompose`; `attention.dfy` the attention mask; `augment.dfy`
the augmentation filters and packing; `cclsrec.dfy` the model object and its cache.

Errors the source raises are `Result` values. `reshape(n, -1)` and `view(n, -1)`
follow torch's rule for an inferred dimension: they fail when n is 0 or when n does
not divide the element count. So `info_nce` and
`decompose` fail on an empty batch, and so does packing an empty list of rows.
`torch.tensor` on a ragged list of rows fails with `RaggedBatch`.

`reconstruct_train_data1/2` build the batch tensor straight from the kept rows
(cclsrec.py:275, 294). `torch.tensor` raises on ragged rows, so the batch fails when
rows kept different numbers of items, and the model returns `RaggedBatch` then.

## Model

| member | source | states |
|---|---|---|
| Contrastive.Partner | cclsrec.py:245-248 | the pairing convention: row r pairs with (r + B) mod 2B, a different row in range |
| Contrastive.CorrelatedMask | cclsrec.py:222-229 | the mask is 2B x 2B; an entry is false exactly when c == r or c == partner(r), which Partner shows is (r + B) mod 2B; the mask is symmetric |
| Contrastive.PartnerEntries | cclsrec.py:309-313 | the 2B partner entries of a 2B x 2B matrix: entry r is m[r][(r + B) mod 2B] |
| Contrastive.PositivesArePartnerEntries | cclsrec.py:245-247 | the two concatenated diagonals are exactly the partner entries |
| Contrastive.MaskCorrelatedSamples | cclsrec.py:222-229 | the in-place construction (fill, clear the diagonal, loop over pairs) yields a fresh 2B x 2B array, false exactly on the diagonal and at column partner(r) = (r + B) mod 2B of each row r |
| Contrastive.MaskRowCount | cclsrec.py:222-229 | every row of the mask has exactly 2B - 2 true entries |
| Contrastive.PositiveSamples | cclsrec.py:245-248 | concatenating diag(sim, B) and diag(sim, -B) gives 2B scores; score r is sim[r][partner(r)] |
| Contrastive.AssembleLogits | cclsrec.py:245-256 | for any mask: a failed reshape of `sim[mask]` is ReshapeFailed; on success there are 2B logit rows whose column 0 is sim[r][partner(r)], and 2B zero labels; the layout for the correlated mask is in InfoNceLayout |
| Contrastive.AssembledNegatives | cclsrec.py:253-256 | when `sim[mask]` reshapes to some rows, the logit columns after the first are exactly those rows |
| Contrastive.InfoNceLayout | cclsrec.py:245-256 | with the correlated mask the result is Ok exactly when B >= 1; logits are 2B x (2B - 1); column 0 is sim[r][partner(r)]; the remaining columns are row r without columns r and partner(r), in column order; labels are 2B zeros |
| Contrastive.CorrelatedRows | cclsrec.py:253 | row r of `sim[mask]` under the correlated mask is row r of `sim` without columns r and partner(r), so it has 2B - 2 entries |
| CclsRec.CCLSRec.MaskFor | cclsrec.py:249-252 | the mask used for batch size b equals the correlated mask of b, whether it comes from the constructor's cache (b equal to the training batch size) or is recomputed |
| CclsRec.CCLSRec.InfoNce | cclsrec.py:231-257 | `info_nce` equals the logit assembly with the correlated mask of the given batch size, and succeeds exactly for a non-empty batch |
| CclsRec.CCLSRec.constructor | cclsrec.py:82 | the new object satisfies the cache invariant: `mask_default` is the correlated mask of the training batch size |
| CclsRec.Create | cclsrec.py:75-82 | construction succeeds exactly for loss type 'BPR' or 'CE' and fails with UnknownLossType otherwise; on success the cache invariant holds and the configured values are kept |
| CclsRec.ParseLossType | cclsrec.py:75-80 | 'BPR' and 'CE' are accepted, each as its own loss type; any other name is UnknownLossType |
| Attention.NonPadIndicator | cclsrec.py:102 | `(item_seq > 0).long()`: a batch x len 0/1 matrix that is 1 exactly at real items |
| Attention.StrictUpperOnes | cclsrec.py:107 | `triu(ones(n, n), 1)`: an n x n matrix; see SubsequentMask |
| Attention.SubsequentMask | cclsrec.py:108-109 | `(triu(ones, 1) == 0).long()`: entry (i, j) is 1 exactly when j <= i, and 0 otherwise |
| Attention.Extended | cclsrec.py:102-111 | the pad indicator broadcast against the causal pattern is 1 at (b, i, j) exactly when j <= i and item_seq[b][j] > 0, and 0 otherwise |
| Attention.GetAttentionMask | cclsrec.py:100-114 | shape batch x len x len; entry (b, i, j) is 0 iff j <= i and item_seq[b][j] > 0, and -10000 otherwise; so every entry with j > i and every pad column is -10000 |
| Augment.Keeps | cclsrec.py:271-272 | a view's test, `prob > mask_ratio` for view 1 and `prob < mask_ratio` for view 2 (line 291); a kept draw is never equal to mask_ratio |
| Augment.KeepMask | cclsrec.py:270-272 | one keep flag per draw of a row (likewise lines 289-291 for view 2); which positions it flags is stated by AugmentRowExact |
| Augment.AugmentRow | cclsrec.py:269-273 | the kept items of one row (likewise lines 288-292 for view 2); its length is the number of kept draws; contents and order are stated by AugmentRowExact |
| Augment.AugmentRows | cclsrec.py:267-274 | one augmented row per row of the batch (likewise lines 286-293 for view 2); see AugmentRowExact and PackAugmented |
| Augment.AugmentRowExact | cclsrec.py:268-274 | an augmented row holds the row's items at exactly the positions whose draw the view keeps (view 1: draw > mask_ratio, view 2: draw < mask_ratio), those positions in increasing order |
| Augment.AugmentRowSubsequence | cclsrec.py:268-274 | an augmented row is a subsequence of its row and no longer than it |
| Augment.TieKeptByNeither | cclsrec.py:268-293 | an item whose draw equals mask_ratio is kept by neither view |
| Augment.AugmentRowStep | cclsrec.py:270-273 | one step of the inner loop appends the item exactly when its draw passes the view's comparison |
| Augment.Pack | cclsrec.py:275 | building the batch tensor succeeds exactly when the list is non-empty and all rows have the same length, and then returns the rows unchanged; ragged rows give RaggedBatch |
| Augment.PackAugmented | cclsrec.py:294 | packing the augmented rows succeeds exactly when the batch is non-empty and every row kept the same number of items; each packed row is then that row's augmented row |
| CclsRec.CCLSRec.ReconstructTrainData1 | cclsrec.py:259-276 | the nested loops return the packed view-1 augmentation of the batch (keep when draw > mask_ratio), or its packing error |
| CclsRec.CCLSRec.ReconstructTrainData2 | cclsrec.py:278-295 | the nested loops return the packed view-2 augmentation of the batch (keep when draw < mask_ratio), or its packing error |
| Contrastive.OffDiagonalMask | cclsrec.py:317-318 | a B x B mask; which entries it keeps is stated by OffDiagonalReshape |
| Contrastive.OffDiagonalReshape | cclsrec.py:317-319 | `ref_dist[mask].view(B, -1)` with the off-diagonal mask succeeds exactly when B >= 1 and gives B rows of B - 1 entries, row r being row r without column r |
| Contrastive.Decompose | cclsrec.py:297-322 | a failure is ReshapeFailed; on success the uniformity input has B rows; the full selection is stated by DecomposeSelection |
| Contrastive.DecomposeSelection | cclsrec.py:297-322 | Ok exactly when B >= 1; alignment is the sum of the partner entries dist[r][(r + B) mod 2B] over the 2B rows, the same pairing as `info_nce`; the uniformity input is B rows, row r being the reference distances without column r |
| Contrastive.AlignmentNonnegative | cclsrec.py:307-313 | with non-negative distances the alignment is non-negative |
| Tensor.Select | cclsrec.py:253 | `row[keep]` on one row (also used at line 319): no longer than the row; its length is Count(keep) (SelectLength) and its entries are those at the true positions (SelectAt) |
| Tensor.SelectAt | cclsrec.py:253 | entry k of `row[keep]` is the row's entry at the k-th true position of keep |
| Tensor.MaskedSelect | cclsrec.py:253 | `m[mask]` as rows selected one by one and concatenated in row-major order; the rows for the two masks used are stated by CorrelatedRows and OffDiagonalReshape |
| Tensor.Diagonal | cclsrec.py:245-246 | `torch.diag(m, k)` (also at lines 309-310): for 0 <= k <= n, n - k entries m[i][i + k]; for -n <= k < 0, n + k entries m[i - k][i]; empty otherwise |
| Tensor.Reshape | cclsrec.py:253 | `reshape(n, -1)` succeeds exactly when n > 0 and n divides the element count; it then gives n rows of equal width whose row-major concatenation is the input |

## Left out

- The transformer encoders (`TransformerEncoder`, `TransformerEncoder_free`) are imported from a `layers` module that is not part of this model. The same holds for `gather_indexes` and the `SequentialRecommender` base class.
- Embeddings, LayerNorm, dropout and Gaussian weight initialisation are left out. They are learned float parameters, stochastic regularisation and random library calls.
- `forward`, `forward_1`, `calculate_loss`, `predict` and `full_sort_predict` are left out. They are float numerics: embedding lookups, global L2 norms, matrix products and scaling by `tao`. This includes the cross-entropy, BCE and weighted loss sum.
- In `info_nce`, computing the similarities is left out: the dot product or cosine similarity, `sim` mode and scaling by `temp`. The similarity matrix is an input of arbitrary element type.
- `decompose` only selects. Computing the distances with `cdist` and the `exp(-2 d)` of uniformity are float numerics and are left out.
- Contrastive.DecomposeSelection: the alignment is an exact sum over `real`, so float rounding in torch's `sum` is not modelled.
- `random.random()` is not modelled. The draws are an input, one per item, in the order the loops consume them.
- Device and dtype moves, the fp16 cast of the attention mask and `torch.no_grad` are left out. The mask values 0 and -10000 are exact in float16, float32 and float64, so they are modelled as integers.
- Attention.GetAttentionMask: the singleton head axis of the [batch, 1, len, len] result is dropped. With bfloat16 parameters the source's bias is -9984, because -10000 is not representable there; the model states -10000.
- `mask_token` and `mask_item_length`, set in the constructor, are left out because no modelled operation reads them. The other configuration entries are float or encoder hyperparameters.
- The cached mask is a field of type `array2` that the object does not protect from outside writes. `Valid()` states that it holds the correlated mask, and every member that reads it requires `Valid()`.
