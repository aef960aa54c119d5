/** The exceptions the model's operations can raise, as values. */
module Errors {

  datatype Error =
    | ReshapeFailed    // `reshape(n, -1)` / `view(n, -1)` with n == 0 or n not dividing the size
    | RaggedBatch      // `torch.tensor` applied to a list of rows of different lengths
    | UnknownLossType  // a `loss_type` other than 'BPR' or 'CE'

  datatype Result<T> = Ok(value: T) | Err(error: Error)
}

/**
 The tensor operations the model relies on, over nested sequences: boolean-mask
 selection, row-major flattening, reshaping to a given number of rows with an
 inferred width, and the diagonals of a square matrix.
 */
module Tensor {
  import opened Errors

  /** `m` is a rows x cols tensor. */
  predicate IsMatrix<T>(m: seq<seq<T>>, rows: nat, cols: nat) {
    |m| == rows && forall i :: 0 <= i < |m| ==> |m[i]| == cols
  }

  /** `row[keep]` for a one-dimensional tensor: the entries whose mask entry is true, in order. */
  function Select<T>(row: seq<T>, keep: seq<bool>): (s: seq<T>)
    requires |row| == |keep|
    ensures |s| <= |row|
  {
    if row == [] then []
    else (if keep[0] then [row[0]] else []) + Select(row[1..], keep[1..])
  }

  /** The number of true entries of a boolean mask. */
  function Count(keep: seq<bool>): (n: nat)
    ensures n <= |keep|
  {
    if keep == [] then 0 else (if keep[0] then 1 else 0) + Count(keep[1..])
  }

  /** The positions of the true entries of a boolean mask, in increasing order. */
  function Indices(keep: seq<bool>): (idx: seq<nat>)
    ensures |idx| == Count(keep)
    ensures forall k :: 0 <= k < |idx| ==> idx[k] < |keep|
  {
    if keep == [] then []
    else
      (if keep[0] then [0] else []) + Shift(Indices(keep[1..]))
  }

  /** Every position moved one place to the right. */
  function Shift(s: seq<nat>): (t: seq<nat>)
    ensures |t| == |s| && forall k :: 0 <= k < |s| ==> t[k] == s[k] + 1
  {
    seq(|s|, k requires 0 <= k < |s| => s[k] + 1)
  }

  /** Row-major concatenation of the rows of a tensor (`flatten`). */
  function Flatten<T>(rows: seq<seq<T>>): seq<T> {
    if rows == [] then [] else rows[0] + Flatten(rows[1..])
  }

  /** `m[mask]` for a two-dimensional tensor and a mask of the same shape: the selected entries in row-major order. */
  function MaskedSelect<T>(m: seq<seq<T>>, mask: seq<seq<bool>>): seq<T>
    requires |m| == |mask| && forall r :: 0 <= r < |m| ==> |m[r]| == |mask[r]|
  {
    Flatten(seq(|m|, r requires 0 <= r < |m| => Select(m[r], mask[r])))
  }

  /** Cuts `flat` into `rows` consecutive pieces of `width` entries. */
  function Chunks<T>(flat: seq<T>, width: nat, rows: nat): (c: seq<seq<T>>)
    requires |flat| == rows * width
    ensures IsMatrix(c, rows, width) && Flatten(c) == flat
  {
    if rows == 0 then []
    else [flat[..width]] + Chunks(flat[width..], width, rows - 1)
  }

  /**
   `flat.reshape(rows, -1)` (equally `view`) of a one-dimensional tensor. The width is
   inferred as size / rows; reshaping raises when `rows` is 0 or does not divide the
   size.
   */
  function Reshape<T>(flat: seq<T>, rows: nat): (r: Result<seq<seq<T>>>)
    ensures r.Ok? <==> rows > 0 && |flat| % rows == 0
    ensures r.Err? ==> r.error == ReshapeFailed
    ensures r.Ok? ==> IsMatrix(r.value, rows, |flat| / rows) && Flatten(r.value) == flat
  {
    if rows == 0 || |flat| % rows != 0 then Err(ReshapeFailed)
    else Ok(Chunks(flat, |flat| / rows, rows))
  }

  /** `torch.diag(m, k)` of an n x n matrix: the k-th diagonal, above the main one for k > 0 and below it for k < 0. */
  function Diagonal<T>(m: seq<seq<T>>, n: nat, k: int): (d: seq<T>)
    requires IsMatrix(m, n, n)
    ensures 0 <= k <= n ==> |d| == n - k && forall i :: 0 <= i < n - k ==> d[i] == m[i][i + k]
    ensures k < 0 && 0 <= n + k ==> |d| == n + k && forall i :: 0 <= i < n + k ==> d[i] == m[i - k][i]
    ensures k > n || n + k < 0 ==> d == []
  {
    var len := if k >= 0 then (if k <= n then n - k else 0) else (if -k <= n then n + k else 0);
    seq(len, i requires 0 <= i < len => if k >= 0 then m[i][i + k] else m[i - k][i])
  }

  /** `row` without the entries at positions i and j (i != j), the rest in order. */
  function DropTwo<T>(row: seq<T>, i: nat, j: nat): seq<T>
    requires i < |row| && j < |row| && i != j
  {
    var lo := if i < j then i else j;
    var hi := if i < j then j else i;
    row[..lo] + row[lo + 1..hi] + row[hi + 1..]
  }

  /** `xs` is `ys` with some entries removed, the rest in order. */
  predicate IsSubsequence<T(==)>(xs: seq<T>, ys: seq<T>) {
    if xs == [] then true
    else if ys == [] then false
    else (xs[0] == ys[0] && IsSubsequence(xs[1..], ys[1..])) || IsSubsequence(xs, ys[1..])
  }

  lemma {:induction false} SelectAppend<T>(a: seq<T>, b: seq<T>, ka: seq<bool>, kb: seq<bool>)
    requires |a| == |ka| && |b| == |kb|
    ensures Select(a + b, ka + kb) == Select(a, ka) + Select(b, kb)
  {
    if a == [] {
      assert a + b == b && ka + kb == kb;
    } else {
      var head := if ka[0] then [a[0]] else [];
      assert (a + b)[0] == a[0] && (ka + kb)[0] == ka[0];
      assert (a + b)[1..] == a[1..] + b && (ka + kb)[1..] == ka[1..] + kb;
      assert Select(a + b, ka + kb) == head + Select(a[1..] + b, ka[1..] + kb);
      SelectAppend(a[1..], b, ka[1..], kb);
      assert Select(a, ka) == head + Select(a[1..], ka[1..]);
    }
  }

  lemma {:induction false} SelectLength<T>(row: seq<T>, keep: seq<bool>)
    requires |row| == |keep|
    ensures |Select(row, keep)| == Count(keep)
  {
    if row != [] {
      SelectLength(row[1..], keep[1..]);
    }
  }

  lemma {:induction false} SelectAllKept<T>(row: seq<T>, keep: seq<bool>)
    requires |row| == |keep|
    requires forall c :: 0 <= c < |keep| ==> keep[c]
    ensures Select(row, keep) == row
  {
    if row != [] {
      assert keep[0];
      assert forall c :: 0 <= c < |keep[1..]| ==> keep[1..][c] == keep[c + 1];
      SelectAllKept(row[1..], keep[1..]);
      assert row == [row[0]] + row[1..];
    }
  }

  /** Selecting with a mask that is false at position a only drops the entry at a. */
  lemma {:induction false} SelectSkipOne<T>(row: seq<T>, keep: seq<bool>, a: nat)
    requires |row| == |keep| && a < |row|
    requires forall c :: 0 <= c < |keep| ==> (keep[c] <==> c != a)
    ensures Select(row, keep) == row[..a] + row[a + 1..]
  {
    var tail := Select(row[1..], keep[1..]);
    assert Select(row, keep) == (if keep[0] then [row[0]] else []) + tail;
    if a == 0 {
      assert forall c :: 0 <= c < |keep[1..]| ==> keep[1..][c] == keep[c + 1];
      SelectAllKept(row[1..], keep[1..]);
    } else {
      assert forall c :: 0 <= c < |keep[1..]| ==> keep[1..][c] == keep[c + 1];
      SelectSkipOne(row[1..], keep[1..], a - 1);
      assert row[1..][..a - 1] == row[1..a] && row[1..][a..] == row[a + 1..];
      assert row[..a] == [row[0]] + row[1..a];
    }
  }

  /** Selecting with a mask that is false exactly at positions lo < hi drops those two entries. */
  lemma SelectSkipTwo<T>(row: seq<T>, keep: seq<bool>, lo: nat, hi: nat)
    requires |row| == |keep| && lo < hi < |row|
    requires forall c :: 0 <= c < |keep| ==> (keep[c] <==> c != lo && c != hi)
    ensures Select(row, keep) == DropTwo(row, lo, hi)
  {
    var front, back := row[..hi], row[hi..];
    var kfront, kback := keep[..hi], keep[hi..];
    assert row == front + back && keep == kfront + kback;
    SelectAppend(front, back, kfront, kback);
    assert forall c :: 0 <= c < |kfront| ==> kfront[c] == keep[c];
    SelectSkipOne(front, kfront, lo);
    assert forall c :: 0 <= c < |kback| ==> kback[c] == keep[c + hi];
    SelectSkipOne(back, kback, 0);
    DropTwoSplit(row, lo, hi);
  }

  /** `DropTwo` in terms of the two pieces either side of position hi. */
  lemma DropTwoSplit<T>(row: seq<T>, lo: nat, hi: nat)
    requires lo < hi < |row|
    ensures DropTwo(row, lo, hi) == (row[..hi][..lo] + row[..hi][lo + 1..]) + (row[hi..][..0] + row[hi..][1..])
  {
    assert row[..hi][..lo] == row[..lo] && row[..hi][lo + 1..] == row[lo + 1..hi];
    assert row[hi..][..0] + row[hi..][1..] == row[hi + 1..];
  }

  lemma ShiftMembership(s: seq<nat>, i: nat)
    ensures i in Shift(s) <==> i > 0 && i - 1 in s
  {
    if i in Shift(s) {
      var k :| 0 <= k < |s| && Shift(s)[k] == i;
      assert s[k] == i - 1;
    }
    if i > 0 && i - 1 in s {
      var k :| 0 <= k < |s| && s[k] == i - 1;
      assert Shift(s)[k] == i;
    }
  }

  lemma {:induction false} IndicesIncreasing(keep: seq<bool>)
    ensures forall k, l :: 0 <= k < l < |Indices(keep)| ==> Indices(keep)[k] < Indices(keep)[l]
  {
    if keep != [] {
      IndicesIncreasing(keep[1..]);
      var head: seq<nat> := if keep[0] then [0] else [];
      assert Indices(keep) == head + Shift(Indices(keep[1..]));
    }
  }

  lemma {:induction false} IndicesMembership(keep: seq<bool>)
    ensures forall i :: 0 <= i < |keep| ==> (i in Indices(keep) <==> keep[i])
  {
    if keep != [] {
      IndicesMembership(keep[1..]);
      var rest := Indices(keep[1..]);
      var head: seq<nat> := if keep[0] then [0] else [];
      assert Indices(keep) == head + Shift(rest);
      forall i | 0 <= i < |keep| ensures (i in Indices(keep) <==> keep[i]) {
        ShiftMembership(rest, i);
        if i > 0 {
          assert keep[1..][i - 1] == keep[i];
        }
      }
    }
  }

  /** The positions `Indices` lists are increasing and are exactly the true positions. */
  lemma IndicesExact(keep: seq<bool>)
    ensures forall k, l :: 0 <= k < l < |Indices(keep)| ==> Indices(keep)[k] < Indices(keep)[l]
    ensures forall i :: 0 <= i < |keep| ==> (i in Indices(keep) <==> keep[i])
  {
    IndicesIncreasing(keep);
    IndicesMembership(keep);
  }

  /** Entry k of a selection is the entry at the k-th kept position. */
  lemma {:induction false} SelectAt<T>(row: seq<T>, keep: seq<bool>)
    requires |row| == |keep|
    ensures |Select(row, keep)| == |Indices(keep)|
    ensures forall k :: 0 <= k < |Indices(keep)| ==> Select(row, keep)[k] == row[Indices(keep)[k]]
  {
    SelectLength(row, keep);
    if row != [] {
      SelectAt(row[1..], keep[1..]);
      SelectAtStep(row, keep, Select(row[1..], keep[1..]), Indices(keep[1..]));
    }
  }

  /** The step of `SelectAt`: from the claim for the tail of a row to the claim for the row. */
  lemma SelectAtStep<T>(row: seq<T>, keep: seq<bool>, tail: seq<T>, rest: seq<nat>)
    requires |row| == |keep| && row != []
    requires tail == Select(row[1..], keep[1..]) && rest == Indices(keep[1..])
    requires |tail| == |rest| && forall k :: 0 <= k < |rest| ==> tail[k] == row[1..][rest[k]]
    ensures forall k :: 0 <= k < |Indices(keep)| ==> Select(row, keep)[k] == row[Indices(keep)[k]]
  {
    assert Select(row, keep) == (if keep[0] then [row[0]] else []) + tail;
    assert Indices(keep) == (if keep[0] then [0] else []) + Shift(rest);
    LookupStep(row, Select(row, keep), Indices(keep), tail, rest, keep[0]);
  }

  /** Prepending the head (when kept) to both a selection and its shifted positions keeps them matched. */
  lemma LookupStep<T>(row: seq<T>, sel: seq<T>, idx: seq<nat>, tail: seq<T>, rest: seq<nat>, kept: bool)
    requires row != [] && |tail| == |rest|
    requires forall k :: 0 <= k < |rest| ==> rest[k] < |row| - 1 && tail[k] == row[1..][rest[k]]
    requires sel == (if kept then [row[0]] else []) + tail
    requires idx == (if kept then [0] else []) + Shift(rest)
    ensures forall k :: 0 <= k < |idx| ==> idx[k] < |row| && sel[k] == row[idx[k]]
  {
    var off := if kept then 1 else 0;
    forall k | 0 <= k < |idx| ensures idx[k] < |row| && sel[k] == row[idx[k]] {
      if k >= off {
        assert sel[k] == tail[k - off] && idx[k] == rest[k - off] + 1;
      }
    }
  }

  lemma {:induction false} SelectIsSubsequence<T>(row: seq<T>, keep: seq<bool>)
    requires |row| == |keep|
    ensures IsSubsequence(Select(row, keep), row)
  {
    if row != [] {
      SelectIsSubsequence(row[1..], keep[1..]);
      var tail := Select(row[1..], keep[1..]);
      if keep[0] {
        assert Select(row, keep) == [row[0]] + tail;
        assert ([row[0]] + tail)[1..] == tail;
      } else {
        assert Select(row, keep) == tail;
      }
    }
  }

  lemma {:induction false} FlattenLength<T>(rows: seq<seq<T>>, width: nat)
    requires IsMatrix(rows, |rows|, width)
    ensures |Flatten(rows)| == |rows| * width
  {
    if rows != [] {
      FlattenLength(rows[1..], width);
      assert |Flatten(rows)| == width + (|rows| - 1) * width;
    }
  }

  lemma {:induction false} ChunksOfFlatten<T>(rows: seq<seq<T>>, width: nat)
    requires IsMatrix(rows, |rows|, width)
    ensures |Flatten(rows)| == |rows| * width
    ensures Chunks(Flatten(rows), width, |rows|) == rows
  {
    FlattenLength(rows, width);
    if rows != [] {
      ChunksOfFlatten(rows[1..], width);
      var flat := Flatten(rows);
      assert flat == rows[0] + Flatten(rows[1..]);
      assert flat[..width] == rows[0] && flat[width..] == Flatten(rows[1..]);
      assert rows == [rows[0]] + rows[1..];
    }
  }

  lemma {:induction false} MultiplyAtLeast(n: nat, d: nat)
    requires d >= 1
    ensures n * d >= n
  {
    if d > 1 {
      MultiplyAtLeast(n, d - 1);
      assert n * d == n * (d - 1) + n;
    }
  }

  lemma MultiplyBounds(n: nat, d: int)
    ensures d >= 1 ==> n * d >= n
    ensures d <= -1 ==> n * d + n <= 0
  {
    if d >= 1 {
      MultiplyAtLeast(n, d);
    } else if d <= -1 {
      MultiplyAtLeast(n, -d);
    }
  }

  /** Euclidean division is unique: a == n * q + rem with 0 <= rem < n fixes a / n and a % n. */
  lemma DivisionUnique(a: int, n: nat, q: int, rem: int)
    requires n > 0 && a == n * q + rem && 0 <= rem < n
    ensures a / n == q && a % n == rem
  {
    assert a == n * (a / n) + a % n;
    assert n * (q - a / n) == a % n - rem;
    MultiplyBounds(n, q - a / n);
  }

  /** Reshaping the flattening of a non-empty rectangular tensor to its row count gives it back. */
  lemma ReshapeFlatten<T>(rows: seq<seq<T>>, width: nat)
    requires |rows| > 0 && IsMatrix(rows, |rows|, width)
    ensures Reshape(Flatten(rows), |rows|) == Ok(rows)
  {
    ChunksOfFlatten(rows, width);
    DivisionUnique(|rows| * width, |rows|, width, 0);
  }
}
