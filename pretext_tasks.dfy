/**
 * Mask and pseudo-label construction of the generation-based pretext tasks.
 *
 * A task owns a private clone of the graph's node-feature matrix (N x D),
 * picks masked nodes or feature columns from a random permutation (passed in
 * here), snapshots its pseudo-labels and zeroes the masked part of its clone
 * in place. The encoder is represented by its output width `out_channels`,
 * a decoder by its input and output widths.
 */
module PretextTasks {
  import opened Wrappers
  import opened RealArith

  /** `torch.nn.Linear(in_features, out_features)`, by its shape. */
  datatype Linear = Linear(inFeatures: nat, outFeatures: nat)

  // ---------------------------------------------------------------------
  // Choosing the masked part: `perm[: int(len(perm) * ratio)]`
  // ---------------------------------------------------------------------

  /** Python's `int(x)` on a float: truncation toward zero. */
  function Trunc(x: real): (r: int)
    ensures 0.0 <= x ==> r >= 0 && r as real <= x < r as real + 1.0
    ensures x < 0.0 ==> r <= 0 && r as real - 1.0 < x <= r as real
  {
    if x >= 0.0 then x.Floor else -((-x).Floor)
  }

  /** The length of the slice `s[:stop]` of a sequence of length n (a negative stop counts from the end). */
  function SliceLength(n: nat, stop: int): (r: nat)
    ensures r <= n
    ensures 0 <= stop <= n ==> r == stop
    ensures n < stop ==> r == n
    ensures -(n as int) <= stop < 0 ==> r == n + stop
    ensures stop < -(n as int) ==> r == 0
  {
    if stop >= 0 then (if stop <= n then stop else n)
    else if n + stop >= 0 then n + stop else 0
  }

  /** How many of n candidates `perm[: int(len(perm) * ratio)]` keeps. */
  function MaskCount(n: nat, ratio: real): (r: nat)
    ensures r <= n
  {
    SliceLength(n, Trunc(n as real * ratio))
  }

  /** For a ratio in [0, 1] the number masked is floor(n * ratio). */
  lemma MaskCountIsFloor(n: nat, ratio: real)
    requires 0.0 <= ratio <= 1.0
    ensures MaskCount(n, ratio) == (n as real * ratio).Floor
  {
    var x := n as real * ratio;
    ScaleBetween(n as real, ratio);
    assert 0.0 <= x <= n as real;
    assert 0 <= x.Floor <= n;
    assert Trunc(x) == x.Floor;
  }

  /** `np.random.permutation(np.arange(n))`, as the caller supplies it. */
  predicate IsPermutation(p: seq<nat>, n: nat) {
    |p| == n &&
    (forall j :: 0 <= j < n ==> p[j] < n) &&
    (forall i, j :: 0 <= i < j < n ==> p[i] != p[j])
  }

  predicate Distinct(s: seq<nat>) {
    forall i, j :: 0 <= i < j < |s| ==> s[i] != s[j]
  }

  /** `np.arange(len(mask))[~mask]`: the indices of the nodes outside the train mask, increasing. */
  function Unlabeled(trainMask: seq<bool>): (r: seq<nat>)
    ensures forall j :: 0 <= j < |r| ==> r[j] < |trainMask| && !trainMask[r[j]]
    ensures forall i :: 0 <= i < |trainMask| && !trainMask[i] ==> i in r
    ensures forall i, j :: 0 <= i < j < |r| ==> r[i] < r[j]
    decreases |trainMask|
  {
    if trainMask == [] then []
    else
      var last := |trainMask| - 1;
      var prefix := Unlabeled(trainMask[..last]);
      if trainMask[last] then prefix else prefix + [last]
  }

  /**
   * Reading a sequence through a permutation of its positions reorders it and
   * neither loses nor duplicates an entry.
   */
  lemma {:induction false} PermutedMultiset<T>(arr: seq<T>, perm: seq<nat>, r: seq<T>)
    requires IsPermutation(perm, |arr|) && |r| == |arr|
    requires forall j :: 0 <= j < |r| ==> r[j] == arr[perm[j]]
    ensures multiset(r) == multiset(arr)
    decreases |arr|
  {
    if |arr| > 0 {
      var n := |arr| - 1;
      var p := perm[n];
      var rest := arr[..p] + arr[p + 1..];
      var perm' := seq(n, j requires 0 <= j < n => if perm[j] < p then perm[j] else perm[j] - 1);
      forall j | 0 <= j < n ensures perm'[j] < n && rest[perm'[j]] == arr[perm[j]] {
        assert perm[j] != p;
      }
      assert IsPermutation(perm', n) by {
        forall i, j | 0 <= i < j < n ensures perm'[i] != perm'[j] {
          assert perm[i] != perm[j] && perm[i] != p && perm[j] != p;
        }
      }
      PermutedMultiset(rest, perm', r[..n]);
      assert arr == arr[..p] + [arr[p]] + arr[p + 1..];
      assert r == r[..n] + [r[n]];
    }
  }

  /** `arr[perm]`: the entries of `arr` in the order a permutation gives, the same entries as before. */
  function Permute(arr: seq<nat>, perm: seq<nat>): (r: seq<nat>)
    requires IsPermutation(perm, |arr|)
    ensures |r| == |arr| && forall j :: 0 <= j < |r| ==> r[j] == arr[perm[j]]
    ensures multiset(r) == multiset(arr)
  {
    var r := seq(|arr|, j requires 0 <= j < |arr| => arr[perm[j]]);
    PermutedMultiset(arr, perm, r);
    r
  }

  // ---------------------------------------------------------------------
  // In-place work on the private feature matrix
  // ---------------------------------------------------------------------

  /** Row i of a matrix, as a value. */
  function Row(a: array2<real>, i: nat): (r: seq<real>)
    reads a
    requires i < a.Length0
    ensures |r| == a.Length1 && forall j :: 0 <= j < a.Length1 ==> r[j] == a[i, j]
  {
    seq(a.Length1, j requires 0 <= j < a.Length1 reads a => a[i, j])
  }

  /** `data.clone()`: a fresh matrix with the same contents. */
  method CloneMatrix(a: array2<real>) returns (c: array2<real>)
    ensures fresh(c)
    ensures c.Length0 == a.Length0 && c.Length1 == a.Length1
    ensures forall i, j :: 0 <= i < a.Length0 && 0 <= j < a.Length1 ==> c[i, j] == a[i, j]
  {
    c := new real[a.Length0, a.Length1];
    var i := 0;
    while i < a.Length0
      invariant 0 <= i <= a.Length0
      invariant forall r, j :: 0 <= r < i && 0 <= j < a.Length1 ==> c[r, j] == a[r, j]
    {
      var j := 0;
      while j < a.Length1
        invariant 0 <= j <= a.Length1
        invariant forall r, k :: 0 <= r < i && 0 <= k < a.Length1 ==> c[r, k] == a[r, k]
        invariant forall k :: 0 <= k < j ==> c[i, k] == a[i, k]
      {
        c[i, j] := a[i, j];
        j := j + 1;
      }
      i := i + 1;
    }
  }

  /** `x[rows] = torch.zeros(x.shape[1])`: the listed rows become zero, the others are untouched. */
  method ZeroRows(a: array2<real>, rows: seq<nat>)
    requires forall k :: 0 <= k < |rows| ==> rows[k] < a.Length0
    modifies a
    ensures forall i, j :: 0 <= i < a.Length0 && 0 <= j < a.Length1 ==>
      a[i, j] == if i in rows then 0.0 else old(a[i, j])
  {
    var k := 0;
    while k < |rows|
      invariant 0 <= k <= |rows|
      invariant forall i, j :: 0 <= i < a.Length0 && 0 <= j < a.Length1 ==>
        a[i, j] == if i in rows[..k] then 0.0 else old(a[i, j])
    {
      var j := 0;
      while j < a.Length1
        invariant 0 <= j <= a.Length1
        invariant forall i, c :: 0 <= i < a.Length0 && 0 <= c < a.Length1 && i != rows[k] ==>
          a[i, c] == if i in rows[..k] then 0.0 else old(a[i, c])
        invariant forall c :: 0 <= c < a.Length1 ==>
          a[rows[k], c] == if c < j || rows[k] in rows[..k] then 0.0 else old(a[rows[k], c])
      {
        a[rows[k], j] := 0.0;
        j := j + 1;
      }
      assert rows[..k + 1] == rows[..k] + [rows[k]];
      k := k + 1;
    }
    assert rows[..k] == rows;
  }

  /** `x[:, cols] = 0`: the listed columns become zero, the others are untouched. */
  method ZeroColumns(a: array2<real>, cols: seq<nat>)
    requires forall k :: 0 <= k < |cols| ==> cols[k] < a.Length1
    modifies a
    ensures forall i, j :: 0 <= i < a.Length0 && 0 <= j < a.Length1 ==>
      a[i, j] == if j in cols then 0.0 else old(a[i, j])
  {
    var k := 0;
    while k < |cols|
      invariant 0 <= k <= |cols|
      invariant forall i, j :: 0 <= i < a.Length0 && 0 <= j < a.Length1 ==>
        a[i, j] == if j in cols[..k] then 0.0 else old(a[i, j])
    {
      var i := 0;
      while i < a.Length0
        invariant 0 <= i <= a.Length0
        invariant forall r, j :: 0 <= r < a.Length0 && 0 <= j < a.Length1 && j != cols[k] ==>
          a[r, j] == if j in cols[..k] then 0.0 else old(a[r, j])
        invariant forall r :: 0 <= r < a.Length0 ==>
          a[r, cols[k]] == if r < i || cols[k] in cols[..k] then 0.0 else old(a[r, cols[k]])
      {
        a[i, cols[k]] := 0.0;
        i := i + 1;
      }
      assert cols[..k + 1] == cols[..k] + [cols[k]];
      k := k + 1;
    }
    assert cols[..k] == cols;
  }

  // ---------------------------------------------------------------------
  // The tasks
  // ---------------------------------------------------------------------

  /**
   * `BasicPretextTask`: the private clone of the features, the train mask, the
   * encoder (by its output width) and a decoder that is `None` until a variant sets it.
   */
  class BasicPretextTask {
    var x: array2<real>
    const trainMask: seq<bool>
    const outChannels: nat
    var decoder: Option<Linear>

    constructor (features: array2<real>, trainMask: seq<bool>, outChannels: nat)
      ensures fresh(x)
      ensures x.Length0 == features.Length0 && x.Length1 == features.Length1
      ensures forall i, j :: 0 <= i < x.Length0 && 0 <= j < x.Length1 ==> x[i, j] == features[i, j]
      ensures this.trainMask == trainMask && this.outChannels == outChannels
      ensures decoder == None
    {
      var clone := CloneMatrix(features);
      x := clone;
      this.trainMask := trainMask;
      this.outChannels := outChannels;
      decoder := None;
    }
  }

  /**
   * `AttributeMask`: a share of the unlabeled nodes is masked; their feature
   * rows are the pseudo-labels and become zero in the task's clone.
   */
  class AttributeMask {
    const base: BasicPretextTask
    const maskedNodes: seq<nat>
    const pseudoLabels: seq<seq<real>>

    /** `order` is the random permutation applied to the unlabeled nodes. */
    constructor (features: array2<real>, trainMask: seq<bool>, outChannels: nat,
                 nodeMaskRatio: real, order: seq<nat>)
      requires |trainMask| == features.Length0
      requires features.Length1 <= 256
      requires IsPermutation(order, |Unlabeled(trainMask)|)
      ensures fresh(base) && fresh(base.x)
      ensures maskedNodes == Permute(Unlabeled(trainMask), order)[..MaskCount(|Unlabeled(trainMask)|, nodeMaskRatio)]
      ensures base.x.Length0 == features.Length0 && base.x.Length1 == features.Length1
      ensures forall i, j :: 0 <= i < features.Length0 && 0 <= j < features.Length1 ==>
        features[i, j] == old(features[i, j]) &&
        base.x[i, j] == if i in maskedNodes then 0.0 else features[i, j]
      ensures |pseudoLabels| == |maskedNodes|
      ensures forall k :: 0 <= k < |maskedNodes| ==> pseudoLabels[k] == Row(features, maskedNodes[k])
      ensures base.decoder == Some(Linear(outChannels, features.Length1))
    {
      var b := new BasicPretextTask(features, trainMask, outChannels);
      var unlabeled := Unlabeled(trainMask);
      var perm := Permute(unlabeled, order);
      var masked := perm[..MaskCount(|perm|, nodeMaskRatio)];
      var clone := b.x;
      var labels := seq(|masked|, k requires 0 <= k < |masked| reads clone => Row(clone, masked[k]));
      base := b;
      maskedNodes := masked;
      pseudoLabels := labels;
      new;
      ZeroRows(b.x, masked);
      b.decoder := Some(Linear(outChannels, b.x.Length1));
    }
  }

  /** `row[cols]`: the entries of a row at the listed columns. */
  function Columns(row: seq<real>, cols: seq<nat>): (r: seq<real>)
    requires forall k :: 0 <= k < |cols| ==> cols[k] < |row|
    ensures |r| == |cols| && forall k :: 0 <= k < |cols| ==> r[k] == row[cols[k]]
  {
    seq(|cols|, k requires 0 <= k < |cols| => row[cols[k]])
  }

  /**
   * `CorruptedFeaturesReconstruction`: a share of the feature columns is
   * masked; the pseudo-labels are those columns (or the whole matrix) as they
   * were, and the masked columns become zero in the task's clone.
   */
  class CorruptedFeaturesReconstruction {
    const base: BasicPretextTask
    const maskedCols: seq<nat>
    const pseudoLabels: seq<seq<real>>

    /** `order` is the random permutation of the feature columns. */
    constructor (features: array2<real>, trainMask: seq<bool>, outChannels: nat,
                 featureCorruptionRatio: real, partialFeatureReconstruction: bool, order: seq<nat>)
      requires IsPermutation(order, features.Length1)
      ensures fresh(base) && fresh(base.x)
      ensures maskedCols == order[..MaskCount(features.Length1, featureCorruptionRatio)]
      ensures base.x.Length0 == features.Length0 && base.x.Length1 == features.Length1
      ensures forall i, j :: 0 <= i < features.Length0 && 0 <= j < features.Length1 ==>
        features[i, j] == old(features[i, j]) &&
        base.x[i, j] == if j in maskedCols then 0.0 else features[i, j]
      ensures |pseudoLabels| == features.Length0
      ensures forall i :: 0 <= i < features.Length0 ==>
        pseudoLabels[i] == if partialFeatureReconstruction then Columns(Row(features, i), maskedCols) else Row(features, i)
      ensures base.decoder.Some? && base.decoder.value.inFeatures == outChannels
      ensures base.decoder.value.outFeatures == if partialFeatureReconstruction then |maskedCols| else features.Length1
      ensures forall i :: 0 <= i < |pseudoLabels| ==> |pseudoLabels[i]| == base.decoder.value.outFeatures
    {
      var b := new BasicPretextTask(features, trainMask, outChannels);
      var masked := order[..MaskCount(|order|, featureCorruptionRatio)];
      var clone := b.x;
      var labels := seq(clone.Length0, i requires 0 <= i < clone.Length0 reads clone =>
        if partialFeatureReconstruction then Columns(Row(clone, i), masked) else Row(clone, i));
      var width := if partialFeatureReconstruction then |masked| else clone.Length1;
      base := b;
      maskedCols := masked;
      pseudoLabels := labels;
      new;
      ZeroColumns(clone, masked);
      b.decoder := Some(Linear(outChannels, width));
    }
  }

  /** `torch.eye(n)`. */
  method Identity(n: nat) returns (m: array2<real>)
    ensures fresh(m) && m.Length0 == n && m.Length1 == n
    ensures forall r, c :: 0 <= r < n && 0 <= c < n ==> m[r, c] == if r == c then 1.0 else 0.0
  {
    m := new real[n, n];
    var r := 0;
    while r < n
      invariant 0 <= r <= n
      invariant forall i, c :: 0 <= i < r && 0 <= c < n ==> m[i, c] == if i == c then 1.0 else 0.0
    {
      var c := 0;
      while c < n
        invariant 0 <= c <= n
        invariant forall i, k :: 0 <= i < r && 0 <= k < n ==> m[i, k] == if i == k then 1.0 else 0.0
        invariant forall k :: 0 <= k < c ==> m[r, k] == if r == k then 1.0 else 0.0
      {
        m[r, c] := if r == c then 1.0 else 0.0;
        c := c + 1;
      }
      r := r + 1;
    }
  }

  /** `m[cols, cols] = 0`: the listed diagonal entries become zero, everything else is untouched. */
  method ZeroDiagonalEntries(m: array2<real>, cols: seq<nat>)
    requires forall k :: 0 <= k < |cols| ==> cols[k] < m.Length0 && cols[k] < m.Length1
    modifies m
    ensures forall r, c :: 0 <= r < m.Length0 && 0 <= c < m.Length1 ==>
      m[r, c] == if r == c && r in cols then 0.0 else old(m[r, c])
  {
    var k := 0;
    while k < |cols|
      invariant 0 <= k <= |cols|
      invariant forall r, c :: 0 <= r < m.Length0 && 0 <= c < m.Length1 ==>
        m[r, c] == if r == c && r in cols[..k] then 0.0 else old(m[r, c])
    {
      m[cols[k], cols[k]] := 0.0;
      assert cols[..k + 1] == cols[..k] + [cols[k]];
      k := k + 1;
    }
    assert cols[..k] == cols;
  }

  /** The sum of the pairwise products of two vectors. */
  function Dot(u: seq<real>, v: seq<real>): real
    requires |u| == |v|
    decreases |u|
  {
    if u == [] then 0.0 else u[0] * v[0] + Dot(u[1..], v[1..])
  }

  /** Column j of a matrix given by its rows. */
  function Column(m: seq<seq<real>>, j: nat): (r: seq<real>)
    requires forall k :: 0 <= k < |m| ==> j < |m[k]|
    ensures |r| == |m|
  {
    seq(|m|, k requires 0 <= k < |m| => m[k][j])
  }

  /** `torch.matmul(a, m)` for an n x h matrix a and an h x w matrix m. */
  function MatMul(a: seq<seq<real>>, m: seq<seq<real>>, w: nat): (r: seq<seq<real>>)
    requires forall i :: 0 <= i < |a| ==> |a[i]| == |m|
    requires forall k :: 0 <= k < |m| ==> |m[k]| == w
    ensures |r| == |a| && forall i :: 0 <= i < |a| ==> |r[i]| == w
  {
    seq(|a|, i requires 0 <= i < |a| => seq(w, j requires 0 <= j < w => Dot(a[i], Column(m, j))))
  }

  /** A dot product with a vector that is zero outside position j picks out entry j, scaled. */
  lemma {:induction false} DotWithScaledUnit(u: seq<real>, v: seq<real>, j: nat, s: real)
    requires |u| == |v| && j < |u|
    requires forall k :: 0 <= k < |v| ==> v[k] == if k == j then s else 0.0
    ensures Dot(u, v) == u[j] * s
    decreases |u|
  {
    if j == 0 {
      DotWithZero(u[1..], v[1..]);
    } else {
      DotWithScaledUnit(u[1..], v[1..], j - 1, s);
    }
  }

  lemma {:induction false} DotWithZero(u: seq<real>, v: seq<real>)
    requires |u| == |v|
    requires forall k :: 0 <= k < |v| ==> v[k] == 0.0
    ensures Dot(u, v) == 0.0
    decreases |u|
  {
    if u != [] {
      DotWithZero(u[1..], v[1..]);
    }
  }

  /**
   * `CorruptedEmbeddingsReconstruction`: a share of the embedding columns is
   * masked through a diagonal mask matrix; the decoder reconstructs the masked
   * columns (or all of them) from the masked embeddings.
   */
  class CorruptedEmbeddingsReconstruction {
    const base: BasicPretextTask
    const partialEmbeddingReconstruction: bool
    const maskedEmbeddingCols: seq<nat>
    const mask: array2<real>

    /** The mask is the identity with the masked diagonal entries zeroed; the decoder matches the target width. */
    ghost predicate Valid()
      reads this, base, mask
    {
      var h := base.outChannels;
      mask.Length0 == h && mask.Length1 == h &&
      (forall k :: 0 <= k < |maskedEmbeddingCols| ==> maskedEmbeddingCols[k] < h) &&
      (forall r, c :: 0 <= r < h && 0 <= c < h ==>
        mask[r, c] == if r == c && r !in maskedEmbeddingCols then 1.0 else 0.0) &&
      base.decoder == Some(Linear(h, if partialEmbeddingReconstruction then |maskedEmbeddingCols| else h))
    }

    /** `order` is the random permutation of the embedding columns. */
    constructor (features: array2<real>, trainMask: seq<bool>, outChannels: nat,
                 embeddingCorruptionRatio: real, partialEmbeddingReconstruction: bool, order: seq<nat>)
      requires IsPermutation(order, outChannels)
      ensures Valid() && fresh(base) && fresh(mask)
      ensures maskedEmbeddingCols == order[..MaskCount(outChannels, embeddingCorruptionRatio)]
      ensures this.partialEmbeddingReconstruction == partialEmbeddingReconstruction
      ensures base.outChannels == outChannels
    {
      var b := new BasicPretextTask(features, trainMask, outChannels);
      var masked := order[..MaskCount(outChannels, embeddingCorruptionRatio)];
      var m := Identity(outChannels);
      ZeroDiagonalEntries(m, masked);
      base := b;
      this.partialEmbeddingReconstruction := partialEmbeddingReconstruction;
      maskedEmbeddingCols := masked;
      mask := m;
      new;
      b.decoder := Some(Linear(outChannels, if partialEmbeddingReconstruction then |masked| else outChannels));
    }

    /** The mask as a value: its rows. */
    function MaskRows(): (r: seq<seq<real>>)
      reads this, mask
      ensures |r| == mask.Length0 && forall k :: 0 <= k < |r| ==> r[k] == Row(mask, k)
    {
      seq(mask.Length0, k requires 0 <= k < mask.Length0 reads mask => Row(mask, k))
    }

    /**
     * The inputs of `make_loss`'s reconstruction: the embeddings multiplied by
     * the mask, which zeroes exactly the masked columns, and the pseudo-labels,
     * whose width is the decoder's output width.
     */
    method MakeLossTargets(embeddings: seq<seq<real>>) returns (maskedEmbeddings: seq<seq<real>>, pseudoLabels: seq<seq<real>>)
      requires Valid()
      requires forall i :: 0 <= i < |embeddings| ==> |embeddings[i]| == base.outChannels
      ensures maskedEmbeddings == MatMul(embeddings, MaskRows(), base.outChannels)
      ensures forall i, j :: 0 <= i < |embeddings| && 0 <= j < base.outChannels ==>
        maskedEmbeddings[i][j] == if j in maskedEmbeddingCols then 0.0 else embeddings[i][j]
      ensures |pseudoLabels| == |embeddings|
      ensures forall i :: 0 <= i < |embeddings| ==>
        pseudoLabels[i] == if partialEmbeddingReconstruction then Columns(embeddings[i], maskedEmbeddingCols) else embeddings[i]
      ensures forall i :: 0 <= i < |pseudoLabels| ==> |pseudoLabels[i]| == base.decoder.value.outFeatures
    {
      var h := base.outChannels;
      var rows := MaskRows();
      maskedEmbeddings := MatMul(embeddings, rows, h);
      forall i, j | 0 <= i < |embeddings| && 0 <= j < h
        ensures maskedEmbeddings[i][j] == if j in maskedEmbeddingCols then 0.0 else embeddings[i][j]
      {
        var col := Column(rows, j);
        var s := if j in maskedEmbeddingCols then 0.0 else 1.0;
        assert forall k :: 0 <= k < h ==> col[k] == if k == j then s else 0.0;
        DotWithScaledUnit(embeddings[i], col, j, s);
      }
      if partialEmbeddingReconstruction {
        pseudoLabels := seq(|embeddings|, i requires 0 <= i < |embeddings| => Columns(embeddings[i], maskedEmbeddingCols));
      } else {
        pseudoLabels := embeddings;
      }
    }
  }

  /** Permuting distinct entries keeps them distinct. */
  lemma PermuteDistinct(arr: seq<nat>, perm: seq<nat>)
    requires Distinct(arr) && IsPermutation(perm, |arr|)
    ensures Distinct(Permute(arr, perm))
  {
    var r := Permute(arr, perm);
    forall i, j | 0 <= i < j < |r| ensures r[i] != r[j] {
      assert perm[i] != perm[j];
      if perm[i] < perm[j] {
        assert arr[perm[i]] != arr[perm[j]];
      } else {
        assert arr[perm[j]] != arr[perm[i]];
      }
    }
  }

  /** The masked nodes are distinct nodes outside the train mask. */
  lemma AttributeMaskSelection(trainMask: seq<bool>, nodeMaskRatio: real, order: seq<nat>)
    requires IsPermutation(order, |Unlabeled(trainMask)|)
    ensures var masked := Permute(Unlabeled(trainMask), order)[..MaskCount(|Unlabeled(trainMask)|, nodeMaskRatio)];
      Distinct(masked) &&
      forall k :: 0 <= k < |masked| ==> masked[k] < |trainMask| && !trainMask[masked[k]]
  {
    var unlabeled := Unlabeled(trainMask);
    assert Distinct(unlabeled) by {
      forall i, j | 0 <= i < j < |unlabeled| ensures unlabeled[i] != unlabeled[j] {
        assert unlabeled[i] < unlabeled[j];
      }
    }
    PermuteDistinct(unlabeled, order);
    var perm := Permute(unlabeled, order);
    var masked := perm[..MaskCount(|unlabeled|, nodeMaskRatio)];
    assert Distinct(masked) by {
      forall i, j | 0 <= i < j < |masked| ensures masked[i] != masked[j] {
        assert masked[i] == perm[i] && masked[j] == perm[j];
      }
    }
    forall k | 0 <= k < |masked| ensures masked[k] < |trainMask| && !trainMask[masked[k]] {
      assert masked[k] == unlabeled[order[k]];
    }
  }
}
