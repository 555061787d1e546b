/**
 * The discrete parts of the sub-graph contrast task (SUBG_CON) and of
 * Graph InfoClust: the neighbour table built from a diffusion score matrix,
 * the central-node picking indices into the batched subgraphs, the pairing
 * of embeddings with summaries in the contrastive loss, and the cluster
 * count and loss blend of Graph InfoClust.
 *
 * The diffusion matrix (a pseudo-inverse), the encoder, the mean pooling and
 * the sigmoid are numerical black boxes: the matrix and the embeddings are
 * inputs, the sigmoid a function parameter.
 */
module SubgraphContrast {
  import opened PretextTasks
  import opened RealArith

  // ---------------------------------------------------------------------
  // Diagonal suppression and the top-k neighbour table
  // ---------------------------------------------------------------------

  /** `S.min()`: the smallest entry of a nonempty matrix. */
  method MatrixMin(s: array2<real>) returns (m: real)
    requires s.Length0 > 0 && s.Length1 > 0
    ensures exists i, j :: 0 <= i < s.Length0 && 0 <= j < s.Length1 && s[i, j] == m
    ensures forall i, j :: 0 <= i < s.Length0 && 0 <= j < s.Length1 ==> m <= s[i, j]
  {
    m := s[0, 0];
    ghost var wi, wj := 0, 0;
    var i := 0;
    while i < s.Length0
      invariant 0 <= i <= s.Length0
      invariant 0 <= wi < s.Length0 && 0 <= wj < s.Length1 && s[wi, wj] == m
      invariant forall r, c :: 0 <= r < i && 0 <= c < s.Length1 ==> m <= s[r, c]
    {
      var j := 0;
      while j < s.Length1
        invariant 0 <= j <= s.Length1
        invariant 0 <= wi < s.Length0 && 0 <= wj < s.Length1 && s[wi, wj] == m
        invariant forall r, c :: 0 <= r < i && 0 <= c < s.Length1 ==> m <= s[r, c]
        invariant forall c :: 0 <= c < j ==> m <= s[i, c]
      {
        if s[i, j] < m {
          m := s[i, j];
          wi, wj := i, j;
        }
        j := j + 1;
      }
      i := i + 1;
    }
  }

  /**
   * `S.fill_diagonal_(S.min() - 1)`: every diagonal entry becomes one less
   * than the old minimum, so it lies strictly below every other score of its
   * row; off-diagonal scores are unchanged.
   */
  method SuppressDiagonal(s: array2<real>) returns (fill: real)
    requires s.Length0 == s.Length1 && s.Length0 > 0
    modifies s
    ensures exists i, j :: 0 <= i < s.Length0 && 0 <= j < s.Length1 && old(s[i, j]) == fill + 1.0
    ensures forall i, j :: 0 <= i < s.Length0 && 0 <= j < s.Length1 ==> fill + 1.0 <= old(s[i, j])
    ensures forall i, j :: 0 <= i < s.Length0 && 0 <= j < s.Length1 ==>
      s[i, j] == if i == j then fill else old(s[i, j])
    ensures forall i, j :: 0 <= i < s.Length0 && 0 <= j < s.Length1 && i != j ==> s[i, i] < s[i, j]
  {
    var m := MatrixMin(s);
    fill := m - 1.0;
    var i := 0;
    while i < s.Length0
      invariant 0 <= i <= s.Length0
      invariant forall r, c :: 0 <= r < s.Length0 && 0 <= c < s.Length1 ==>
        s[r, c] == if r == c && r < i then fill else old(s[r, c])
    {
      s[i, i] := fill;
      i := i + 1;
    }
  }

  /**
   * `row.topk(k).indices`: k distinct positions in non-increasing order of
   * score, none scoring below a position left out; when k is below the row
   * length, some position is left out.
   */
  predicate IsTopK(row: seq<real>, k: nat, idx: seq<nat>) {
    |idx| == k &&
    (forall a :: 0 <= a < k ==> idx[a] < |row|) &&
    Distinct(idx) &&
    (forall a, b :: 0 <= a < b < k ==> row[idx[b]] <= row[idx[a]]) &&
    (forall a, j :: 0 <= a < k && 0 <= j < |row| && j !in idx ==> row[j] <= row[idx[a]]) &&
    (k < |row| ==> exists j :: 0 <= j < |row| && j !in idx)
  }

  /** The position in `rest` of the best-scoring index it holds. */
  method BestRemaining(row: seq<real>, rest: seq<nat>) returns (m: nat)
    requires |rest| > 0 && forall b :: 0 <= b < |rest| ==> rest[b] < |row|
    ensures m < |rest| && forall j :: j in rest ==> row[j] <= row[rest[m]]
  {
    m := 0;
    var t := 1;
    while t < |rest|
      invariant 1 <= t <= |rest| && m < t
      invariant forall u :: 0 <= u < t ==> row[rest[u]] <= row[rest[m]]
    {
      if row[rest[t]] > row[rest[m]] {
        m := t;
      }
      t := t + 1;
    }
  }

  /** Removing one entry of a duplicate-free sequence removes exactly that value. */
  lemma RemoveAt(rest: seq<nat>, m: nat)
    requires m < |rest| && Distinct(rest)
    ensures |rest[..m] + rest[m + 1..]| == |rest| - 1
    ensures Distinct(rest[..m] + rest[m + 1..])
    ensures forall j :: j in rest[..m] + rest[m + 1..] <==> j in rest && j != rest[m]
  {
    var r := rest[..m] + rest[m + 1..];
    assert forall b :: 0 <= b < |r| ==> r[b] == if b < m then rest[b] else rest[b + 1];
    forall j | j in rest && j != rest[m] ensures j in r {
      var b :| 0 <= b < |rest| && rest[b] == j;
      if b < m { assert r[b] == j; } else { assert r[b - 1] == j; }
    }
  }

  /** Top-k by repeated selection of the best index not yet picked. */
  method TopK(row: seq<real>, k: nat) returns (idx: seq<nat>)
    requires k <= |row|
    ensures IsTopK(row, k, idx)
  {
    idx := [];
    var rest: seq<nat> := seq(|row|, j requires 0 <= j => j as nat);
    forall j | 0 <= j < |row| ensures j in rest {
      assert rest[j] == j;
    }
    while |idx| < k
      invariant |idx| <= k && |idx| + |rest| == |row|
      invariant forall a :: 0 <= a < |idx| ==> idx[a] < |row|
      invariant forall b :: 0 <= b < |rest| ==> rest[b] < |row|
      invariant forall j :: 0 <= j < |row| ==> j in idx || j in rest
      invariant forall j :: j in idx ==> j !in rest
      invariant Distinct(idx) && Distinct(rest)
      invariant forall a, b :: 0 <= a < b < |idx| ==> row[idx[b]] <= row[idx[a]]
      invariant forall a, j :: 0 <= a < |idx| && j in rest ==> row[j] <= row[idx[a]]
    {
      var m := BestRemaining(row, rest);
      var picked := rest[m];
      assert picked in rest;
      forall a | 0 <= a < |idx| ensures idx[a] != picked {
        assert idx[a] in idx;
      }
      RemoveAt(rest, m);
      idx, rest := idx + [picked], rest[..m] + rest[m + 1..];
    }
    if k < |row| {
      assert rest[0] in rest;
    }
  }

  /** After diagonal suppression, and for k below the row length, a node is never among its own top-k. */
  lemma SelfNotPicked(row: seq<real>, k: nat, idx: seq<nat>, i: nat)
    requires IsTopK(row, k, idx) && i < |row| && k < |row|
    requires forall j :: 0 <= j < |row| && j != i ==> row[i] < row[j]
    ensures i !in idx
  {
    var j :| 0 <= j < |row| && j !in idx;
    assert forall a :: 0 <= a < k ==> row[j] <= row[idx[a]];
  }

  /** `torch.concat([S.topk(k).indices, arange(N)], dim=1)`: each row's top-k followed by the node itself. */
  method NeighbourTable(s: array2<real>, k: nat) returns (table: seq<seq<nat>>)
    requires k <= s.Length1
    ensures |table| == s.Length0
    ensures forall i :: 0 <= i < s.Length0 ==>
      |table[i]| == k + 1 && table[i][k] == i && IsTopK(Row(s, i), k, table[i][..k])
  {
    table := [];
    var i := 0;
    while i < s.Length0
      invariant 0 <= i <= s.Length0 && |table| == i
      invariant forall r :: 0 <= r < i ==>
        |table[r]| == k + 1 && table[r][k] == r && IsTopK(Row(s, r), k, table[r][..k])
    {
      var top := TopK(Row(s, i), k);
      assert (top + [i])[..k] == top;
      table := table + [top + [i]];
      i := i + 1;
    }
  }

  /** Every node is in its own subgraph, and with k below N only as the appended last entry. */
  lemma NeighbourRowsHoldSelf(s: array2<real>, k: nat, table: seq<seq<nat>>)
    requires s.Length0 == s.Length1 && k < s.Length1 && |table| == s.Length0
    requires forall i, j :: 0 <= i < s.Length0 && 0 <= j < s.Length1 && i != j ==> s[i, i] < s[i, j]
    requires forall i :: 0 <= i < s.Length0 ==>
      |table[i]| == k + 1 && table[i][k] == i && IsTopK(Row(s, i), k, table[i][..k])
    ensures forall i :: 0 <= i < s.Length0 ==> i in table[i] && i !in table[i][..k]
  {
    forall i | 0 <= i < s.Length0
      ensures i in table[i] && i !in table[i][..k]
    {
      SelfNotPicked(Row(s, i), k, table[i][..k], i);
    }
  }

  // ---------------------------------------------------------------------
  // Central node indices in the batched subgraphs
  // ---------------------------------------------------------------------

  /** The node lists of the subgraphs laid end to end, as in the batch. */
  function Flatten(nodes: seq<seq<nat>>): seq<nat>
    decreases |nodes|
  {
    if nodes == [] then [] else Flatten(nodes[..|nodes| - 1]) + nodes[|nodes| - 1]
  }

  /** The batch of the first j subgraphs is a prefix of the whole batch. */
  lemma {:induction false} FlattenPrefix(nodes: seq<seq<nat>>, j: nat)
    requires j <= |nodes|
    ensures |Flatten(nodes[..j])| <= |Flatten(nodes)|
    ensures Flatten(nodes)[..|Flatten(nodes[..j])|] == Flatten(nodes[..j])
    decreases |nodes|
  {
    if j == |nodes| {
      assert nodes[..j] == nodes;
    } else {
      var n := |nodes| - 1;
      assert nodes[..n][..j] == nodes[..j];
      FlattenPrefix(nodes[..n], j);
    }
  }

  /** Position `offset(i) + p` of the batch holds entry p of subgraph i. */
  lemma FlattenAt(nodes: seq<seq<nat>>, i: nat, p: nat)
    requires i < |nodes| && p < |nodes[i]|
    ensures |Flatten(nodes[..i])| + p < |Flatten(nodes)|
    ensures Flatten(nodes)[|Flatten(nodes[..i])| + p] == nodes[i][p]
  {
    FlattenPrefix(nodes, i + 1);
    assert nodes[..i + 1][..i] == nodes[..i];
    assert Flatten(nodes[..i + 1]) == Flatten(nodes[..i]) + nodes[i];
  }

  /** `central_node_indices[i] = offset(i) + local position of node i in subgraph i`. */
  method CentralNodeIndices(offsets: seq<nat>, localPos: seq<nat>) returns (central: seq<nat>)
    requires |offsets| == |localPos|
    ensures |central| == |offsets|
    ensures forall i :: 0 <= i < |central| ==> central[i] == offsets[i] + localPos[i]
  {
    central := seq(|offsets|, _ => 0);
    var i := 0;
    while i < |offsets|
      invariant 0 <= i <= |offsets| && |central| == |offsets|
      invariant forall r :: 0 <= r < i ==> central[r] == offsets[r] + localPos[r]
    {
      central := central[i := offsets[i] + localPos[i]];
      i := i + 1;
    }
  }

  /**
   * When the offsets are those of the batch and each local position locates
   * node i in subgraph i, the picking indices select node i's own row from
   * the batched embeddings.
   */
  lemma CentralIndexPicksNode(nodes: seq<seq<nat>>, offsets: seq<nat>, localPos: seq<nat>, central: seq<nat>, i: nat)
    requires |nodes| == |offsets| == |localPos| == |central| && i < |nodes|
    requires offsets[i] == |Flatten(nodes[..i])|
    requires localPos[i] < |nodes[i]| && nodes[i][localPos[i]] == i
    requires central[i] == offsets[i] + localPos[i]
    ensures central[i] < |Flatten(nodes)| && Flatten(nodes)[central[i]] == i
  {
    FlattenAt(nodes, i, localPos[i]);
  }

  // ---------------------------------------------------------------------
  // The contrastive pairing of `make_loss`
  // ---------------------------------------------------------------------

  /** Every row of m has width d. */
  predicate IsMatrix(m: seq<seq<real>>, d: nat) {
    forall j :: 0 <= j < |m| ==> |m[j]| == d
  }

  /** `m[perm]`: the rows of m in the order of perm; under a permutation, the same rows reordered. */
  function Gather(m: seq<seq<real>>, perm: seq<nat>): (r: seq<seq<real>>)
    requires forall j :: 0 <= j < |perm| ==> perm[j] < |m|
    ensures |r| == |perm| && forall j :: 0 <= j < |perm| ==> r[j] == m[perm[j]]
    ensures IsPermutation(perm, |m|) ==> multiset(r) == multiset(m)
  {
    var r := seq(|perm|, j requires 0 <= j < |perm| => m[perm[j]]);
    if IsPermutation(perm, |m|) then PermutedMultiset(m, perm, r); r else r
  }

  /** `sigmoid((e * s).sum(dim=1))`. */
  function RowScores(e: seq<seq<real>>, s: seq<seq<real>>, d: nat, sigmoid: real -> real): (r: seq<real>)
    requires |e| == |s| && IsMatrix(e, d) && IsMatrix(s, d)
    ensures |r| == |e| && forall j :: 0 <= j < |e| ==> r[j] == sigmoid(Dot(e[j], s[j]))
  {
    seq(|e|, j requires 0 <= j < |e| => sigmoid(Dot(e[j], s[j])))
  }

  datatype PairedScores = PairedScores(positives1: seq<real>, negatives1: seq<real>,
                                       positives2: seq<real>, negatives2: seq<real>)

  /**
   * The four score vectors of `make_loss`. One permutation is applied to both
   * the embeddings and the summaries, so the second view's positives are the
   * first view's positives reordered, and each negative pairs node j with
   * node perm[j] (embedding of one, summary of the other) in both views.
   */
  function Pair(e1: seq<seq<real>>, s1: seq<seq<real>>, d: nat, perm: seq<nat>, sigmoid: real -> real)
    : (r: PairedScores)
    requires |e1| == |s1| && IsMatrix(e1, d) && IsMatrix(s1, d) && IsPermutation(perm, |e1|)
    ensures |r.positives1| == |r.negatives1| == |r.positives2| == |r.negatives2| == |e1|
    ensures forall j :: 0 <= j < |e1| ==> r.positives1[j] == sigmoid(Dot(e1[j], s1[j]))
    ensures forall j :: 0 <= j < |e1| ==> r.positives2[j] == r.positives1[perm[j]]
    ensures forall j :: 0 <= j < |e1| ==> r.negatives1[j] == sigmoid(Dot(e1[j], s1[perm[j]]))
    ensures forall j :: 0 <= j < |e1| ==> r.negatives2[j] == sigmoid(Dot(e1[perm[j]], s1[j]))
  {
    var s2 := Gather(s1, perm);
    var e2 := Gather(e1, perm);
    PairedScores(RowScores(e1, s1, d, sigmoid), RowScores(e1, s2, d, sigmoid),
                 RowScores(e2, s2, d, sigmoid), RowScores(e2, s1, d, sigmoid))
  }

  /** One term of `MarginRankingLoss` with target 1: `max(0, margin - (p - n))`. */
  function Hinge(p: real, n: real, margin: real): real {
    if margin - (p - n) > 0.0 then margin - (p - n) else 0.0
  }

  function HingeSum(ps: seq<real>, ns: seq<real>, margin: real): (r: real)
    requires |ps| == |ns|
    ensures r >= 0.0
    decreases |ps|
  {
    if ps == [] then 0.0 else Hinge(ps[0], ns[0], margin) + HingeSum(ps[1..], ns[1..], margin)
  }

  /** `MarginRankingLoss(margin, reduction='mean')` against an all-ones target: never negative. */
  function MarginRankingLoss(ps: seq<real>, ns: seq<real>, margin: real): (r: real)
    requires |ps| == |ns| > 0
    ensures r >= 0.0
  {
    HingeSum(ps, ns, margin) / (|ps| as real)
  }

  /** Comparing scores with themselves leaves only the margin in every term. */
  lemma {:induction false} HingeSumSelf(ps: seq<real>, margin: real)
    requires margin >= 0.0
    ensures HingeSum(ps, ps, margin) == (|ps| as real) * margin
    decreases |ps|
  {
    if ps != [] {
      HingeSumSelf(ps[1..], margin);
    }
  }

  // ---------------------------------------------------------------------
  // SUBG_CON
  // ---------------------------------------------------------------------

  /** `SUBG_CON`: the neighbour table, the picking indices and the loss settings. */
  class SubgCon {
    const n: nat
    const alpha: real
    const k: nat
    const margin: real
    const neighbours: seq<seq<nat>>
    const centralNodeIndices: seq<nat>

    /**
     * The constructor: `s` is the diffusion matrix, whose diagonal it
     * suppresses in place; `offsets` and `localPos` are what the subgraph
     * batch reports for each subgraph and its central node.
     */
    constructor (alpha: real, k: nat, margin: real, s: array2<real>, offsets: seq<nat>, localPos: seq<nat>)
      requires 0.0 <= alpha <= 1.0 && k > 0
      requires s.Length0 == s.Length1 && 0 < s.Length0 && k <= s.Length0
      requires |offsets| == s.Length0 && |localPos| == s.Length0
      modifies s
      ensures n == s.Length0 && this.alpha == alpha && this.k == k && this.margin == margin
      ensures forall i, j :: 0 <= i < n && 0 <= j < n && i != j ==> s[i, j] == old(s[i, j]) && s[i, i] < s[i, j]
      ensures |neighbours| == n
      ensures forall i :: 0 <= i < n ==>
        |neighbours[i]| == k + 1 && neighbours[i][k] == i && IsTopK(Row(s, i), k, neighbours[i][..k])
      ensures k < n ==> forall i :: 0 <= i < n ==> i !in neighbours[i][..k]
      ensures |centralNodeIndices| == n
      ensures forall i :: 0 <= i < n ==> centralNodeIndices[i] == offsets[i] + localPos[i]
    {
      var _ := SuppressDiagonal(s);
      var table := NeighbourTable(s, k);
      if k < s.Length0 {
        NeighbourRowsHoldSelf(s, k, table);
      }
      var central := CentralNodeIndices(offsets, localPos);
      n := s.Length0;
      this.alpha := alpha;
      this.k := k;
      this.margin := margin;
      neighbours := table;
      centralNodeIndices := central;
    }

    /** `make_loss`: the margin ranking loss of each view against its negatives, summed. */
    function MakeLoss(embeddings: seq<seq<real>>, summaries: seq<seq<real>>, d: nat,
                      perm: seq<nat>, sigmoid: real -> real): (r: real)
      requires |embeddings| == |summaries| == n > 0
      requires IsMatrix(embeddings, d) && IsMatrix(summaries, d) && IsPermutation(perm, n)
      ensures r >= 0.0
    {
      var sc := Pair(embeddings, summaries, d, perm, sigmoid);
      MarginRankingLoss(sc.positives1, sc.negatives1, margin) + MarginRankingLoss(sc.positives2, sc.negatives2, margin)
    }
  }

  /** `arange(n)`: the permutation that changes nothing. */
  function IdentityPerm(n: nat): (r: seq<nat>)
    ensures IsPermutation(r, n) && forall j :: 0 <= j < n ==> r[j] == j
  {
    seq(n, j requires 0 <= j => j as nat)
  }

  /** A score vector ranked against itself costs exactly the margin. */
  lemma MarginRankingLossSelf(ps: seq<real>, margin: real)
    requires |ps| > 0 && margin >= 0.0
    ensures MarginRankingLoss(ps, ps, margin) == margin
  {
    HingeSumSelf(ps, margin);
    var n := |ps| as real;
    assert (n * margin) / n == margin;
  }

  /** With the identity permutation every negative equals its positive, and the loss is twice the margin. */
  lemma IdentityPairingLoss(task: SubgCon, embeddings: seq<seq<real>>, summaries: seq<seq<real>>, d: nat,
                            sigmoid: real -> real)
    requires |embeddings| == |summaries| == task.n > 0 && task.margin >= 0.0
    requires IsMatrix(embeddings, d) && IsMatrix(summaries, d)
    ensures task.MakeLoss(embeddings, summaries, d, IdentityPerm(task.n), sigmoid) == 2.0 * task.margin
  {
    var id := IdentityPerm(task.n);
    var sc := Pair(embeddings, summaries, d, id, sigmoid);
    assert sc.negatives1 == sc.positives1;
    assert sc.positives2 == sc.positives1;
    assert sc.negatives2 == sc.positives1;
    MarginRankingLossSelf(sc.positives1, task.margin);
  }

  // ---------------------------------------------------------------------
  // Graph InfoClust
  // ---------------------------------------------------------------------

  /** `math.ceil`. */
  function Ceil(x: real): (r: int)
    ensures (r - 1) as real < x <= r as real
  {
    -((-x).Floor)
  }

  /** For a positive ratio of at most 1, the number of clusters lies between 1 and the number of nodes. */
  lemma ClusterCountBounds(numNodes: nat, clusterRatio: real)
    requires numNodes > 0 && 0.0 < clusterRatio <= 1.0
    ensures 1 <= Ceil(numNodes as real * clusterRatio) <= numNodes
  {
    assert numNodes as real * clusterRatio <= numNodes as real * 1.0;
  }

  /** `GraphInfoClust`: the blend weight and the cluster count. */
  class GraphInfoClust {
    const alpha: real
    const k: int

    constructor (numNodes: nat, clusterRatio: real, alpha: real)
      requires 0.0 <= alpha <= 1.0
      ensures this.alpha == alpha && k == Ceil(numNodes as real * clusterRatio)
    {
      this.alpha := alpha;
      k := Ceil(numNodes as real * clusterRatio);
    }

    /** `alpha * dgi_loss + (1 - alpha) * cluster_loss`: a convex combination of the two losses. */
    function MakeLoss(dgiLoss: real, clusterLoss: real): (r: real)
      requires 0.0 <= alpha <= 1.0
      ensures (dgiLoss <= clusterLoss ==> dgiLoss <= r <= clusterLoss)
      ensures (clusterLoss <= dgiLoss ==> clusterLoss <= r <= dgiLoss)
      ensures alpha == 1.0 ==> r == dgiLoss
      ensures alpha == 0.0 ==> r == clusterLoss
    {
      var r := alpha * dgiLoss + (1.0 - alpha) * clusterLoss;
      ConvexBetween(alpha, dgiLoss, clusterLoss, r);
      r
    }
  }
}
