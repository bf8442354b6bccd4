/** The pairwise-correlation matrix of a cosym analysis (`_compute_rij_wij`).
    The datasets are n lattices, each a range of rows, and there are m
    symmetry operations; the matrix has NN = n * m rows and columns, and
    entry (i + n * k, j + n * kk) is the correlation between dataset i
    reindexed by operation k and dataset j reindexed by operation kk, computed
    over the reflections the two have in common. Each row block i is built by
    a method that appends to sparse (COO) buffers and caches results keyed by
    the relative operation; the blocks are then summed into dense matrices.

    The crystallographic operations (reindexing, the epsilon factor, the
    relative operation's name) and the numeric core of the Pearson
    coefficient are inputs to the model. */
module CosymRij {
  import opened Results
  import opened CosymRows
  import opened CosymOps
  import opened CosymMatch

  /** What the row blocks read: the lattice lookup, the sorted intensities, and
      for every symmetry operation k the reindexed Miller index and the epsilon
      factor of every row. */
  datatype Prepared = Prepared(
    lattices: seq<nat>,
    nRows: nat,
    intensities: seq<real>,
    indices: seq<seq<Miller>>,
    epsilons: seq<seq<int>>,
    symOps: seq<string>,
    weights: Weights,
    minPairs: int)

  ghost predicate WellFormed(c: Prepared)
  {
    && StrictlyIncreasing(c.lattices)
    && (forall t :: 0 <= t < |c.lattices| ==> c.lattices[t] < c.nRows)
    && |c.intensities| == c.nRows
    && |c.indices| == |c.symOps| && |c.epsilons| == |c.symOps|
    && (forall k :: 0 <= k < |c.symOps| ==> |c.indices[k]| == c.nRows && |c.epsilons[k]| == c.nRows)
  }

  function NLattices(c: Prepared): nat { |c.lattices| }

  function NSymOps(c: Prepared): nat { |c.symOps| }

  /** The rows of lattice t, from `_lattice_lower_upper_index` with an upper
      index of `None` read as the end of the data. */
  function RowRange(c: Prepared, t: nat): (r: (nat, nat))
    requires WellFormed(c) && t < NLattices(c)
    ensures r.0 < r.1 <= c.nRows
    ensures r.0 == c.lattices[t] && r.1 == UpperRow(c.lattices, c.nRows, t)
  {
    var lu := LatticeLowerUpperIndex(c.lattices, t).value;
    (lu.0, if lu.1.Some? then lu.1.value else c.nRows)
  }

  // ---------------------------------------------------------------------
  // One pair of datasets under one pair of operations
  // ---------------------------------------------------------------------

  datatype PairError =
    | MatchFailed        // the extents of two empty index lists
    | IsNanOfNone        // `np.isnan` applied to the `None` of too few pairs
    | LengthMismatch     // pearsonr on lists of different lengths
    | TooFewForPearson   // pearsonr on fewer than two values

  /** The reindexed Miller indices of dataset t under operation k. */
  function DatasetIndices(c: Prepared, t: nat, k: nat): (r: seq<Miller>)
    requires WellFormed(c) && t < NLattices(c) && k < NSymOps(c)
    ensures |r| == RowRange(c, t).1 - RowRange(c, t).0
    ensures forall p :: 0 <= p < |r| ==> r[p] == c.indices[k][RowRange(c, t).0 + p]
  {
    c.indices[k][RowRange(c, t).0..RowRange(c, t).1]
  }

  /** The epsilon factors of dataset t under operation k. */
  function DatasetEpsilons(c: Prepared, t: nat, k: nat): (r: seq<int>)
    requires WellFormed(c) && t < NLattices(c) && k < NSymOps(c)
    ensures |r| == RowRange(c, t).1 - RowRange(c, t).0
    ensures forall p :: 0 <= p < |r| ==> r[p] == c.epsilons[k][RowRange(c, t).0 + p]
  {
    c.epsilons[k][RowRange(c, t).0..RowRange(c, t).1]
  }

  /** The intensities of dataset t. */
  function DatasetIntensities(c: Prepared, t: nat): (r: seq<real>)
    requires WellFormed(c) && t < NLattices(c)
    ensures |r| == RowRange(c, t).1 - RowRange(c, t).0
    ensures forall p :: 0 <= p < |r| ==> r[p] == c.intensities[RowRange(c, t).0 + p]
  {
    c.intensities[RowRange(c, t).0..RowRange(c, t).1]
  }

  /** The matched positions of dataset i under operation k and dataset j under
      operation kk that survive the epsilon filter; the epsilon factors of
      dataset j are read from operation epsOp (the code passes k). */
  function FilteredPairs(c: Prepared, i: nat, j: nat, k: nat, kk: nat, epsOp: nat): (r: Result<(seq<nat>, seq<nat>), MatchError>)
    requires WellFormed(c) && i < NLattices(c) && j < NLattices(c)
    requires k < NSymOps(c) && kk < NSymOps(c) && epsOp < NSymOps(c)
    ensures r.Ok?
    ensures forall t :: 0 <= t < |r.value.0| ==> r.value.0[t] < RowRange(c, i).1 - RowRange(c, i).0
    ensures forall t :: 0 <= t < |r.value.1| ==> r.value.1[t] < RowRange(c, j).1 - RowRange(c, j).0
  {
    var epsilonsI := DatasetEpsilons(c, i, k);
    var epsilonsJ := DatasetEpsilons(c, j, epsOp);
    match MatchMillerIndices(DatasetIndices(c, i, k), DatasetIndices(c, j, kk))
    case Err(e) => Err(e)
    case Ok((p0, p1)) => Ok((KeepEpsilonOne(p0, epsilonsI), KeepEpsilonOne(p1, epsilonsJ)))
  }

  /** The correlation of one pair as the cache stores it: no entry when there
      are fewer than `minPairs` matches or the coefficient is NaN (`pearson`
      returning None), otherwise the coefficient and the number of matches.
      pearsonr rejects lists of different lengths and of fewer than two values. */
  function Correlate(n: nat, minPairs: int, xs: seq<real>, ys: seq<real>, pearson: (seq<real>, seq<real>) -> Option<real>): (r: Result<Option<(real, nat)>, PairError>)
    ensures n < minPairs ==> r == Ok(None)
    ensures r.Err? ==> n >= minPairs && (r.error == LengthMismatch <==> |xs| != |ys|)
    ensures r.Err? ==> r.error == LengthMismatch || (r.error == TooFewForPearson && |xs| < 2)
    ensures r.Ok? && r.value.Some? ==>
      r.value.value.1 == n && n >= minPairs && |xs| == |ys| >= 2 && pearson(xs, ys) == Some(r.value.value.0)
    ensures r.Ok? && r.value.None? ==> n < minPairs || pearson(xs, ys).None?
  {
    if n < minPairs then Ok(None)
    else if |xs| != |ys| then Err(LengthMismatch)
    else if |xs| < 2 then Err(TooFewForPearson)
    else match pearson(xs, ys)
      case None => Ok(None)
      case Some(cc) => Ok(Some((cc, n)))
  }

  /** The same step as the code is written: with fewer than `minPairs`
      matches `cc` is `None`, and the NaN test on it raises. */
  function CorrelateAsWritten(n: nat, minPairs: int, xs: seq<real>, ys: seq<real>, pearson: (seq<real>, seq<real>) -> Option<real>): (r: Result<Option<(real, nat)>, PairError>)
    ensures n < minPairs ==> r == Err(IsNanOfNone)
    ensures n >= minPairs ==> r == Correlate(n, minPairs, xs, ys, pearson)
  {
    if n < minPairs then Err(IsNanOfNone) else Correlate(n, minPairs, xs, ys, pearson)
  }

  /** The cached value `(cc, n)` for dataset i under operation k against
      dataset j under operation kk. */
  function Outcome(c: Prepared, pearson: (seq<real>, seq<real>) -> Option<real>, i: nat, j: nat, k: nat, kk: nat): (r: Result<Option<(real, nat)>, PairError>)
    requires WellFormed(c) && i < NLattices(c) && j < NLattices(c) && k < NSymOps(c) && kk < NSymOps(c)
    ensures r.Err? ==> r.error == LengthMismatch || r.error == TooFewForPearson
    ensures |FilteredPairs(c, i, j, k, kk, k).value.0| < c.minPairs ==> r == Ok(None)
    ensures r.Ok? && r.value.Some? ==> r.value.value.1 == |FilteredPairs(c, i, j, k, kk, k).value.0| >= c.minPairs
  {
    var (selI, selJ) := FilteredPairs(c, i, j, k, kk, k).value;
    Correlate(|selI|, c.minPairs, Take(DatasetIntensities(c, i), selI), Take(DatasetIntensities(c, j), selJ), pearson)
  }

  /** The intended outcome fails only in pearsonr, and never on too few
      pairs; it fails on lengths exactly when the two filtered lists differ. */
  lemma OutcomeErrors(c: Prepared, pearson: (seq<real>, seq<real>) -> Option<real>, i: nat, j: nat, k: nat, kk: nat)
    requires WellFormed(c) && i < NLattices(c) && j < NLattices(c) && k < NSymOps(c) && kk < NSymOps(c)
    ensures Outcome(c, pearson, i, j, k, kk).Err? ==> Outcome(c, pearson, i, j, k, kk).error in {LengthMismatch, TooFewForPearson}
    ensures var (selI, selJ) := FilteredPairs(c, i, j, k, kk, k).value;
      && (|selI| < c.minPairs ==> Outcome(c, pearson, i, j, k, kk) == Ok(None))
      && (Outcome(c, pearson, i, j, k, kk) == Err(LengthMismatch) <==> |selI| >= c.minPairs && |selI| != |selJ|)
  {
  }

  /** The cache's premise, `CC[(a, k), (b, kk)] == CC[(a,), (b, k⁻¹·kk)]`: pairs
      whose relative operations have the same name have the same outcome. */
  ghost predicate KeySound(c: Prepared, pearson: (seq<real>, seq<real>) -> Option<real>, relative: (string, string) -> string, i: nat)
    requires WellFormed(c) && i < NLattices(c)
  {
    forall j, k, kk, k2, kk2 ::
      0 <= j < NLattices(c) && 0 <= k < NSymOps(c) && 0 <= kk < NSymOps(c) && 0 <= k2 < NSymOps(c) && 0 <= kk2 < NSymOps(c) &&
      relative(c.symOps[k], c.symOps[kk]) == relative(c.symOps[k2], c.symOps[kk2]) ==>
        Outcome(c, pearson, i, j, k, kk) == Outcome(c, pearson, i, j, k2, kk2)
  }

  // ---------------------------------------------------------------------
  // The row block, specified without the cache
  // ---------------------------------------------------------------------

  /** Sparse buffers: `row`, `col` and `data` lists. */
  datatype Coo = Coo(rows: seq<nat>, cols: seq<nat>, data: seq<real>)

  const EmptyCoo := Coo([], [], [])

  /** The rij buffers and, when weights are on, the wij buffers. */
  datatype Acc = Acc(rij: Coo, wij: Coo)

  /** Append-only: the stored entries stay, and one more follows them. */
  function Push(b: Coo, row: nat, col: nat, x: real): (r: Coo)
    ensures b.rows <= r.rows && b.cols <= r.cols && b.data <= r.data
    ensures PushedOne(b, r, row, col, x)
  {
    Coo(b.rows + [row], b.cols + [col], b.data + [x])
  }

  /** `b` ends with one more entry than `a`: value x at (row, col). */
  ghost predicate PushedOne(a: Coo, b: Coo, row: nat, col: nat, x: real)
  {
    && |b.rows| == |a.rows| + 1 && |b.cols| == |a.cols| + 1 && |b.data| == |a.data| + 1
    && b.rows[|a.rows|] == row && b.cols[|a.cols|] == col && b.data[|a.data|] == x
  }

  /** Lines 279-291: a pair without a value, or with fewer than `minPairs`
      matches, is left out; otherwise rij gets cc and, with weights, wij gets
      the count at the same position. */
  function Record(c: Prepared, acc: Acc, ik: nat, jk: nat, v: Option<(real, nat)>): (r: Acc)
    ensures v.None? || v.value.1 < c.minPairs ==> r == acc
    ensures v.Some? && v.value.1 >= c.minPairs ==> PushedOne(acc.rij, r.rij, ik, jk, v.value.0)
    ensures !Weighted(c.weights) ==> r.wij == acc.wij
    ensures Weighted(c.weights) && v.Some? && v.value.1 >= c.minPairs ==> PushedOne(acc.wij, r.wij, ik, jk, v.value.1 as real)
  {
    if v.None? || v.value.1 < c.minPairs then acc
    else
      Acc(Push(acc.rij, ik, jk, v.value.0),
          if Weighted(c.weights) then Push(acc.wij, ik, jk, v.value.1 as real) else acc.wij)
  }

  /** `ik = i + n_lattices * k`: the row (or column) of dataset i under operation k. */
  function Position(i: nat, nLattices: nat, k: nat): nat
  {
    MulNonNegative(nLattices, k);
    i + nLattices * k
  }

  /** A table of pair outcomes of one row block, indexed by (j, k, kk). */
  type Outcomes = (nat, nat, nat) -> Result<Option<(real, nat)>, PairError>

  /** The outcome of every pair of row block i, as a table indexed by
      (j, k, kk); positions outside the block read as no value. */
  ghost function PairTable(c: Prepared, pearson: (seq<real>, seq<real>) -> Option<real>, i: nat): Outcomes
  {
    (j: nat, k: nat, kk: nat) =>
      if WellFormed(c) && i < NLattices(c) && j < NLattices(c) && k < NSymOps(c) && kk < NSymOps(c)
      then Outcome(c, pearson, i, j, k, kk) else Ok(None)
  }

  /** pair agrees with Outcome at every (j, k, kk) of row block i. */
  ghost predicate TableOf(c: Prepared, pearson: (seq<real>, seq<real>) -> Option<real>, i: nat,
                          pair: Outcomes)
    requires WellFormed(c) && i < NLattices(c)
  {
    forall j: nat, k: nat, kk: nat {:trigger Outcome(c, pearson, i, j, k, kk)} ::
      j < NLattices(c) && k < NSymOps(c) && kk < NSymOps(c) ==> pair(j, k, kk) == Outcome(c, pearson, i, j, k, kk)
  }

  lemma PairTableIsTable(c: Prepared, pearson: (seq<real>, seq<real>) -> Option<real>, i: nat)
    requires WellFormed(c) && i < NLattices(c)
    ensures TableOf(c, pearson, i, PairTable(c, pearson, i))
  {
  }

  /** One pass of the innermost loop body: the self-correlation is skipped. */
  function StepPair(c: Prepared, pair: Outcomes, acc: Acc, i: nat, j: nat, k: nat, kk: nat): (r: Result<Acc, PairError>)
    ensures i == j && k == kk ==> r == Ok(acc)
    ensures r.Err? <==> PairFails(pair, i, j, k, kk)
    ensures r.Err? ==> pair(j, k, kk) == Err(r.error)
  {
    if i == j && k == kk then Ok(acc)
    else match pair(j, k, kk)
      case Err(e) => Err(e)
      case Ok(v) => Ok(Record(c, acc, Position(i, NLattices(c), k), Position(j, NLattices(c), kk), v))
  }

  /** The first kk passes of the kk loop. */
  function KKLoop(c: Prepared, pair: Outcomes, acc: Acc, i: nat, j: nat, k: nat, kk: nat): Result<Acc, PairError>
  {
    if kk == 0 then Ok(acc)
    else match KKLoop(c, pair, acc, i, j, k, kk - 1)
      case Err(e) => Err(e)
      case Ok(a) => StepPair(c, pair, a, i, j, k, kk - 1)
  }

  /** The first k passes of the k loop. */
  function KLoop(c: Prepared, pair: Outcomes, acc: Acc, i: nat, j: nat, k: nat): Result<Acc, PairError>
  {
    if k == 0 then Ok(acc)
    else match KLoop(c, pair, acc, i, j, k - 1)
      case Err(e) => Err(e)
      case Ok(a) => KKLoop(c, pair, a, i, j, k - 1, NSymOps(c))
  }

  /** The first j passes of the j loop. */
  function JLoop(c: Prepared, pair: Outcomes, acc: Acc, i: nat, j: nat): Result<Acc, PairError>
  {
    if j == 0 then Ok(acc)
    else match JLoop(c, pair, acc, i, j - 1)
      case Err(e) => Err(e)
      case Ok(a) => KLoop(c, pair, a, i, j - 1, NSymOps(c))
  }

  /** A row block's result: the rij buffers and, when weights are on, the wij buffers. */
  datatype Block = Block(rij: Coo, wij: Option<Coo>)

  function Finish(c: Prepared, acc: Acc): Block
  {
    Block(acc.rij, if Weighted(c.weights) then Some(acc.wij) else None)
  }

  /** The block the loops build from a table of outcomes: the first error stops it. */
  function BlockFrom(c: Prepared, pair: Outcomes, i: nat): (r: Result<Block, PairError>)
    ensures r.Ok? ==> (r.value.wij.Some? <==> Weighted(c.weights))
  {
    match JLoop(c, pair, Acc(EmptyCoo, EmptyCoo), i, NLattices(c))
    case Err(e) => Err(e)
    case Ok(acc) => Ok(Finish(c, acc))
  }

  /** Row block i without the cache. */
  ghost function RowBlockSpec(c: Prepared, pearson: (seq<real>, seq<real>) -> Option<real>, i: nat): (r: Result<Block, PairError>)
    ensures r.Ok? ==> (r.value.wij.Some? <==> Weighted(c.weights))
  {
    BlockFrom(c, PairTable(c, pearson, i), i)
  }

  /** A row block fails only inside pearsonr: on filtered lists of different
      lengths or of fewer than two values. */
  lemma RowBlockSpecErrors(c: Prepared, pearson: (seq<real>, seq<real>) -> Option<real>, i: nat)
    ensures RowBlockSpec(c, pearson, i).Err? ==>
      RowBlockSpec(c, pearson, i).error == LengthMismatch || RowBlockSpec(c, pearson, i).error == TooFewForPearson
  {
    var pair := PairTable(c, pearson, i);
    BlockFails(c, pair, i);
    if BlockFrom(c, pair, i).Err? {
      var j, k, kk :| 0 <= j < NLattices(c) && 0 <= k < NSymOps(c) && 0 <= kk < NSymOps(c) && PairFails(pair, i, j, k, kk) &&
        pair(j, k, kk) == Err(BlockFrom(c, pair, i).error);
      if WellFormed(c) && i < NLattices(c) {
        assert pair(j, k, kk) == Outcome(c, pearson, i, j, k, kk);
      }
    }
  }

  lemma {:induction false} KKLoopErrStays(c: Prepared, pair: Outcomes, acc: Acc, i: nat, j: nat, k: nat, kk: nat, e: PairError)
    requires kk <= NSymOps(c)
    requires KKLoop(c, pair, acc, i, j, k, kk) == Err(e)
    ensures KKLoop(c, pair, acc, i, j, k, NSymOps(c)) == Err(e)
    decreases NSymOps(c) - kk
  {
    if kk < NSymOps(c) {
      KKLoopErrStays(c, pair, acc, i, j, k, kk + 1, e);
    }
  }

  lemma {:induction false} KLoopErrStays(c: Prepared, pair: Outcomes, acc: Acc, i: nat, j: nat, k: nat, e: PairError)
    requires k <= NSymOps(c)
    requires KLoop(c, pair, acc, i, j, k) == Err(e)
    ensures KLoop(c, pair, acc, i, j, NSymOps(c)) == Err(e)
    decreases NSymOps(c) - k
  {
    if k < NSymOps(c) {
      KLoopErrStays(c, pair, acc, i, j, k + 1, e);
    }
  }

  lemma {:induction false} JLoopErrStays(c: Prepared, pair: Outcomes, acc: Acc, i: nat, j: nat, e: PairError)
    requires j <= NLattices(c)
    requires JLoop(c, pair, acc, i, j) == Err(e)
    ensures JLoop(c, pair, acc, i, NLattices(c)) == Err(e)
    decreases NLattices(c) - j
  {
    if j < NLattices(c) {
      JLoopErrStays(c, pair, acc, i, j + 1, e);
    }
  }

  /** The buffers are append-only: `b` keeps every entry of `a`, in place. */
  ghost predicate Grows(a: Acc, b: Acc)
  {
    && a.rij.rows <= b.rij.rows && a.rij.cols <= b.rij.cols && a.rij.data <= b.rij.data
    && a.wij.rows <= b.wij.rows && a.wij.cols <= b.wij.cols && a.wij.data <= b.wij.data
  }

  lemma GrowsTransitive(a: Acc, b: Acc, d: Acc)
    requires Grows(a, b) && Grows(b, d)
    ensures Grows(a, d)
  {
  }

  /** One pass only appends. */
  lemma StepPairGrows(c: Prepared, pair: Outcomes, acc: Acc, i: nat, j: nat, k: nat, kk: nat)
    ensures StepPair(c, pair, acc, i, j, k, kk).Ok? ==> Grows(acc, StepPair(c, pair, acc, i, j, k, kk).value)
  {
  }

  /** The kk loop only appends to the buffers it is given. */
  lemma {:induction false} KKLoopGrows(c: Prepared, pair: Outcomes, acc: Acc, i: nat, j: nat, k: nat, kk: nat)
    ensures KKLoop(c, pair, acc, i, j, k, kk).Ok? ==> Grows(acc, KKLoop(c, pair, acc, i, j, k, kk).value)
  {
    if kk > 0 {
      KKLoopGrows(c, pair, acc, i, j, k, kk - 1);
      match KKLoop(c, pair, acc, i, j, k, kk - 1)
      case Err(_) =>
      case Ok(a) =>
        StepPairGrows(c, pair, a, i, j, k, kk - 1);
        if StepPair(c, pair, a, i, j, k, kk - 1).Ok? {
          GrowsTransitive(acc, a, StepPair(c, pair, a, i, j, k, kk - 1).value);
        }
    }
  }

  /** The k loop only appends. */
  lemma {:induction false} KLoopGrows(c: Prepared, pair: Outcomes, acc: Acc, i: nat, j: nat, k: nat)
    ensures KLoop(c, pair, acc, i, j, k).Ok? ==> Grows(acc, KLoop(c, pair, acc, i, j, k).value)
  {
    if k > 0 {
      KLoopGrows(c, pair, acc, i, j, k - 1);
      match KLoop(c, pair, acc, i, j, k - 1)
      case Err(_) =>
      case Ok(a) =>
        KKLoopGrows(c, pair, a, i, j, k - 1, NSymOps(c));
        if KKLoop(c, pair, a, i, j, k - 1, NSymOps(c)).Ok? {
          GrowsTransitive(acc, a, KKLoop(c, pair, a, i, j, k - 1, NSymOps(c)).value);
        }
    }
  }

  /** The j loop only appends: a row block's buffers are built by appending alone. */
  lemma {:induction false} JLoopGrows(c: Prepared, pair: Outcomes, acc: Acc, i: nat, j: nat)
    ensures JLoop(c, pair, acc, i, j).Ok? ==> Grows(acc, JLoop(c, pair, acc, i, j).value)
  {
    if j > 0 {
      JLoopGrows(c, pair, acc, i, j - 1);
      match JLoop(c, pair, acc, i, j - 1)
      case Err(_) =>
      case Ok(a) =>
        KLoopGrows(c, pair, a, i, j - 1, NSymOps(c));
        if KLoop(c, pair, a, i, j - 1, NSymOps(c)).Ok? {
          GrowsTransitive(acc, a, KLoop(c, pair, a, i, j - 1, NSymOps(c)).value);
        }
    }
  }

  /** Pass (j, k, kk) of row block i is not skipped and its outcome is an error. */
  ghost predicate PairFails(pair: Outcomes, i: nat, j: nat, k: nat, kk: nat)
  {
    !(i == j && k == kk) && pair(j, k, kk).Err?
  }

  /** The first kk passes fail exactly when one of them fails, and with the
      error of one of them. */
  lemma {:induction false} KKLoopFails(c: Prepared, pair: Outcomes, acc: Acc, i: nat, j: nat, k: nat, kk: nat)
    ensures KKLoop(c, pair, acc, i, j, k, kk).Err? <==> exists q :: 0 <= q < kk && PairFails(pair, i, j, k, q)
    ensures KKLoop(c, pair, acc, i, j, k, kk).Err? ==>
      exists q :: 0 <= q < kk && PairFails(pair, i, j, k, q) && pair(j, k, q) == Err(KKLoop(c, pair, acc, i, j, k, kk).error)
  {
    if kk > 0 {
      KKLoopFails(c, pair, acc, i, j, k, kk - 1);
      if KKLoop(c, pair, acc, i, j, k, kk - 1).Ok? && PairFails(pair, i, j, k, kk - 1) {
        assert KKLoop(c, pair, acc, i, j, k, kk) == Err(pair(j, k, kk - 1).error);
      }
    }
  }

  /** The first k passes of the k loop fail exactly when one of their pairs
      fails, and with the error of one of them. */
  lemma {:induction false} KLoopFails(c: Prepared, pair: Outcomes, acc: Acc, i: nat, j: nat, k: nat)
    ensures KLoop(c, pair, acc, i, j, k).Err? <==>
      exists p, q :: 0 <= p < k && 0 <= q < NSymOps(c) && PairFails(pair, i, j, p, q)
    ensures KLoop(c, pair, acc, i, j, k).Err? ==>
      exists p, q :: 0 <= p < k && 0 <= q < NSymOps(c) && PairFails(pair, i, j, p, q) &&
        pair(j, p, q) == Err(KLoop(c, pair, acc, i, j, k).error)
  {
    if k > 0 {
      KLoopFails(c, pair, acc, i, j, k - 1);
      match KLoop(c, pair, acc, i, j, k - 1)
      case Err(_) =>
      case Ok(a) => KKLoopFails(c, pair, a, i, j, k - 1, NSymOps(c));
    }
  }

  /** The first j passes of the j loop fail exactly when one of their pairs
      fails, and with the error of one of them. */
  lemma {:induction false} JLoopFails(c: Prepared, pair: Outcomes, acc: Acc, i: nat, j: nat)
    ensures JLoop(c, pair, acc, i, j).Err? <==>
      exists t, p, q :: 0 <= t < j && 0 <= p < NSymOps(c) && 0 <= q < NSymOps(c) && PairFails(pair, i, t, p, q)
    ensures JLoop(c, pair, acc, i, j).Err? ==>
      exists t, p, q :: 0 <= t < j && 0 <= p < NSymOps(c) && 0 <= q < NSymOps(c) && PairFails(pair, i, t, p, q) &&
        pair(t, p, q) == Err(JLoop(c, pair, acc, i, j).error)
  {
    if j > 0 {
      JLoopFails(c, pair, acc, i, j - 1);
      match JLoop(c, pair, acc, i, j - 1)
      case Err(_) =>
      case Ok(a) => KLoopFails(c, pair, a, i, j - 1, NSymOps(c));
    }
  }

  /** A row block fails exactly when one of its pairs that is not skipped
      fails, and then with that pair's error. */
  lemma BlockFails(c: Prepared, pair: Outcomes, i: nat)
    ensures BlockFrom(c, pair, i).Err? <==>
      exists j, k, kk :: 0 <= j < NLattices(c) && 0 <= k < NSymOps(c) && 0 <= kk < NSymOps(c) && PairFails(pair, i, j, k, kk)
    ensures BlockFrom(c, pair, i).Err? ==>
      exists j, k, kk :: 0 <= j < NLattices(c) && 0 <= k < NSymOps(c) && 0 <= kk < NSymOps(c) && PairFails(pair, i, j, k, kk) &&
        pair(j, k, kk) == Err(BlockFrom(c, pair, i).error)
  {
    JLoopFails(c, pair, Acc(EmptyCoo, EmptyCoo), i, NLattices(c));
  }

  /** One pass of the kk loop that yields a value records it. */
  lemma KKLoopStep(c: Prepared, pair: Outcomes, acc: Acc, i: nat, j: nat, k: nat, kk: nat,
                   before: Acc, v: Option<(real, nat)>)
    requires KKLoop(c, pair, acc, i, j, k, kk) == Ok(before)
    requires !(i == j && k == kk) && pair(j, k, kk) == Ok(v)
    ensures KKLoop(c, pair, acc, i, j, k, kk + 1) == Ok(Record(c, before, Position(i, NLattices(c), k), Position(j, NLattices(c), kk), v))
  {
  }

  /** Two tables that agree on every pair of row block i but the skipped
      self-correlations. */
  ghost predicate Agree(c: Prepared, i: nat, p1: Outcomes, p2: Outcomes)
  {
    forall j: nat, k: nat, kk: nat :: j < NLattices(c) && k < NSymOps(c) && kk < NSymOps(c) && !(i == j && k == kk) ==>
      p1(j, k, kk) == p2(j, k, kk)
  }

  lemma {:induction false} KKLoopAgree(c: Prepared, p1: Outcomes,
                                       p2: Outcomes, acc: Acc, i: nat, j: nat, k: nat, kk: nat)
    requires Agree(c, i, p1, p2) && j < NLattices(c) && k < NSymOps(c) && kk <= NSymOps(c)
    ensures KKLoop(c, p1, acc, i, j, k, kk) == KKLoop(c, p2, acc, i, j, k, kk)
  {
    if kk > 0 {
      KKLoopAgree(c, p1, p2, acc, i, j, k, kk - 1);
    }
  }

  lemma {:induction false} KLoopAgree(c: Prepared, p1: Outcomes,
                                      p2: Outcomes, acc: Acc, i: nat, j: nat, k: nat)
    requires Agree(c, i, p1, p2) && j < NLattices(c) && k <= NSymOps(c)
    ensures KLoop(c, p1, acc, i, j, k) == KLoop(c, p2, acc, i, j, k)
  {
    if k > 0 {
      KLoopAgree(c, p1, p2, acc, i, j, k - 1);
      match KLoop(c, p1, acc, i, j, k - 1)
      case Err(_) =>
      case Ok(a) => KKLoopAgree(c, p1, p2, a, i, j, k - 1, NSymOps(c));
    }
  }

  lemma {:induction false} JLoopAgree(c: Prepared, p1: Outcomes,
                                      p2: Outcomes, acc: Acc, i: nat, j: nat)
    requires Agree(c, i, p1, p2) && j <= NLattices(c)
    ensures JLoop(c, p1, acc, i, j) == JLoop(c, p2, acc, i, j)
  {
    if j > 0 {
      JLoopAgree(c, p1, p2, acc, i, j - 1);
      match JLoop(c, p1, acc, i, j - 1)
      case Err(_) =>
      case Ok(a) => KLoopAgree(c, p1, p2, a, i, j - 1, NSymOps(c));
    }
  }

  /** The block depends only on the outcomes, not on how the table holding them is written. */
  lemma BlockFromTable(c: Prepared, pearson: (seq<real>, seq<real>) -> Option<real>, i: nat,
                       pair: Outcomes)
    requires WellFormed(c) && i < NLattices(c) && TableOf(c, pearson, i, pair)
    ensures BlockFrom(c, pair, i) == RowBlockSpec(c, pearson, i)
  {
    var table := PairTable(c, pearson, i);
    PairTableIsTable(c, pearson, i);
    TablesAgree(c, pearson, i, pair, table);
    JLoopAgree(c, pair, table, Acc(EmptyCoo, EmptyCoo), i, NLattices(c));
  }

  /** Two tables of the same outcomes agree. */
  lemma TablesAgree(c: Prepared, pearson: (seq<real>, seq<real>) -> Option<real>, i: nat, p1: Outcomes, p2: Outcomes)
    requires WellFormed(c) && i < NLattices(c) && TableOf(c, pearson, i, p1) && TableOf(c, pearson, i, p2)
    ensures Agree(c, i, p1, p2)
  {
    forall j: nat, k: nat, kk: nat | j < NLattices(c) && k < NSymOps(c) && kk < NSymOps(c) && !(i == j && k == kk)
      ensures p1(j, k, kk) == p2(j, k, kk)
    {
      assert p1(j, k, kk) == Outcome(c, pearson, i, j, k, kk);
    }
  }

  // ---------------------------------------------------------------------
  // The row block as the code computes it
  // ---------------------------------------------------------------------

  /** Every cached value was computed for a pair of operations whose relative
      operation is the key, and is that pair's outcome. */
  ghost predicate CacheSound(c: Prepared, relative: (string, string) -> string, i: nat, pair: Outcomes,
                             cache: map<(nat, nat, string), Option<(real, nat)>>, origin: map<(nat, nat, string), (nat, nat)>)
  {
    forall key :: key in cache ==>
      && key in origin
      && key.0 == i && key.1 < NLattices(c)
      && origin[key].0 < NSymOps(c) && origin[key].1 < NSymOps(c)
      && key.2 == relative(c.symOps[origin[key].0], c.symOps[origin[key].1])
      && pair(key.1, origin[key].0, origin[key].1) == Ok(cache[key])
  }

  /** The cache's premise on a table: same relative operation, same outcome. */
  ghost predicate TableKeySound(c: Prepared, relative: (string, string) -> string, pair: Outcomes)
  {
    forall j: nat, k: nat, kk: nat, k2: nat, kk2: nat {:trigger pair(j, k, kk), pair(j, k2, kk2)} ::
      j < NLattices(c) && k < NSymOps(c) && kk < NSymOps(c) && k2 < NSymOps(c) && kk2 < NSymOps(c) &&
      relative(c.symOps[k], c.symOps[kk]) == relative(c.symOps[k2], c.symOps[kk2]) ==>
        pair(j, k, kk) == pair(j, k2, kk2)
  }

  lemma KeySoundTable(c: Prepared, pearson: (seq<real>, seq<real>) -> Option<real>, relative: (string, string) -> string,
                      i: nat, pair: Outcomes)
    requires WellFormed(c) && i < NLattices(c) && KeySound(c, pearson, relative, i) && TableOf(c, pearson, i, pair)
    ensures TableKeySound(c, relative, pair)
  {
    forall j: nat, k: nat, kk: nat, k2: nat, kk2: nat |
      j < NLattices(c) && k < NSymOps(c) && kk < NSymOps(c) && k2 < NSymOps(c) && kk2 < NSymOps(c) &&
      relative(c.symOps[k], c.symOps[kk]) == relative(c.symOps[k2], c.symOps[kk2])
      ensures pair(j, k, kk) == pair(j, k2, kk2)
    {
      assert pair(j, k, kk) == Outcome(c, pearson, i, j, k, kk);
      assert pair(j, k2, kk2) == Outcome(c, pearson, i, j, k2, kk2);
    }
  }

  /** Lines 279-291: a pair with a value and at least `minPairs` matches is
      appended to the rij buffers and, with weights, its count to the wij
      buffers; any other pair is skipped. */
  method Append(c: Prepared, rij: Coo, wij: Coo, ik: nat, jk: nat, value: Option<(real, nat)>) returns (rij': Coo, wij': Coo)
    ensures Acc(rij', wij') == Record(c, Acc(rij, wij), ik, jk, value)
  {
    rij', wij' := rij, wij;
    if value.None? || value.value.1 < c.minPairs {
      return;
    }
    if Weighted(c.weights) {
      wij' := Push(wij, ik, jk, value.value.1 as real);
    }
    rij' := Push(rij, ik, jk, value.value.0);
  }

  /** Lines 236-277: the pair's value, from the cache when `useCache` is set
      and the key is present, otherwise computed and stored under the key. */
  method LookUp(c: Prepared, pearson: (seq<real>, seq<real>) -> Option<real>, relative: (string, string) -> string,
                useCache: bool, i: nat, j: nat, k: nat, kk: nat,
                cache: map<(nat, nat, string), Option<(real, nat)>>, ghost origin: map<(nat, nat, string), (nat, nat)>, ghost pair: Outcomes)
    returns (outcome: Result<Option<(real, nat)>, PairError>,
             cache': map<(nat, nat, string), Option<(real, nat)>>, ghost origin': map<(nat, nat, string), (nat, nat)>)
    requires WellFormed(c) && i < NLattices(c) && j < NLattices(c) && k < NSymOps(c) && kk < NSymOps(c)
    requires useCache ==> TableKeySound(c, relative, pair)
    requires CacheSound(c, relative, i, pair, cache, origin)
    requires TableOf(c, pearson, i, pair)
    ensures outcome == pair(j, k, kk)
    ensures CacheSound(c, relative, i, pair, cache', origin')
  {
    var key := (i, j, relative(c.symOps[k], c.symOps[kk]));
    if useCache && key in cache {
      CacheHit(c, relative, i, pair, cache, origin, j, k, kk);
      return Ok(cache[key]), cache, origin;
    }
    outcome := Outcome(c, pearson, i, j, k, kk);
    assert outcome == pair(j, k, kk);
    if outcome.Err? {
      return outcome, cache, origin;
    }
    CacheInsert(c, relative, i, pair, cache, origin, j, k, kk, outcome.value);
    cache' := cache[key := outcome.value];
    origin' := origin[key := (k, kk)];
  }

  /** A cached value is the pair's outcome when pairs with the same relative
      operation share their outcome. */
  lemma CacheHit(c: Prepared, relative: (string, string) -> string, i: nat, pair: Outcomes,
                 cache: map<(nat, nat, string), Option<(real, nat)>>, origin: map<(nat, nat, string), (nat, nat)>,
                 j: nat, k: nat, kk: nat)
    requires j < NLattices(c) && k < NSymOps(c) && kk < NSymOps(c)
    requires TableKeySound(c, relative, pair) && CacheSound(c, relative, i, pair, cache, origin)
    requires (i, j, relative(c.symOps[k], c.symOps[kk])) in cache
    ensures pair(j, k, kk) == Ok(cache[(i, j, relative(c.symOps[k], c.symOps[kk]))])
  {
    var key := (i, j, relative(c.symOps[k], c.symOps[kk]));
    var (k2, kk2) := origin[key];
    assert pair(j, k2, kk2) == Ok(cache[key]);
    assert pair(j, k, kk) == pair(j, k2, kk2);
  }

  /** Storing a pair's outcome under its key keeps the cache sound. */
  lemma CacheInsert(c: Prepared, relative: (string, string) -> string, i: nat, pair: Outcomes,
                    cache: map<(nat, nat, string), Option<(real, nat)>>, origin: map<(nat, nat, string), (nat, nat)>,
                    j: nat, k: nat, kk: nat, v: Option<(real, nat)>)
    requires j < NLattices(c) && k < NSymOps(c) && kk < NSymOps(c)
    requires CacheSound(c, relative, i, pair, cache, origin) && pair(j, k, kk) == Ok(v)
    ensures var key := (i, j, relative(c.symOps[k], c.symOps[kk]));
      CacheSound(c, relative, i, pair, cache[key := v], origin[key := (k, kk)])
  {
    var key := (i, j, relative(c.symOps[k], c.symOps[kk]));
    var (cache', origin') := (cache[key := v], origin[key := (k, kk)]);
    forall key' | key' in cache'
      ensures key' in origin' && key'.0 == i && key'.1 < NLattices(c)
      ensures origin'[key'].0 < NSymOps(c) && origin'[key'].1 < NSymOps(c)
      ensures key'.2 == relative(c.symOps[origin'[key'].0], c.symOps[origin'[key'].1])
      ensures pair(key'.1, origin'[key'].0, origin'[key'].1) == Ok(cache'[key'])
    {
      if key' != key {
        assert key' in cache;
      }
    }
  }

  /** Lines 226-291, the kk loop of one (j, k) pass: every pair is looked up
      or computed, and appended; the first error stops the pass. */
  method KKPass(c: Prepared, pearson: (seq<real>, seq<real>) -> Option<real>, relative: (string, string) -> string,
                useCache: bool, i: nat, j: nat, k: nat, acc: Acc,
                cache: map<(nat, nat, string), Option<(real, nat)>>, ghost origin: map<(nat, nat, string), (nat, nat)>,
                ghost pair: Outcomes)
    returns (r: Result<Acc, PairError>,
             cache': map<(nat, nat, string), Option<(real, nat)>>, ghost origin': map<(nat, nat, string), (nat, nat)>)
    requires WellFormed(c) && i < NLattices(c) && j < NLattices(c) && k < NSymOps(c)
    requires useCache ==> TableKeySound(c, relative, pair)
    requires CacheSound(c, relative, i, pair, cache, origin)
    requires TableOf(c, pearson, i, pair)
    ensures r == KKLoop(c, pair, acc, i, j, k, NSymOps(c))
    ensures CacheSound(c, relative, i, pair, cache', origin')
  {
    cache', origin' := cache, origin;
    var rij, wij := acc.rij, acc.wij;
    for kk := 0 to NSymOps(c)
      invariant KKLoop(c, pair, acc, i, j, k, kk) == Ok(Acc(rij, wij))
      invariant CacheSound(c, relative, i, pair, cache', origin')
    {
      if !(i == j && k == kk) {
        var ik := Position(i, NLattices(c), k);
        var jk := Position(j, NLattices(c), kk);
        var outcome;
        outcome, cache', origin' := LookUp(c, pearson, relative, useCache, i, j, k, kk, cache', origin', pair);
        assert pair(j, k, kk) == outcome;
        if outcome.Err? {
          assert KKLoop(c, pair, acc, i, j, k, kk + 1) == Err(outcome.error);
          KKLoopErrStays(c, pair, acc, i, j, k, kk + 1, outcome.error);
          return Err(outcome.error), cache', origin';
        }
        var value := outcome.value;
        ghost var before := Acc(rij, wij);
        rij, wij := Append(c, rij, wij, ik, jk, value);
        KKLoopStep(c, pair, acc, i, j, k, kk, before, value);
      }
    }
    r := Ok(Acc(rij, wij));
  }

  /** Lines 221-291, the k loop of one j pass. */
  method KPass(c: Prepared, pearson: (seq<real>, seq<real>) -> Option<real>, relative: (string, string) -> string,
               useCache: bool, i: nat, j: nat, acc: Acc,
               cache: map<(nat, nat, string), Option<(real, nat)>>, ghost origin: map<(nat, nat, string), (nat, nat)>,
               ghost pair: Outcomes)
    returns (r: Result<Acc, PairError>,
             cache': map<(nat, nat, string), Option<(real, nat)>>, ghost origin': map<(nat, nat, string), (nat, nat)>)
    requires WellFormed(c) && i < NLattices(c) && j < NLattices(c)
    requires useCache ==> TableKeySound(c, relative, pair)
    requires CacheSound(c, relative, i, pair, cache, origin)
    requires TableOf(c, pearson, i, pair)
    ensures r == KLoop(c, pair, acc, i, j, NSymOps(c))
    ensures CacheSound(c, relative, i, pair, cache', origin')
  {
    cache', origin' := cache, origin;
    var current := acc;
    for k := 0 to NSymOps(c)
      invariant KLoop(c, pair, acc, i, j, k) == Ok(current)
      invariant CacheSound(c, relative, i, pair, cache', origin')
    {
      var pass;
      pass, cache', origin' := KKPass(c, pearson, relative, useCache, i, j, k, current, cache', origin', pair);
      if pass.Err? {
        assert KLoop(c, pair, acc, i, j, k + 1) == Err(pass.error);
        KLoopErrStays(c, pair, acc, i, j, k + 1, pass.error);
        return Err(pass.error), cache', origin';
      }
      current := pass.value;
    }
    r := Ok(current);
  }

  /** The j loop of a row block, against the table of pair outcomes. */
  method JPass(c: Prepared, pearson: (seq<real>, seq<real>) -> Option<real>, relative: (string, string) -> string,
               useCache: bool, i: nat, ghost pair: Outcomes) returns (r: Result<Acc, PairError>)
    requires WellFormed(c) && i < NLattices(c)
    requires useCache ==> TableKeySound(c, relative, pair)
    requires TableOf(c, pearson, i, pair)
    ensures r == JLoop(c, pair, Acc(EmptyCoo, EmptyCoo), i, NLattices(c))
  {
    var cache: map<(nat, nat, string), Option<(real, nat)>> := map[];
    ghost var origin: map<(nat, nat, string), (nat, nat)> := map[];
    var acc := Acc(EmptyCoo, EmptyCoo);
    for j := 0 to NLattices(c)
      invariant JLoop(c, pair, Acc(EmptyCoo, EmptyCoo), i, j) == Ok(acc)
      invariant CacheSound(c, relative, i, pair, cache, origin)
    {
      var pass;
      pass, cache, origin := KPass(c, pearson, relative, useCache, i, j, acc, cache, origin, pair);
      if pass.Err? {
        assert JLoop(c, pair, Acc(EmptyCoo, EmptyCoo), i, j + 1) == Err(pass.error);
        JLoopErrStays(c, pair, Acc(EmptyCoo, EmptyCoo), i, j + 1, pass.error);
        return Err(pass.error);
      }
      acc := pass.value;
    }
    r := Ok(acc);
  }

  /** `_compute_rij_matrix_one_row_block(i)`: the j, k, kk loops fill the rij
      (and wij) buffers, looking each pair up in the block's cache first when
      `useCache` is set. Without the cache, or when the cache's premise holds,
      the block is exactly its specification. */
  method RowBlock(c: Prepared, pearson: (seq<real>, seq<real>) -> Option<real>, relative: (string, string) -> string,
                  useCache: bool, i: nat) returns (r: Result<Block, PairError>)
    requires WellFormed(c) && i < NLattices(c)
    requires useCache ==> KeySound(c, pearson, relative, i)
    ensures r == RowBlockSpec(c, pearson, i)
  {
    PairTableIsTable(c, pearson, i);
    ghost var pair :| TableOf(c, pearson, i, pair);
    BlockFromTable(c, pearson, i, pair);
    if useCache {
      KeySoundTable(c, pearson, relative, i, pair);
    }
    var acc := JPass(c, pearson, relative, useCache, i, pair);
    if acc.Err? {
      return Err(acc.error);
    }
    r := Ok(Finish(c, acc.value));
  }
}
