/** The pair outcome as `_compute_rij_wij` is written (lines 264-275): with
    fewer than `min_pairs` matches it sets `cc` to `None` and then applies
    `np.isnan` to it, which raises, so any such pair aborts the whole
    computation. The rest of the model uses the evidently intended outcome,
    in which such a pair is simply not stored (`CosymRij.Outcome`). */
module CosymFindings {
  import opened Results
  import opened CosymRows
  import opened CosymOps
  import opened CosymMatch
  import opened CosymRij

  /** The cached value as the code computes it: with fewer than `min_pairs`
      matches the NaN test on `cc = None` raises; otherwise the code goes on to
      pearsonr exactly as the intended outcome does. */
  function OutcomeAsWritten(c: Prepared, pearson: (seq<real>, seq<real>) -> Option<real>, i: nat, j: nat, k: nat, kk: nat): (r: Result<Option<(real, nat)>, PairError>)
    requires WellFormed(c) && i < NLattices(c) && j < NLattices(c) && k < NSymOps(c) && kk < NSymOps(c)
    ensures r == Err(IsNanOfNone) <==> |FilteredPairs(c, i, j, k, kk, k).value.0| < c.minPairs
    ensures |FilteredPairs(c, i, j, k, kk, k).value.0| >= c.minPairs ==> r == Outcome(c, pearson, i, j, k, kk)
  {
    var n := |FilteredPairs(c, i, j, k, kk, k).value.0|;
    if n < c.minPairs then Err(IsNanOfNone)
    else
      OutcomeErrors(c, pearson, i, j, k, kk);
      Outcome(c, pearson, i, j, k, kk)
  }

  /** Two datasets of one reflection each, with no index in common, under the
      identity alone and the default `min_pairs` of 3. */
  function TwoDisjointDatasets(): (c: Prepared)
    ensures WellFormed(c) && NLattices(c) == 2 && NSymOps(c) == 1
  {
    Prepared([0, 1], 2, [1.0, 2.0], [[(1, 0, 0), (0, 1, 0)]], [[1, 1]], ["x,y,z"], Unweighted, 3)
  }

  /** On those datasets the two have no common reflection: as written the
      pair aborts the computation, where the intended outcome stores nothing. */
  lemma DisjointDatasetsAbortAsWritten(pearson: (seq<real>, seq<real>) -> Option<real>)
    ensures OutcomeAsWritten(TwoDisjointDatasets(), pearson, 0, 1, 0, 0) == Err(IsNanOfNone)
    ensures Outcome(TwoDisjointDatasets(), pearson, 0, 1, 0, 0) == Ok(None)
  {
    DisjointPair(pearson, 0, 1);
  }

  /** Datasets without a common Miller index keep no pair. */
  lemma NoCommonIndexNoPairs(c: Prepared, i: nat, j: nat, k: nat, kk: nat)
    requires WellFormed(c) && i < NLattices(c) && j < NLattices(c) && k < NSymOps(c) && kk < NSymOps(c)
    requires forall p, q :: 0 <= p < |DatasetIndices(c, i, k)| && 0 <= q < |DatasetIndices(c, j, kk)| ==>
      DatasetIndices(c, i, k)[p] != DatasetIndices(c, j, kk)[q]
    ensures |FilteredPairs(c, i, j, k, kk, k).value.0| == 0
  {
    var indices0, indices1 := DatasetIndices(c, i, k), DatasetIndices(c, j, kk);
    var (p0, p1) := MatchMillerIndices(indices0, indices1).value;
    if |p0| > 0 {
      MatchSound(indices0, indices1, 0);
    }
    assert FilteredPairs(c, i, j, k, kk, k).value.0 == KeepEpsilonOne(p0, DatasetEpsilons(c, i, k));
  }

  /** Either order of the two datasets of `TwoDisjointDatasets` matches nothing. */
  lemma DisjointNoMatch(i: nat, j: nat)
    requires i < 2 && j < 2 && i != j
    ensures |FilteredPairs(TwoDisjointDatasets(), i, j, 0, 0, 0).value.0| == 0
  {
    var c := TwoDisjointDatasets();
    assert DatasetIndices(c, 0, 0) == [(1, 0, 0)] && DatasetIndices(c, 1, 0) == [(0, 1, 0)];
    NoCommonIndexNoPairs(c, i, j, 0, 0);
  }

  /** So either pair raises as written and stores nothing as intended. */
  lemma DisjointPair(pearson: (seq<real>, seq<real>) -> Option<real>, i: nat, j: nat)
    requires i < 2 && j < 2 && i != j
    ensures OutcomeAsWritten(TwoDisjointDatasets(), pearson, i, j, 0, 0) == Err(IsNanOfNone)
    ensures Outcome(TwoDisjointDatasets(), pearson, i, j, 0, 0) == Ok(None)
  {
    DisjointNoMatch(i, j);
  }

  // ---------------------------------------------------------------------
  // The row block and the matrix as written
  // ---------------------------------------------------------------------

  /** The outcome of every pair of row block i as the code is written. */
  ghost function AsWrittenTable(c: Prepared, pearson: (seq<real>, seq<real>) -> Option<real>, i: nat): Outcomes
  {
    (j: nat, k: nat, kk: nat) =>
      if WellFormed(c) && i < NLattices(c) && j < NLattices(c) && k < NSymOps(c) && kk < NSymOps(c)
      then OutcomeAsWritten(c, pearson, i, j, k, kk) else Ok(None)
  }

  /** `_compute_rij_matrix_one_row_block(i)` as written: the same loops over
      the as-written outcomes. The cache changes nothing here, since a failing
      pair is never cached. */
  ghost function RowBlockAsWritten(c: Prepared, pearson: (seq<real>, seq<real>) -> Option<real>, i: nat): Result<Block, PairError>
  {
    BlockFrom(c, AsWrittenTable(c, pearson, i), i)
  }

  /** Pass (j, k, kk) of row block i is visited and keeps fewer than
      `minPairs` matches after the epsilon filter. */
  ghost predicate ShortPair(c: Prepared, i: nat, j: nat, k: nat, kk: nat)
    requires WellFormed(c) && i < NLattices(c) && j < NLattices(c) && k < NSymOps(c) && kk < NSymOps(c)
  {
    !(i == j && k == kk) && |FilteredPairs(c, i, j, k, kk, k).value.0| < c.minPairs
  }

  ghost predicate HasShortPair(c: Prepared, i: nat)
    requires WellFormed(c) && i < NLattices(c)
  {
    exists j, k, kk :: 0 <= j < NLattices(c) && 0 <= k < NSymOps(c) && 0 <= kk < NSymOps(c) && ShortPair(c, i, j, k, kk)
  }

  /** A short pair makes the as-written row block fail. */
  lemma ShortPairAborts(c: Prepared, pearson: (seq<real>, seq<real>) -> Option<real>, i: nat, j: nat, k: nat, kk: nat)
    requires WellFormed(c) && i < NLattices(c) && j < NLattices(c) && k < NSymOps(c) && kk < NSymOps(c)
    requires ShortPair(c, i, j, k, kk)
    ensures RowBlockAsWritten(c, pearson, i).Err?
  {
    var written := AsWrittenTable(c, pearson, i);
    assert written(j, k, kk) == OutcomeAsWritten(c, pearson, i, j, k, kk);
    assert PairFails(written, i, j, k, kk);
    BlockFails(c, written, i);
  }

  /** Without a short pair the as-written outcomes are the intended ones on
      every visited pass. */
  lemma NoShortPairAgrees(c: Prepared, pearson: (seq<real>, seq<real>) -> Option<real>, i: nat)
    requires WellFormed(c) && i < NLattices(c) && !HasShortPair(c, i)
    ensures Agree(c, i, AsWrittenTable(c, pearson, i), PairTable(c, pearson, i))
  {
    var written, intended := AsWrittenTable(c, pearson, i), PairTable(c, pearson, i);
    forall j: nat, k: nat, kk: nat | j < NLattices(c) && k < NSymOps(c) && kk < NSymOps(c) && !(i == j && k == kk)
      ensures written(j, k, kk) == intended(j, k, kk)
    {
      assert !ShortPair(c, i, j, k, kk);
      assert written(j, k, kk) == OutcomeAsWritten(c, pearson, i, j, k, kk);
      assert intended(j, k, kk) == Outcome(c, pearson, i, j, k, kk);
    }
  }

  /** As written, a row block with a short pair aborts; a row block without
      one is exactly the intended block. So the as-written block fails exactly
      when it has a short pair or the intended block fails. */
  lemma RowBlockAbortsAsWritten(c: Prepared, pearson: (seq<real>, seq<real>) -> Option<real>, i: nat)
    requires WellFormed(c) && i < NLattices(c)
    ensures HasShortPair(c, i) ==> RowBlockAsWritten(c, pearson, i).Err?
    ensures !HasShortPair(c, i) ==> RowBlockAsWritten(c, pearson, i) == RowBlockSpec(c, pearson, i)
    ensures RowBlockAsWritten(c, pearson, i).Err? <==> HasShortPair(c, i) || RowBlockSpec(c, pearson, i).Err?
  {
    if HasShortPair(c, i) {
      var j, k, kk :| 0 <= j < NLattices(c) && 0 <= k < NSymOps(c) && 0 <= kk < NSymOps(c) && ShortPair(c, i, j, k, kk);
      ShortPairAborts(c, pearson, i, j, k, kk);
    } else {
      NoShortPairAgrees(c, pearson, i);
      JLoopAgree(c, AsWrittenTable(c, pearson, i), PairTable(c, pearson, i), Acc(EmptyCoo, EmptyCoo), i, NLattices(c));
    }
  }

  /** `_compute_rij_wij` as written aborts when any row block does. */
  ghost predicate AbortsAsWritten(c: Prepared, pearson: (seq<real>, seq<real>) -> Option<real>)
    requires WellFormed(c)
  {
    exists i :: 0 <= i < NLattices(c) && RowBlockAsWritten(c, pearson, i).Err?
  }

  /** The whole computation as written aborts exactly when some row block has
      a short pair or fails as intended; when it does not abort, every block,
      and so the merged matrices, are the intended ones. */
  lemma ComputeAbortsAsWritten(c: Prepared, pearson: (seq<real>, seq<real>) -> Option<real>)
    requires WellFormed(c)
    ensures AbortsAsWritten(c, pearson) <==>
      exists i :: 0 <= i < NLattices(c) && (HasShortPair(c, i) || RowBlockSpec(c, pearson, i).Err?)
    ensures !AbortsAsWritten(c, pearson) ==>
      forall i :: 0 <= i < NLattices(c) ==> RowBlockAsWritten(c, pearson, i) == RowBlockSpec(c, pearson, i)
  {
    forall i | 0 <= i < NLattices(c)
      ensures RowBlockAsWritten(c, pearson, i).Err? <==> HasShortPair(c, i) || RowBlockSpec(c, pearson, i).Err?
      ensures !HasShortPair(c, i) ==> RowBlockAsWritten(c, pearson, i) == RowBlockSpec(c, pearson, i)
    {
      RowBlockAbortsAsWritten(c, pearson, i);
    }
  }

  /** A row block whose visited passes all have an outcome succeeds. */
  lemma BlockOkWhenOutcomesOk(c: Prepared, pearson: (seq<real>, seq<real>) -> Option<real>, i: nat)
    requires WellFormed(c) && i < NLattices(c)
    requires forall j, k, kk :: 0 <= j < NLattices(c) && 0 <= k < NSymOps(c) && 0 <= kk < NSymOps(c) && !(i == j && k == kk) ==>
      Outcome(c, pearson, i, j, k, kk).Ok?
    ensures RowBlockSpec(c, pearson, i).Ok?
  {
    var table := PairTable(c, pearson, i);
    PairTableIsTable(c, pearson, i);
    BlockFails(c, table, i);
  }

  /** On `TwoDisjointDatasets` every intended row block succeeds: its only
      visited pass stores nothing. */
  lemma DisjointBlockOk(pearson: (seq<real>, seq<real>) -> Option<real>, i: nat)
    requires i < 2
    ensures RowBlockSpec(TwoDisjointDatasets(), pearson, i).Ok?
  {
    var c := TwoDisjointDatasets();
    forall j, k, kk | 0 <= j < NLattices(c) && 0 <= k < NSymOps(c) && 0 <= kk < NSymOps(c) && !(i == j && k == kk)
      ensures Outcome(c, pearson, i, j, k, kk).Ok?
    {
      DisjointPair(pearson, i, j);
    }
    BlockOkWhenOutcomesOk(c, pearson, i);
  }

  /** As written, row block 0 of `TwoDisjointDatasets` raises the TypeError. */
  lemma DisjointBlockAbortsAsWritten(pearson: (seq<real>, seq<real>) -> Option<real>)
    ensures RowBlockAsWritten(TwoDisjointDatasets(), pearson, 0) == Err(IsNanOfNone)
  {
    var c := TwoDisjointDatasets();
    var written := AsWrittenTable(c, pearson, 0);
    DisjointPair(pearson, 0, 1);
    assert written(1, 0, 0) == Err(IsNanOfNone);
    assert !PairFails(written, 0, 0, 0, 0);
    BlockFails(c, written, 0);
  }

  /** So on `TwoDisjointDatasets` the intended rij is computed, with no
      entry, while as written the whole computation aborts. */
  lemma DisjointDatasetsMatrixAbortsAsWritten(pearson: (seq<real>, seq<real>) -> Option<real>)
    ensures forall i :: 0 <= i < 2 ==> RowBlockSpec(TwoDisjointDatasets(), pearson, i).Ok?
    ensures RowBlockAsWritten(TwoDisjointDatasets(), pearson, 0) == Err(IsNanOfNone)
    ensures AbortsAsWritten(TwoDisjointDatasets(), pearson)
  {
    forall i | 0 <= i < 2
      ensures RowBlockSpec(TwoDisjointDatasets(), pearson, i).Ok?
    {
      DisjointBlockOk(pearson, i);
    }
    DisjointBlockAbortsAsWritten(pearson);
    assert 0 < NLattices(TwoDisjointDatasets()) && RowBlockAsWritten(TwoDisjointDatasets(), pearson, 0).Err?;
  }
}
