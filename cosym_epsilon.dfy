/** The epsilon filter of a pair of datasets (`_compute_rij_wij`, lines
    259-264). The matched positions of both datasets are filtered separately,
    each by its own list of epsilon factors, and the factors of dataset j are
    read from operation k (the operation of dataset i) rather than kk. When
    both lists are filtered by the factors of their own reindexed indices the
    two stay paired; when the epsilon factor does not change under the
    symmetry operations, reading it from k is the same as reading it from kk. */
module CosymEpsilon {
  import opened Results
  import opened CosymRows
  import opened CosymMatch
  import opened CosymRij

  /** The epsilon factors were computed from the reindexed indices they sit
      beside: entry p under operation k is the factor of index p under k. */
  ghost predicate EpsilonsOf(c: Prepared, eps: Miller -> int)
    requires WellFormed(c)
  {
    forall k, p :: 0 <= k < NSymOps(c) && 0 <= p < c.nRows ==> c.epsilons[k][p] == eps(c.indices[k][p])
  }

  /** The epsilon factor of every row is the same under every operation. */
  ghost predicate EpsilonInvariant(c: Prepared)
    requires WellFormed(c)
  {
    forall k, kk :: 0 <= k < NSymOps(c) && 0 <= kk < NSymOps(c) ==> c.epsilons[k] == c.epsilons[kk]
  }

  /** Filtering both sides of a list of equal-index pairs by the epsilon
      factors of their own indices keeps the pairs together: both sides keep
      the same number of positions, and their u-th positions hold equal indices. */
  lemma FilterPaired(indices0: seq<Miller>, eps0: seq<int>, p0: seq<nat>, indices1: seq<Miller>, eps1: seq<int>, p1: seq<nat>, eps: Miller -> int)
    requires |eps0| == |indices0| && |eps1| == |indices1| && |p0| == |p1|
    requires forall t :: 0 <= t < |p0| ==> p0[t] < |indices0| && p1[t] < |indices1| && indices0[p0[t]] == indices1[p1[t]]
    requires forall p :: 0 <= p < |indices0| ==> eps0[p] == eps(indices0[p])
    requires forall q :: 0 <= q < |indices1| ==> eps1[q] == eps(indices1[q])
    ensures var (s0, s1) := (KeepEpsilonOne(p0, eps0), KeepEpsilonOne(p1, eps1));
      && |s0| == |s1|
      && forall u :: 0 <= u < |s0| ==> s0[u] < |indices0| && s1[u] < |indices1| && indices0[s0[u]] == indices1[s1[u]]
  {
    var ts := KeepEpsilonOnePaired(p0, eps0, p1, eps1);
  }

  /** Matching two index lists and filtering each side by the epsilon factors
      of its own indices keeps the matched pairs together. */
  lemma MatchThenFilterPaired(indices0: seq<Miller>, eps0: seq<int>, indices1: seq<Miller>, eps1: seq<int>, eps: Miller -> int)
    requires |indices0| + |indices1| > 0 && |eps0| == |indices0| && |eps1| == |indices1|
    requires forall p :: 0 <= p < |indices0| ==> eps0[p] == eps(indices0[p])
    requires forall q :: 0 <= q < |indices1| ==> eps1[q] == eps(indices1[q])
    ensures var (p0, p1) := MatchMillerIndices(indices0, indices1).value;
      var (s0, s1) := (KeepEpsilonOne(p0, eps0), KeepEpsilonOne(p1, eps1));
      && |s0| == |s1|
      && forall u :: 0 <= u < |s0| ==> s0[u] < |indices0| && s1[u] < |indices1| && indices0[s0[u]] == indices1[s1[u]]
  {
    var (p0, p1) := MatchMillerIndices(indices0, indices1).value;
    MatchPairsEqual(indices0, indices1);
    FilterPaired(indices0, eps0, p0, indices1, eps1, p1, eps);
  }

  /** With the epsilon factors of dataset j read from its own operation kk,
      the two filtered lists keep the matched pairs together: they have the
      same length, and their u-th entries are rows with equal reindexed indices. */
  lemma IntendedFilterPaired(c: Prepared, eps: Miller -> int, i: nat, j: nat, k: nat, kk: nat)
    requires WellFormed(c) && i < NLattices(c) && j < NLattices(c) && k < NSymOps(c) && kk < NSymOps(c)
    requires EpsilonsOf(c, eps)
    ensures var (selI, selJ) := FilteredPairs(c, i, j, k, kk, kk).value;
      && |selI| == |selJ|
      && forall u :: 0 <= u < |selI| ==> DatasetIndices(c, i, k)[selI[u]] == DatasetIndices(c, j, kk)[selJ[u]]
  {
    DatasetEpsilonsOf(c, eps, i, k);
    DatasetEpsilonsOf(c, eps, j, kk);
    MatchThenFilterPaired(DatasetIndices(c, i, k), DatasetEpsilons(c, i, k), DatasetIndices(c, j, kk), DatasetEpsilons(c, j, kk), eps);
  }

  /** Each dataset's epsilon factors are those of its own indices. */
  lemma DatasetEpsilonsOf(c: Prepared, eps: Miller -> int, t: nat, k: nat)
    requires WellFormed(c) && t < NLattices(c) && k < NSymOps(c) && EpsilonsOf(c, eps)
    ensures forall p :: 0 <= p < |DatasetIndices(c, t, k)| ==> DatasetEpsilons(c, t, k)[p] == eps(DatasetIndices(c, t, k)[p])
  {
  }

  /** When the epsilon factor does not depend on the operation, reading the
      factors of dataset j from operation k filters as reading them from kk. */
  lemma AsWrittenFilterIsIntended(c: Prepared, i: nat, j: nat, k: nat, kk: nat)
    requires WellFormed(c) && i < NLattices(c) && j < NLattices(c) && k < NSymOps(c) && kk < NSymOps(c)
    requires EpsilonInvariant(c)
    ensures FilteredPairs(c, i, j, k, kk, k) == FilteredPairs(c, i, j, k, kk, kk)
  {
    assert DatasetEpsilons(c, j, k) == DatasetEpsilons(c, j, kk) by {
      assert c.epsilons[k] == c.epsilons[kk];
    }
  }

  /** ... and then the filter as written keeps the matched pairs together, so
      the pearsonr inputs pair reflections with equal indices and the length
      check never fails. */
  lemma AsWrittenFilterPaired(c: Prepared, eps: Miller -> int, pearson: (seq<real>, seq<real>) -> Option<real>,
                              i: nat, j: nat, k: nat, kk: nat)
    requires WellFormed(c) && i < NLattices(c) && j < NLattices(c) && k < NSymOps(c) && kk < NSymOps(c)
    requires EpsilonsOf(c, eps) && EpsilonInvariant(c)
    ensures var (selI, selJ) := FilteredPairs(c, i, j, k, kk, k).value;
      && |selI| == |selJ|
      && forall u :: 0 <= u < |selI| ==> DatasetIndices(c, i, k)[selI[u]] == DatasetIndices(c, j, kk)[selJ[u]]
    ensures Outcome(c, pearson, i, j, k, kk) != Err(LengthMismatch)
  {
    AsWrittenFilterIsIntended(c, i, j, k, kk);
    IntendedFilterPaired(c, eps, i, j, k, kk);
    OutcomeErrors(c, pearson, i, j, k, kk);
  }

  // ---------------------------------------------------------------------
  // The mirrored pair
  // ---------------------------------------------------------------------

  /** The Pearson coefficient does not depend on the order of its two lists. */
  ghost predicate PearsonSymmetric(pearson: (seq<real>, seq<real>) -> Option<real>)
  {
    forall xs, ys :: pearson(xs, ys) == pearson(ys, xs)
  }

  /** With invariant epsilon factors, the filtered pairs of dataset j under kk
      against dataset i under k are those of i under k against j under kk,
      with the two position lists exchanged. */
  lemma FilteredPairsMirror(c: Prepared, i: nat, j: nat, k: nat, kk: nat)
    requires WellFormed(c) && i < NLattices(c) && j < NLattices(c) && k < NSymOps(c) && kk < NSymOps(c)
    requires EpsilonInvariant(c)
    ensures var (selI, selJ) := FilteredPairs(c, i, j, k, kk, k).value;
      FilteredPairs(c, j, i, kk, k, kk) == Ok((selJ, selI))
  {
    MatchSwapped(DatasetIndices(c, i, k), DatasetIndices(c, j, kk));
    assert c.epsilons[k] == c.epsilons[kk];
    assert DatasetEpsilons(c, j, k) == DatasetEpsilons(c, j, kk);
    assert DatasetEpsilons(c, i, kk) == DatasetEpsilons(c, i, k);
  }

  /** Under those premises both filtered lists have one length. */
  lemma PairedLengths(c: Prepared, eps: Miller -> int, pearson: (seq<real>, seq<real>) -> Option<real>,
                      i: nat, j: nat, k: nat, kk: nat)
    requires WellFormed(c) && i < NLattices(c) && j < NLattices(c) && k < NSymOps(c) && kk < NSymOps(c)
    requires EpsilonsOf(c, eps) && EpsilonInvariant(c)
    ensures |FilteredPairs(c, i, j, k, kk, k).value.0| == |FilteredPairs(c, i, j, k, kk, k).value.1|
  {
    AsWrittenFilterPaired(c, eps, pearson, i, j, k, kk);
  }

  /** Correlating two lists of one length is symmetric in the lists. */
  lemma CorrelateMirror(n: nat, minPairs: int, xs: seq<real>, ys: seq<real>, pearson: (seq<real>, seq<real>) -> Option<real>)
    requires PearsonSymmetric(pearson) && |xs| == |ys|
    ensures Correlate(n, minPairs, xs, ys, pearson) == Correlate(n, minPairs, ys, xs, pearson)
  {
    assert pearson(xs, ys) == pearson(ys, xs);
  }

  /** The outcome of dataset i under k against dataset j under kk is the
      outcome of j under kk against i under k, when the epsilon factors are
      those of the indices and do not depend on the operation and the
      coefficient is symmetric. */
  lemma OutcomeMirror(c: Prepared, eps: Miller -> int, pearson: (seq<real>, seq<real>) -> Option<real>,
                      i: nat, j: nat, k: nat, kk: nat)
    requires WellFormed(c) && i < NLattices(c) && j < NLattices(c) && k < NSymOps(c) && kk < NSymOps(c)
    requires EpsilonsOf(c, eps) && EpsilonInvariant(c) && PearsonSymmetric(pearson)
    ensures Outcome(c, pearson, i, j, k, kk) == Outcome(c, pearson, j, i, kk, k)
  {
    var (selI, selJ) := FilteredPairs(c, i, j, k, kk, k).value;
    FilteredPairsMirror(c, i, j, k, kk);
    PairedLengths(c, eps, pearson, i, j, k, kk);
    CorrelateMirror(|selI|, c.minPairs, Take(DatasetIntensities(c, i), selI), Take(DatasetIntensities(c, j), selJ), pearson);
  }
}
