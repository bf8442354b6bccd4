/** Building a cosym target (`Target.__init__`, the first loop of
    `_compute_rij_wij`) and evaluating it (`compute_functional`). The data
    are taken as already changed to the primitive setting and mapped to the
    asymmetric unit; reindexing by a symmetry operation and the Patterson
    group's epsilon factor are parameters. The target value at coordinates x
    is half the weighted sum of squared residuals between the rij matrix and
    the Gram matrix of x reshaped to (dim, n_lattices * n_sym_ops). */
module CosymTarget {
  import opened Results
  import opened CosymRows
  import opened CosymOps
  import opened CosymMatch
  import opened CosymRij
  import opened CosymEpsilon
  import opened RealSigns

  // ---------------------------------------------------------------------
  // Construction
  // ---------------------------------------------------------------------

  /** The indices of the data under every symmetry operation, and the
      epsilon factor of every reindexed index, operation by operation. */
  method Precompute(symOps: seq<string>, indices: seq<Miller>, reindex: (string, Miller) -> Miller, eps: Miller -> int)
    returns (reindexed: seq<seq<Miller>>, epsilons: seq<seq<int>>)
    ensures |reindexed| == |symOps| && |epsilons| == |symOps|
    ensures forall k :: 0 <= k < |symOps| ==> |reindexed[k]| == |indices| && |epsilons[k]| == |indices|
    ensures forall k, p :: 0 <= k < |symOps| && 0 <= p < |indices| ==> reindexed[k][p] == reindex(symOps[k], indices[p])
    ensures forall k, p :: 0 <= k < |symOps| && 0 <= p < |indices| ==> epsilons[k][p] == eps(reindexed[k][p])
  {
    reindexed, epsilons := [], [];
    for k := 0 to |symOps|
      invariant |reindexed| == k && |epsilons| == k
      invariant forall u :: 0 <= u < k ==> |reindexed[u]| == |indices| && |epsilons[u]| == |indices|
      invariant forall u, p :: 0 <= u < k && 0 <= p < |indices| ==> reindexed[u][p] == reindex(symOps[u], indices[p])
      invariant forall u, p :: 0 <= u < k && 0 <= p < |indices| ==> epsilons[u][p] == eps(reindexed[u][p])
    {
      var op := symOps[k];
      var row := seq(|indices|, p requires 0 <= p < |indices| => reindex(op, indices[p]));
      reindexed := reindexed + [row];
      epsilons := epsilons + [seq(|row|, p requires 0 <= p < |row| => eps(row[p]))];
    }
  }

  /** The `as_xyz` name of every operator. */
  function Names(ops: seq<RtMx>, asXyz: RtMx -> string): (names: seq<string>)
    ensures |names| == |ops| && forall t :: 0 <= t < |ops| ==> names[t] == asXyz(ops[t])
  {
    seq(|ops|, t requires 0 <= t < |ops| => asXyz(ops[t]))
  }

  /** The coset partitions the twin operators are drawn from: none after the
      first is empty. */
  predicate PartitionsUsable(partitions: seq<seq<RtMx>>)
  {
    |partitions| <= 1 || AllNonEmpty(partitions[1..])
  }

  /** The twin operators of usable partitions. */
  function TwinOperators(partitions: seq<seq<RtMx>>, apply: RtMx -> RtMx): seq<RtMx>
    requires PartitionsUsable(partitions)
  {
    if |partitions| <= 1 then [] else KeptRepresentatives(partitions[1..], apply)
  }

  datatype InitError = BadWeights(weightsError: WeightsError) | BadPartitions(twinError: TwinError)

  /** A constructed target before its rij matrix is computed: the prepared
      data and the number of dimensions. */
  datatype Setup = Setup(c: Prepared, dim: int)

  /** The constructor: checks the weighting scheme, sorts the data by
      lattice id, finds the lattices, collects the symmetry operations from
      the twin operators, fixes the dimensions and reindexes the data by
      every operation. */
  method Init(intensities: seq<real>, indices: seq<Miller>, latticeIds: seq<int>, order: seq<nat>,
              weights: Option<string>, minPairs: int,
              partitions: seq<seq<RtMx>>, apply: RtMx -> RtMx, asXyz: RtMx -> string,
              dimensions: Option<int>, reindex: (string, Miller) -> Miller, eps: Miller -> int)
    returns (r: Result<Setup, InitError>)
    requires |intensities| == |latticeIds| && |indices| == |latticeIds|
    requires IsArgsort(latticeIds, order)
    ensures r.Ok? <==> ParseWeights(weights).Ok? && PartitionsUsable(partitions)
    ensures ParseWeights(weights).Err? ==> r == Err(BadWeights(ParseWeights(weights).error))
    ensures ParseWeights(weights).Ok? && !PartitionsUsable(partitions) ==> r == Err(BadPartitions(EmptyPartition))
    ensures r.Ok? ==>
      var c := r.value.c;
      && WellFormed(c) && EpsilonsOf(c, eps)
      && c.nRows == |latticeIds|
      && Sorted(Take(latticeIds, order))
      && c.lattices == Lattices(Take(latticeIds, order))
      && c.intensities == Take(intensities, order)
      && c.symOps == SymOps(Names(TwinOperators(partitions, apply), asXyz))
      && c.weights == ParseWeights(weights).value
      && c.minPairs == minPairs
      && (forall k, p :: 0 <= k < |c.symOps| && 0 <= p < c.nRows ==> c.indices[k][p] == reindex(c.symOps[k], indices[order[p]]))
      && r.value.dim == Dimensions(dimensions, c.symOps)
  {
    var w := ParseWeights(weights);
    if w.Err? {
      return Err(BadWeights(w.error));
    }
    var sortedData := Take(intensities, order);
    var sortedIndices := Take(indices, order);
    var sortedIds := Take(latticeIds, order);
    TakeArgsortSorted(latticeIds, order);
    var lattices := Lattices(sortedIds);
    var twins := GenerateTwinOperators(partitions, apply);
    if twins.Err? {
      assert twins.error == EmptyPartition;
      return Err(BadPartitions(twins.error));
    }
    var symOps := SymOps(Names(twins.value, asXyz));
    var dim := Dimensions(dimensions, symOps);
    var reindexed, epsilons := Precompute(symOps, sortedIndices, reindex, eps);
    var c := Prepared(lattices, |sortedIds|, sortedData, reindexed, epsilons, symOps, w.value, minPairs);
    r := Ok(Setup(c, dim));
  }

  // ---------------------------------------------------------------------
  // The target function
  // ---------------------------------------------------------------------

  /** Python's `//` on integers: the quotient rounded towards minus infinity. */
  function FloorDiv(a: int, b: int): (q: int)
    requires b != 0
    ensures b > 0 ==> b * q <= a < b * q + b
    ensures b < 0 ==> b * q + b < a <= b * q
  {
    if b > 0 then a / b
    else
      var m := -b;
      var t := (a + m - 1) / m;
      assert m * t <= a + m - 1 < m * t + m;
      assert b * -t == m * t;
      -t
  }

  /** For a positive divisor the floor quotient is the one q with
      b * q <= a < b * q + b. */
  lemma FloorDivIs(a: int, b: int, q: int)
    ensures b > 0 ==> (FloorDiv(a, b) == q <==> b * q <= a < b * q + b)
  {
    if b > 0 && b * q <= a < b * q + b {
      var f := FloorDiv(a, b);
      MulAddInjective(f, a - b * f, q, a - b * q, b);
    }
  }

  /** An n x n matrix. */
  predicate Square(m: seq<seq<real>>, n: nat)
  {
    |m| == n && forall r :: 0 <= r < n ==> |m[r]| == n
  }

  datatype FunctionalError =
    | DivisionByZero  // `x.size // self.dim` with a zero dimension
    | SizeAssertion   // the assertion on the number of coordinates
    | ReshapeFailed   // `reshape` to a shape that does not hold x.size values

  lemma CoordinateIndex(d: nat, r: nat, n: nat, dim: nat)
    requires d < dim && r < n
    ensures d * n + r < dim * n
  {
    MulNonNegative(dim - d - 1, n);
    MulSubtract(dim, d + 1, n);
    MulSubtract(d + 1, d, n);
  }

  /** Entry (r, c) of `x.T @ x` over the first e of the dim rows of x
      reshaped to (dim, n): row d holds the coordinates d * n .. d * n + n - 1. */
  function Gram(x: seq<real>, dim: nat, n: nat, r: nat, c: nat, e: nat): (g: real)
    requires |x| == dim * n && r < n && c < n && e <= dim
    ensures r == c ==> g >= 0.0
  {
    if e == 0 then 0.0
    else
      CoordinateIndex(e - 1, r, n, dim);
      CoordinateIndex(e - 1, c, n, dim);
      Gram(x, dim, n, r, c, e - 1) + x[(e - 1) * n + r] * x[(e - 1) * n + c]
  }

  /** The weight of entry (r, c): `wij[r][c]`, or 1 without weights. */
  function Weight(wij: Option<seq<seq<real>>>, n: nat, r: nat, c: nat): real
    requires (wij.Some? ==> Square(wij.value, n)) && r < n && c < n
  {
    if wij.Some? then wij.value[r][c] else 1.0
  }

  /** The weighted squared residual of entry (r, c). */
  function Term(rij: seq<seq<real>>, wij: Option<seq<seq<real>>>, x: seq<real>, dim: nat, n: nat, r: nat, c: nat): real
    requires Square(rij, n) && (wij.Some? ==> Square(wij.value, n))
    requires |x| == dim * n && r < n && c < n
  {
    WeightedSquare(Weight(wij, n, r, c), rij[r][c] - Gram(x, dim, n, r, c, dim))
  }

  /** The sum of the terms of row r in columns 0 .. m - 1. */
  function RowSum(rij: seq<seq<real>>, wij: Option<seq<seq<real>>>, x: seq<real>, dim: nat, n: nat, r: nat, m: nat): real
    requires Square(rij, n) && (wij.Some? ==> Square(wij.value, n))
    requires |x| == dim * n && r < n && m <= n
  {
    if m == 0 then 0.0 else RowSum(rij, wij, x, dim, n, r, m - 1) + Term(rij, wij, x, dim, n, r, m - 1)
  }

  /** The sum of the terms of rows 0 .. m - 1. */
  function Total(rij: seq<seq<real>>, wij: Option<seq<seq<real>>>, x: seq<real>, dim: nat, n: nat, m: nat): real
    requires Square(rij, n) && (wij.Some? ==> Square(wij.value, n))
    requires |x| == dim * n && m <= n
  {
    if m == 0 then 0.0 else Total(rij, wij, x, dim, n, m - 1) + RowSum(rij, wij, x, dim, n, m - 1, n)
  }

  /** `compute_functional` for a target of n = n_lattices * n_sym_ops rows:
      the size assertion, the reshape and half the weighted sum of squared
      residuals. */
  function ComputeFunctional(dim: int, n: nat, rij: seq<seq<real>>, wij: Option<seq<seq<real>>>, x: seq<real>): (f: Result<real, FunctionalError>)
    requires Square(rij, n) && (wij.Some? ==> Square(wij.value, n))
    ensures f.Ok? <==> dim > 0 && |x| == dim * n
    ensures dim == 0 ==> f == Err(DivisionByZero)
    ensures dim > 0 ==> (f == Err(SizeAssertion) <==> !(dim * n <= |x| < dim * n + dim))
    ensures dim > 0 && dim * n < |x| < dim * n + dim ==> f == Err(ReshapeFailed)
  {
    if dim == 0 then Err(DivisionByZero)
    else
      FloorDivIs(|x|, dim, n);
      if FloorDiv(|x|, dim) != n then Err(SizeAssertion)
      else if dim < 0 || |x| != dim * n then Err(ReshapeFailed)
      else Ok(0.5 * Total(rij, wij, x, dim, n, n))
  }

  /** No weight is negative. */
  predicate NonNegativeWeights(wij: Option<seq<seq<real>>>, n: nat)
    requires wij.Some? ==> Square(wij.value, n)
  {
    wij.Some? ==> forall r, c :: 0 <= r < n && 0 <= c < n ==> wij.value[r][c] >= 0.0
  }

  /** With a non-negative weight a term is non-negative; it is zero when its
      weight or its residual is, and non-zero otherwise. */
  lemma TermZero(rij: seq<seq<real>>, wij: Option<seq<seq<real>>>, x: seq<real>, dim: nat, n: nat, r: nat, c: nat)
    requires Square(rij, n) && (wij.Some? ==> Square(wij.value, n)) && NonNegativeWeights(wij, n)
    requires |x| == dim * n && r < n && c < n
    ensures Term(rij, wij, x, dim, n, r, c) >= 0.0
    ensures Weight(wij, n, r, c) == 0.0 || rij[r][c] == Gram(x, dim, n, r, c, dim) ==> Term(rij, wij, x, dim, n, r, c) == 0.0
    ensures Weight(wij, n, r, c) != 0.0 && rij[r][c] != Gram(x, dim, n, r, c, dim) ==> Term(rij, wij, x, dim, n, r, c) != 0.0
  {
    var w := Weight(wij, n, r, c);
    var e := rij[r][c] - Gram(x, dim, n, r, c, dim);
    WeightedSquareSign(w, e);
  }

  /** A row sum is non-negative and vanishes exactly when each of its terms does. */
  lemma {:induction false} RowSumZero(rij: seq<seq<real>>, wij: Option<seq<seq<real>>>, x: seq<real>, dim: nat, n: nat, r: nat, m: nat)
    requires Square(rij, n) && (wij.Some? ==> Square(wij.value, n)) && NonNegativeWeights(wij, n)
    requires |x| == dim * n && r < n && m <= n
    ensures RowSum(rij, wij, x, dim, n, r, m) >= 0.0
    ensures RowSum(rij, wij, x, dim, n, r, m) == 0.0 <==> forall c :: 0 <= c < m ==> Term(rij, wij, x, dim, n, r, c) == 0.0
  {
    if m > 0 {
      RowSumZero(rij, wij, x, dim, n, r, m - 1);
      TermZero(rij, wij, x, dim, n, r, m - 1);
      forall c | 0 <= c < m - 1 {
        TermZero(rij, wij, x, dim, n, r, c);
      }
    }
  }

  /** The total is non-negative and vanishes exactly when each of its terms does. */
  lemma {:induction false} TotalZero(rij: seq<seq<real>>, wij: Option<seq<seq<real>>>, x: seq<real>, dim: nat, n: nat, m: nat)
    requires Square(rij, n) && (wij.Some? ==> Square(wij.value, n)) && NonNegativeWeights(wij, n)
    requires |x| == dim * n && m <= n
    ensures Total(rij, wij, x, dim, n, m) >= 0.0
    ensures Total(rij, wij, x, dim, n, m) == 0.0 <==>
      forall r, c :: 0 <= r < m && 0 <= c < n ==> Term(rij, wij, x, dim, n, r, c) == 0.0
  {
    if m > 0 {
      TotalZero(rij, wij, x, dim, n, m - 1);
      RowSumZero(rij, wij, x, dim, n, m - 1, n);
    }
  }

  /** With non-negative weights the target function is never negative, and
      it is zero exactly when `x.T @ x` reproduces every entry of rij that
      carries a non-zero weight (every entry, without weights). */
  lemma FunctionalZeroIffFit(dim: int, n: nat, rij: seq<seq<real>>, wij: Option<seq<seq<real>>>, x: seq<real>)
    requires Square(rij, n) && (wij.Some? ==> Square(wij.value, n)) && NonNegativeWeights(wij, n)
    requires ComputeFunctional(dim, n, rij, wij, x).Ok?
    ensures ComputeFunctional(dim, n, rij, wij, x).value >= 0.0
    ensures ComputeFunctional(dim, n, rij, wij, x).value == 0.0 <==>
      forall r, c :: 0 <= r < n && 0 <= c < n ==>
        Weight(wij, n, r, c) == 0.0 || rij[r][c] == Gram(x, dim, n, r, c, dim)
  {
    var d: nat := dim;
    assert ComputeFunctional(dim, n, rij, wij, x).value == 0.5 * Total(rij, wij, x, d, n, n);
    TotalZero(rij, wij, x, d, n, n);
    forall r, c | 0 <= r < n && 0 <= c < n
      ensures Term(rij, wij, x, d, n, r, c) == 0.0 <==> Weight(wij, n, r, c) == 0.0 || rij[r][c] == Gram(x, d, n, r, c, d)
    {
      TermZero(rij, wij, x, d, n, r, c);
    }
  }
}
