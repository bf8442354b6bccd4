/** The assembled correlation matrix of a cosym analysis. Row block i holds
    only rows i + n * k; the blocks are summed (a union, since their rows are
    disjoint) and turned into dense NN x NN matrices, and under the
    "standard_error" scheme the counts are replaced by inverse standard
    errors where there are more than two pairs. */
module CosymMatrix {
  import opened Results
  import opened CosymOps
  import opened CosymMatch
  import opened CosymRij
  import opened CosymEpsilon

  // ---------------------------------------------------------------------
  // Positions i + n * k
  // ---------------------------------------------------------------------

  /** A position splits back into its dataset and its operation. */
  lemma PositionDivMod(i: nat, n: nat, k: nat)
    requires i < n
    ensures Position(i, n, k) % n == i && Position(i, n, k) / n == k
  {
    var x := Position(i, n, k);
    MulAddInjective(k, i, x / n, x % n, n);
  }

  /** x is the position of (j, q) exactly when j and q are its remainder and quotient. */
  lemma PositionIs(x: nat, j: nat, n: nat, q: nat)
    requires j < n
    ensures x == Position(j, n, q) <==> x % n == j && x / n == q
  {
    PositionDivMod(j, n, q);
    SplitPosition(x, n, 0);
  }

  /** The quotient and remainder of a natural number by a positive one are natural. */
  lemma QuotientRemainder(x: nat, n: nat) returns (q: nat, r: nat)
    requires n > 0
    ensures q == x / n && r == x % n && r < n
  {
    q, r := x / n, x % n;
  }

  /** Every position below n * m is the position of its remainder and quotient. */
  lemma SplitPosition(x: nat, n: nat, m: nat)
    requires n > 0
    ensures x % n < n && x == Position(x % n, n, x / n)
    ensures x < n * m <==> x / n < m
  {
    var q := x / n;
    if q < m {
      MulNonNegative(m - q - 1, n);
      MulSubtract(m, q, n);
    } else {
      MulNonNegative(q - m, n);
      MulSubtract(q, m, n);
    }
  }

  /** Distinct (dataset, operation) pairs have distinct positions. */
  lemma PositionInjective(i: nat, k: nat, j: nat, kk: nat, n: nat)
    requires i < n && j < n
    ensures Position(i, n, k) == Position(j, n, kk) <==> i == j && k == kk
  {
    PositionDivMod(i, n, k);
    PositionDivMod(j, n, kk);
  }

  // ---------------------------------------------------------------------
  // Sparse buffers as matrices
  // ---------------------------------------------------------------------

  /** The row, column and data lists have one entry each per stored value. */
  ghost predicate CooWF(b: Coo)
  {
    |b.rows| == |b.data| && |b.cols| == |b.data|
  }

  /** Entry (r, col) of the matrix the buffers describe: the sum of the values
      stored there, as `coo_matrix` sums duplicates. */
  function CooAt(b: Coo, r: nat, col: nat): (v: real)
    requires CooWF(b)
    ensures (forall t :: 0 <= t < |b.data| ==> b.rows[t] != r || b.cols[t] != col) ==> v == 0.0
    decreases |b.data|
  {
    if |b.data| == 0 then 0.0
    else
      var last := |b.data| - 1;
      CooAt(Coo(b.rows[..last], b.cols[..last], b.data[..last]), r, col)
        + (if b.rows[last] == r && b.cols[last] == col then b.data[last] else 0.0)
  }

  /** Appending one value adds it at its own position and nowhere else. */
  lemma CooAtPush(b: Coo, row: nat, col: nat, x: real, r: nat, c: nat)
    requires CooWF(b)
    ensures CooWF(Push(b, row, col, x))
    ensures CooAt(Push(b, row, col, x), r, c) == CooAt(b, r, c) + (if row == r && col == c then x else 0.0)
  {
    var p := Push(b, row, col, x);
    assert Coo(p.rows[..|b.data|], p.cols[..|b.data|], p.data[..|b.data|]) == b;
  }

  /** `a += b` on sparse matrices: the entries of both. */
  function Concat(a: Coo, b: Coo): (r: Coo)
    ensures CooWF(a) && CooWF(b) ==> CooWF(r) && |r.data| == |a.data| + |b.data|
  {
    Coo(a.rows + b.rows, a.cols + b.cols, a.data + b.data)
  }

  /** Adding to an empty sparse matrix gives the matrix added. */
  lemma ConcatEmpty(b: Coo)
    ensures Concat(EmptyCoo, b) == b
  {
    assert [] + b.rows == b.rows && [] + b.cols == b.cols && [] + b.data == b.data;
  }

  /** The sum of two sparse matrices is their entrywise sum. */
  lemma {:induction false} CooAtConcat(a: Coo, b: Coo, r: nat, c: nat)
    requires CooWF(a) && CooWF(b)
    ensures CooWF(Concat(a, b))
    ensures CooAt(Concat(a, b), r, c) == CooAt(a, r, c) + CooAt(b, r, c)
    decreases |b.data|
  {
    if |b.data| == 0 {
      assert Concat(a, b) == a;
    } else {
      var last := |b.data| - 1;
      var front := Coo(b.rows[..last], b.cols[..last], b.data[..last]);
      CooAtConcat(a, front, r, c);
      assert Concat(a, b) == Push(Concat(a, front), b.rows[last], b.cols[last], b.data[last]);
      CooAtPush(Concat(a, front), b.rows[last], b.cols[last], b.data[last], r, c);
    }
  }

  // ---------------------------------------------------------------------
  // What each pass contributes
  // ---------------------------------------------------------------------

  /** The value pass (j, k, kk) of row block i stores: none for the
      self-correlation, for an error, for a missing value or for fewer than
      `minPairs` matches; otherwise the coefficient and the count. */
  function Recorded(c: Prepared, pair: Outcomes, i: nat, j: nat, k: nat, kk: nat): Option<(real, nat)>
  {
    if i == j && k == kk then None
    else match pair(j, k, kk)
      case Ok(Some(v)) => if v.1 >= c.minPairs then Some(v) else None
      case _ => None
  }

  /** The rij entry of a stored value (zero where nothing is stored). */
  function RijOf(v: Option<(real, nat)>): real
  {
    if v.Some? then v.value.0 else 0.0
  }

  /** The wij entry of a stored value (zero where nothing is stored). */
  function WijOf(v: Option<(real, nat)>): real
  {
    if v.Some? then v.value.1 as real else 0.0
  }

  /** One pass adds its stored value at its own position. */
  lemma StepPairAt(c: Prepared, pair: Outcomes, acc: Acc, i: nat, j: nat, k: nat, kk: nat, a: Acc, r: nat, col: nat)
    requires CooWF(acc.rij) && CooWF(acc.wij)
    requires StepPair(c, pair, acc, i, j, k, kk) == Ok(a)
    ensures CooWF(a.rij) && CooWF(a.wij)
    ensures CooAt(a.rij, r, col) == CooAt(acc.rij, r, col) +
      (if r == Position(i, NLattices(c), k) && col == Position(j, NLattices(c), kk)
       then RijOf(Recorded(c, pair, i, j, k, kk)) else 0.0)
    ensures CooAt(a.wij, r, col) == CooAt(acc.wij, r, col) +
      (if Weighted(c.weights) && r == Position(i, NLattices(c), k) && col == Position(j, NLattices(c), kk)
       then WijOf(Recorded(c, pair, i, j, k, kk)) else 0.0)
  {
    var n := NLattices(c);
    var rec := Recorded(c, pair, i, j, k, kk);
    if rec.Some? {
      var v := rec.value;
      assert a == Record(c, acc, Position(i, n, k), Position(j, n, kk), Some(v));
      CooAtPush(acc.rij, Position(i, n, k), Position(j, n, kk), v.0, r, col);
      if Weighted(c.weights) {
        CooAtPush(acc.wij, Position(i, n, k), Position(j, n, kk), v.1 as real, r, col);
      }
    } else {
      assert a == acc;
    }
  }

  /** The passes kk' < kk of operation k add, at the position of dataset ri
      under operation rk and dataset cj under operation ck, what pass ck stores
      when that position is theirs. */
  lemma {:induction false} KKLoopAt(c: Prepared, pair: Outcomes, acc: Acc, i: nat, j: nat, k: nat, kk: nat, a: Acc,
                                    ri: nat, rk: nat, cj: nat, ck: nat)
    requires i < NLattices(c) && j < NLattices(c) && kk <= NSymOps(c) && ri < NLattices(c) && cj < NLattices(c)
    requires CooWF(acc.rij) && CooWF(acc.wij)
    requires KKLoop(c, pair, acc, i, j, k, kk) == Ok(a)
    ensures CooWF(a.rij) && CooWF(a.wij)
    ensures var (r, col) := (Position(ri, NLattices(c), rk), Position(cj, NLattices(c), ck));
      CooAt(a.rij, r, col) == CooAt(acc.rij, r, col) +
        (if ri == i && rk == k && cj == j && ck < kk then RijOf(Recorded(c, pair, i, j, k, ck)) else 0.0)
    ensures var (r, col) := (Position(ri, NLattices(c), rk), Position(cj, NLattices(c), ck));
      CooAt(a.wij, r, col) == CooAt(acc.wij, r, col) +
        (if Weighted(c.weights) && ri == i && rk == k && cj == j && ck < kk then WijOf(Recorded(c, pair, i, j, k, ck)) else 0.0)
    decreases kk
  {
    var n := NLattices(c);
    if kk == 0 {
      return;
    }
    var prev := KKLoop(c, pair, acc, i, j, k, kk - 1).value;
    KKLoopAt(c, pair, acc, i, j, k, kk - 1, prev, ri, rk, cj, ck);
    StepPairAt(c, pair, prev, i, j, k, kk - 1, a, Position(ri, n, rk), Position(cj, n, ck));
    PositionInjective(ri, rk, i, k, n);
    PositionInjective(cj, ck, j, kk - 1, n);
  }

  /** The passes k' < k of row block i against dataset j add, at the position
      of dataset ri under operation rk and dataset cj under operation ck, what
      pass (rk, ck) stores when that position is theirs. */
  lemma {:induction false} KLoopAt(c: Prepared, pair: Outcomes, acc: Acc, i: nat, j: nat, k: nat, a: Acc,
                                   ri: nat, rk: nat, cj: nat, ck: nat)
    requires i < NLattices(c) && j < NLattices(c) && k <= NSymOps(c) && ri < NLattices(c) && cj < NLattices(c)
    requires CooWF(acc.rij) && CooWF(acc.wij)
    requires KLoop(c, pair, acc, i, j, k) == Ok(a)
    ensures CooWF(a.rij) && CooWF(a.wij)
    ensures var (r, col) := (Position(ri, NLattices(c), rk), Position(cj, NLattices(c), ck));
      CooAt(a.rij, r, col) == CooAt(acc.rij, r, col) +
        (if ri == i && rk < k && cj == j && ck < NSymOps(c) then RijOf(Recorded(c, pair, i, j, rk, ck)) else 0.0)
    ensures var (r, col) := (Position(ri, NLattices(c), rk), Position(cj, NLattices(c), ck));
      CooAt(a.wij, r, col) == CooAt(acc.wij, r, col) +
        (if Weighted(c.weights) && ri == i && rk < k && cj == j && ck < NSymOps(c) then WijOf(Recorded(c, pair, i, j, rk, ck)) else 0.0)
    decreases k
  {
    if k == 0 {
      return;
    }
    var prev := KLoop(c, pair, acc, i, j, k - 1).value;
    KLoopAt(c, pair, acc, i, j, k - 1, prev, ri, rk, cj, ck);
    KKLoopAt(c, pair, prev, i, j, k - 1, NSymOps(c), a, ri, rk, cj, ck);
  }

  /** The passes j' < j of row block i add, at the position of dataset ri
      under operation rk and dataset cj under operation ck, what pass
      (cj, rk, ck) stores when that position is theirs. */
  lemma {:induction false} JLoopAt(c: Prepared, pair: Outcomes, acc: Acc, i: nat, j: nat, a: Acc,
                                   ri: nat, rk: nat, cj: nat, ck: nat)
    requires i < NLattices(c) && j <= NLattices(c) && ri < NLattices(c) && cj < NLattices(c)
    requires CooWF(acc.rij) && CooWF(acc.wij)
    requires JLoop(c, pair, acc, i, j) == Ok(a)
    ensures CooWF(a.rij) && CooWF(a.wij)
    ensures var (r, col) := (Position(ri, NLattices(c), rk), Position(cj, NLattices(c), ck));
      CooAt(a.rij, r, col) == CooAt(acc.rij, r, col) +
        (if ri == i && rk < NSymOps(c) && cj < j && ck < NSymOps(c) then RijOf(Recorded(c, pair, i, cj, rk, ck)) else 0.0)
    ensures var (r, col) := (Position(ri, NLattices(c), rk), Position(cj, NLattices(c), ck));
      CooAt(a.wij, r, col) == CooAt(acc.wij, r, col) +
        (if Weighted(c.weights) && ri == i && rk < NSymOps(c) && cj < j && ck < NSymOps(c) then WijOf(Recorded(c, pair, i, cj, rk, ck)) else 0.0)
    decreases j
  {
    if j == 0 {
      return;
    }
    var prev := JLoop(c, pair, acc, i, j - 1).value;
    JLoopAt(c, pair, acc, i, j - 1, prev, ri, rk, cj, ck);
    KLoopAt(c, pair, prev, i, j - 1, NSymOps(c), a, ri, rk, cj, ck);
  }

  // ---------------------------------------------------------------------
  // Where a block's entries lie
  // ---------------------------------------------------------------------

  /** An entry of row block i: a row i + n * k, a column inside the matrix,
      and never the diagonal. */
  ghost predicate InBlock(c: Prepared, i: nat, row: nat, col: nat)
  {
    && NLattices(c) > 0
    && row % NLattices(c) == i
    && row < NLattices(c) * NSymOps(c) && col < NLattices(c) * NSymOps(c)
    && row != col
  }

  /** The buffers of row block i: every rij entry lies in the block; with
      weights the wij entries sit at exactly the same positions and hold
      counts of at least `minPairs`; without weights wij stays empty. */
  ghost predicate Entries(c: Prepared, i: nat, acc: Acc)
  {
    && CooWF(acc.rij) && CooWF(acc.wij)
    && (forall t :: 0 <= t < |acc.rij.rows| ==> InBlock(c, i, acc.rij.rows[t], acc.rij.cols[t]))
    && (Weighted(c.weights) ==>
          && acc.wij.rows == acc.rij.rows && acc.wij.cols == acc.rij.cols
          && forall t :: 0 <= t < |acc.wij.data| ==> acc.wij.data[t] >= c.minPairs as real)
    && (!Weighted(c.weights) ==> acc.wij == EmptyCoo)
  }

  lemma StepPairEntries(c: Prepared, pair: Outcomes, acc: Acc, i: nat, j: nat, k: nat, kk: nat, a: Acc)
    requires i < NLattices(c) && j < NLattices(c) && k < NSymOps(c) && kk < NSymOps(c)
    requires Entries(c, i, acc) && StepPair(c, pair, acc, i, j, k, kk) == Ok(a)
    ensures Entries(c, i, a)
  {
    var n := NLattices(c);
    var rec := Recorded(c, pair, i, j, k, kk);
    if rec.Some? {
      var row := Position(i, n, k);
      var col := Position(j, n, kk);
      assert a == Record(c, acc, row, col, rec);
      PositionDivMod(i, n, k);
      PositionDivMod(j, n, kk);
      SplitPosition(row, n, NSymOps(c));
      SplitPosition(col, n, NSymOps(c));
      PositionInjective(i, k, j, kk, n);
      assert InBlock(c, i, row, col);
      assert a.rij.rows[|acc.rij.rows|] == row && a.rij.cols[|acc.rij.rows|] == col;
    } else {
      assert a == acc;
    }
  }

  lemma {:induction false} KKLoopEntries(c: Prepared, pair: Outcomes, acc: Acc, i: nat, j: nat, k: nat, kk: nat, a: Acc)
    requires i < NLattices(c) && j < NLattices(c) && k < NSymOps(c) && kk <= NSymOps(c)
    requires Entries(c, i, acc) && KKLoop(c, pair, acc, i, j, k, kk) == Ok(a)
    ensures Entries(c, i, a)
  {
    if kk > 0 {
      var prev := KKLoop(c, pair, acc, i, j, k, kk - 1).value;
      KKLoopEntries(c, pair, acc, i, j, k, kk - 1, prev);
      StepPairEntries(c, pair, prev, i, j, k, kk - 1, a);
    }
  }

  lemma {:induction false} KLoopEntries(c: Prepared, pair: Outcomes, acc: Acc, i: nat, j: nat, k: nat, a: Acc)
    requires i < NLattices(c) && j < NLattices(c) && k <= NSymOps(c)
    requires Entries(c, i, acc) && KLoop(c, pair, acc, i, j, k) == Ok(a)
    ensures Entries(c, i, a)
  {
    if k > 0 {
      var prev := KLoop(c, pair, acc, i, j, k - 1).value;
      KLoopEntries(c, pair, acc, i, j, k - 1, prev);
      KKLoopEntries(c, pair, prev, i, j, k - 1, NSymOps(c), a);
    }
  }

  lemma {:induction false} JLoopEntries(c: Prepared, pair: Outcomes, acc: Acc, i: nat, j: nat, a: Acc)
    requires i < NLattices(c) && j <= NLattices(c)
    requires Entries(c, i, acc) && JLoop(c, pair, acc, i, j) == Ok(a)
    ensures Entries(c, i, a)
  {
    if j > 0 {
      var prev := JLoop(c, pair, acc, i, j - 1).value;
      JLoopEntries(c, pair, acc, i, j - 1, prev);
      KLoopEntries(c, pair, prev, i, j - 1, NSymOps(c), a);
    }
  }

  /** A finished row block: rij entries lie in rows i + n * k inside the
      matrix and off the diagonal; wij is present exactly when weights are on,
      at the same positions, with counts of at least `minPairs`. */
  lemma BlockShape(c: Prepared, pair: Outcomes, i: nat)
    requires i < NLattices(c) && BlockFrom(c, pair, i).Ok?
    ensures var b := BlockFrom(c, pair, i).value;
      && CooWF(b.rij)
      && (forall t :: 0 <= t < |b.rij.rows| ==> InBlock(c, i, b.rij.rows[t], b.rij.cols[t]))
      && (b.wij.Some? <==> Weighted(c.weights))
      && (b.wij.Some? ==> CooWF(b.wij.value) && b.wij.value.rows == b.rij.rows && b.wij.value.cols == b.rij.cols)
      && (b.wij.Some? ==> forall t :: 0 <= t < |b.wij.value.data| ==> b.wij.value.data[t] >= c.minPairs as real)
  {
    var acc := JLoop(c, pair, Acc(EmptyCoo, EmptyCoo), i, NLattices(c)).value;
    JLoopEntries(c, pair, Acc(EmptyCoo, EmptyCoo), i, NLattices(c), acc);
  }

  /** Entry (row, col) of a finished row block i: the value stored for
      dataset col % n under operation row / n against dataset col % n under
      operation col / n, inside the block's rows, and zero elsewhere. */
  lemma BlockAt(c: Prepared, pair: Outcomes, i: nat, row: nat, col: nat)
    requires i < NLattices(c) && BlockFrom(c, pair, i).Ok?
    ensures var b := BlockFrom(c, pair, i).value;
      var n := NLattices(c);
      var inside := row % n == i && row < n * NSymOps(c) && col < n * NSymOps(c);
      && CooWF(b.rij)
      && CooAt(b.rij, row, col) == (if inside then RijOf(Recorded(c, pair, i, col % n, row / n, col / n)) else 0.0)
      && (b.wij.Some? ==> (CooWF(b.wij.value) &&
            CooAt(b.wij.value, row, col) == (if inside then WijOf(Recorded(c, pair, i, col % n, row / n, col / n)) else 0.0)))
  {
    var n := NLattices(c);
    var acc := JLoop(c, pair, Acc(EmptyCoo, EmptyCoo), i, n).value;
    assert BlockFrom(c, pair, i).value == Finish(c, acc);
    var rk, ri := QuotientRemainder(row, n);
    var ck, cj := QuotientRemainder(col, n);
    SplitPosition(row, n, NSymOps(c));
    SplitPosition(col, n, NSymOps(c));
    assert row == Position(ri, n, rk) && col == Position(cj, n, ck);
    assert (row < n * NSymOps(c)) == (rk < NSymOps(c)) && (col < n * NSymOps(c)) == (ck < NSymOps(c));
    JLoopAt(c, pair, Acc(EmptyCoo, EmptyCoo), i, n, acc, ri, rk, cj, ck);
    assert CooAt(EmptyCoo, row, col) == 0.0;
  }

  // ---------------------------------------------------------------------
  // The dense matrices
  // ---------------------------------------------------------------------

  /** The outcome tables of all row blocks. */
  ghost function Tables(c: Prepared, pearson: (seq<real>, seq<real>) -> Option<real>): nat -> Outcomes
  {
    (i: nat) => PairTable(c, pearson, i)
  }

  /** Entry (row, col) of the correlation matrix built from the blocks'
      tables: the coefficient row block row % n stores for its dataset under
      operation row / n against dataset col % n under operation col / n. */
  ghost function RijEntry(c: Prepared, tables: nat -> Outcomes, row: nat, col: nat): real
    requires NLattices(c) > 0
  {
    var n := NLattices(c);
    RijOf(Recorded(c, tables(row % n), row % n, col % n, row / n, col / n))
  }

  /** Entry (row, col) of the count matrix, likewise. */
  ghost function WijEntry(c: Prepared, tables: nat -> Outcomes, row: nat, col: nat): real
    requires NLattices(c) > 0
  {
    var n := NLattices(c);
    WijOf(Recorded(c, tables(row % n), row % n, col % n, row / n, col / n))
  }

  /** At the position of dataset i under operation k and dataset j under
      operation kk, the matrices hold what that pass stores. */
  lemma EntryAtPosition(c: Prepared, pearson: (seq<real>, seq<real>) -> Option<real>, i: nat, j: nat, k: nat, kk: nat)
    requires i < NLattices(c) && j < NLattices(c)
    ensures var n := NLattices(c);
      && RijEntry(c, Tables(c, pearson), Position(i, n, k), Position(j, n, kk)) == RijOf(Recorded(c, PairTable(c, pearson, i), i, j, k, kk))
      && WijEntry(c, Tables(c, pearson), Position(i, n, k), Position(j, n, kk)) == WijOf(Recorded(c, PairTable(c, pearson, i), i, j, k, kk))
  {
    var n := NLattices(c);
    PositionDivMod(i, n, k);
    PositionDivMod(j, n, kk);
  }

  lemma RecordedFromOutcome(c: Prepared, pair: Outcomes, i: nat, j: nat, k: nat, kk: nat, o: Result<Option<(real, nat)>, PairError>)
    requires pair(j, k, kk) == o
    ensures Recorded(c, pair, i, j, k, kk) ==
      if !(i == j && k == kk) && o.Ok? && o.value.Some? && o.value.value.1 >= c.minPairs then o.value else None
  {
  }

  /** What a pass stores, in terms of its outcome: the coefficient and count
      when it is not the self-correlation, the outcome carries a value and it
      has at least `minPairs` matches; nothing otherwise. */
  lemma StoredOutcome(c: Prepared, pearson: (seq<real>, seq<real>) -> Option<real>, i: nat, j: nat, k: nat, kk: nat)
    requires WellFormed(c) && i < NLattices(c) && j < NLattices(c) && k < NSymOps(c) && kk < NSymOps(c)
    ensures var o := Outcome(c, pearson, i, j, k, kk);
      Recorded(c, PairTable(c, pearson, i), i, j, k, kk) ==
        if !(i == j && k == kk) && o.Ok? && o.value.Some? && o.value.value.1 >= c.minPairs then o.value else None
  {
    PairTableIsTable(c, pearson, i);
    RecordedFromOutcome(c, PairTable(c, pearson, i), i, j, k, kk, Outcome(c, pearson, i, j, k, kk));
  }

  /** The diagonal of both matrices is zero: a dataset is never correlated
      with itself under the same operation. */
  lemma DiagonalZero(c: Prepared, tables: nat -> Outcomes, x: nat)
    requires NLattices(c) > 0
    ensures RijEntry(c, tables, x, x) == 0.0 && WijEntry(c, tables, x, x) == 0.0
  {
  }

  /** "Rij is a symmetric matrix": when the epsilon factors are those of the
      indices and do not depend on the operation, and the coefficient is
      symmetric in its two lists, the entry at (i + n * k, j + n * kk) equals
      the entry at (j + n * kk, i + n * k) in both matrices. */
  lemma EntriesSymmetric(c: Prepared, eps: Miller -> int, pearson: (seq<real>, seq<real>) -> Option<real>, row: nat, col: nat)
    requires WellFormed(c) && NLattices(c) > 0
    requires row < NLattices(c) * NSymOps(c) && col < NLattices(c) * NSymOps(c)
    requires EpsilonsOf(c, eps) && EpsilonInvariant(c) && PearsonSymmetric(pearson)
    ensures RijEntry(c, Tables(c, pearson), row, col) == RijEntry(c, Tables(c, pearson), col, row)
    ensures WijEntry(c, Tables(c, pearson), row, col) == WijEntry(c, Tables(c, pearson), col, row)
  {
    var n := NLattices(c);
    var rk, ri := QuotientRemainder(row, n);
    var ck, cj := QuotientRemainder(col, n);
    SplitPosition(row, n, NSymOps(c));
    SplitPosition(col, n, NSymOps(c));
    StoredOutcome(c, pearson, ri, cj, rk, ck);
    StoredOutcome(c, pearson, cj, ri, ck, rk);
    OutcomeMirror(c, eps, pearson, ri, cj, rk, ck);
  }

  /** The dense matrices `_compute_rij_wij` returns are symmetric under the
      same premises, for counts and for standard-error weights alike. */
  lemma MatricesSymmetric(c: Prepared, eps: Miller -> int, pearson: (seq<real>, seq<real>) -> Option<real>,
                          seWeight: (real, real) -> real, rij: seq<seq<real>>, wij: Option<seq<seq<real>>>)
    requires WellFormed(c) && NLattices(c) > 0
    requires EpsilonsOf(c, eps) && EpsilonInvariant(c) && PearsonSymmetric(pearson)
    requires var NN := NLattices(c) * NSymOps(c);
      && |rij| == NN && (forall row :: 0 <= row < NN ==> |rij[row]| == NN)
      && (forall row, col :: 0 <= row < NN && 0 <= col < NN ==> rij[row][col] == RijEntry(c, Tables(c, pearson), row, col))
    requires wij.Some? ==> var NN := NLattices(c) * NSymOps(c);
      && |wij.value| == NN && (forall row :: 0 <= row < NN ==> |wij.value[row]| == NN)
      && (c.weights == Count ==> forall row, col :: 0 <= row < NN && 0 <= col < NN ==>
            wij.value[row][col] == WijEntry(c, Tables(c, pearson), row, col))
      && (c.weights == StandardError ==> forall row, col :: 0 <= row < NN && 0 <= col < NN ==>
            wij.value[row][col] == if WijEntry(c, Tables(c, pearson), row, col) > 2.0
                                   then seWeight(RijEntry(c, Tables(c, pearson), row, col), WijEntry(c, Tables(c, pearson), row, col)) else 0.0)
    ensures var NN := NLattices(c) * NSymOps(c);
      forall row, col :: 0 <= row < NN && 0 <= col < NN ==> rij[row][col] == rij[col][row]
    ensures wij.Some? && Weighted(c.weights) ==> var NN := NLattices(c) * NSymOps(c);
      forall row, col :: 0 <= row < NN && 0 <= col < NN ==> wij.value[row][col] == wij.value[col][row]
  {
    var NN := NLattices(c) * NSymOps(c);
    forall row, col | 0 <= row < NN && 0 <= col < NN
      ensures rij[row][col] == rij[col][row]
      ensures wij.Some? && Weighted(c.weights) ==> wij.value[row][col] == wij.value[col][row]
    {
      EntriesSymmetric(c, eps, pearson, row, col);
    }
  }

  /** `coo_matrix.toarray()` for a size x size matrix. */
  function Dense(b: Coo, size: nat): (m: seq<seq<real>>)
    requires CooWF(b)
    ensures |m| == size && forall row :: 0 <= row < size ==> |m[row]| == size
  {
    seq(size, (row: int) requires 0 <= row < size => seq(size, (col: int) requires 0 <= col < size => CooAt(b, row, col)))
  }

  /** Lines 329-333: where a count exceeds two the weight becomes the inverse
      standard error of the coefficient (`seWeight(r, w)`), elsewhere zero. */
  function StandardErrorWeights(rij: seq<seq<real>>, wij: seq<seq<real>>, seWeight: (real, real) -> real): (w: seq<seq<real>>)
    requires |rij| == |wij| && forall row :: 0 <= row < |wij| ==> |rij[row]| == |wij[row]|
    ensures |w| == |wij| && forall row :: 0 <= row < |wij| ==> |w[row]| == |wij[row]|
    ensures forall row, col :: 0 <= row < |wij| && 0 <= col < |wij[row]| ==>
      w[row][col] == if wij[row][col] > 2.0 then seWeight(rij[row][col], wij[row][col]) else 0.0
  {
    seq(|wij|, row requires 0 <= row < |wij| =>
      seq(|wij[row]|, col requires 0 <= col < |wij[row]| =>
        if wij[row][col] > 2.0 then seWeight(rij[row][col], wij[row][col]) else 0.0))
  }

  // ---------------------------------------------------------------------
  // The merge
  // ---------------------------------------------------------------------

  /** `rij_matrix += rij` over the blocks, in order. */
  function MergeRij(blocks: seq<Block>): Coo
  {
    if |blocks| == 0 then EmptyCoo
    else Concat(MergeRij(blocks[..|blocks| - 1]), blocks[|blocks| - 1].rij)
  }

  /** `wij_matrix += wij` over the blocks that carry one, in order. */
  function MergeWij(blocks: seq<Block>): Coo
  {
    if |blocks| == 0 then EmptyCoo
    else if blocks[|blocks| - 1].wij.None? then MergeWij(blocks[..|blocks| - 1])
    else Concat(MergeWij(blocks[..|blocks| - 1]), blocks[|blocks| - 1].wij.value)
  }

  /** Each block is the one its table gives. */
  ghost predicate BlocksFrom(c: Prepared, tables: nat -> Outcomes, blocks: seq<Block>)
  {
    && |blocks| <= NLattices(c)
    && forall u :: 0 <= u < |blocks| ==> BlockFrom(c, tables(u), u) == Ok(blocks[u])
  }

  /** Appending the next row's block keeps the blocks those of their rows. */
  lemma BlocksFromAppend(c: Prepared, tables: nat -> Outcomes, blocks: seq<Block>, b: Block)
    requires BlocksFrom(c, tables, blocks) && |blocks| < NLattices(c)
    requires BlockFrom(c, tables(|blocks|), |blocks|) == Ok(b)
    ensures BlocksFrom(c, tables, blocks + [b])
  {
  }

  /** Summing the first blocks gives, at each entry, the value of the block
      whose rows it lies in, if that block is among them: the blocks' rows are
      disjoint, so the sum is a union. */
  lemma {:induction false} MergeAt(c: Prepared, tables: nat -> Outcomes, blocks: seq<Block>, row: nat, col: nat)
    requires NLattices(c) > 0 && BlocksFrom(c, tables, blocks)
    ensures CooWF(MergeRij(blocks))
    ensures var n := NLattices(c);
      var inside := row % n < |blocks| && row < n * NSymOps(c) && col < n * NSymOps(c);
      CooAt(MergeRij(blocks), row, col) == if inside then RijEntry(c, tables, row, col) else 0.0
    ensures Weighted(c.weights) ==> CooWF(MergeWij(blocks))
    ensures var n := NLattices(c);
      var inside := row % n < |blocks| && row < n * NSymOps(c) && col < n * NSymOps(c);
      Weighted(c.weights) ==> CooAt(MergeWij(blocks), row, col) == if inside then WijEntry(c, tables, row, col) else 0.0
    decreases |blocks|
  {
    if |blocks| == 0 {
      return;
    }
    var t := |blocks| - 1;
    var front := blocks[..t];
    assert BlocksFrom(c, tables, front);
    MergeAt(c, tables, front, row, col);
    BlockAt(c, tables(t), t, row, col);
    BlockShape(c, tables(t), t);
    CooAtConcat(MergeRij(front), blocks[t].rij, row, col);
    if Weighted(c.weights) {
      CooAtConcat(MergeWij(front), blocks[t].wij.value, row, col);
    }
  }

  datatype RijError =
    | NoLattices              // `toarray` on the `None` left by an empty merge
    | PairFailed(e: PairError)

  /** Lines 303-310: `parallel_map` over the row blocks, run one block after
      another; the first block that fails fails the map. */
  method RowBlocks(c: Prepared, pearson: (seq<real>, seq<real>) -> Option<real>, relative: (string, string) -> string,
                   useCache: bool) returns (r: Result<seq<Block>, PairError>)
    requires WellFormed(c)
    requires useCache ==> forall i :: 0 <= i < NLattices(c) ==> KeySound(c, pearson, relative, i)
    ensures r.Ok? <==> forall i :: 0 <= i < NLattices(c) ==> RowBlockSpec(c, pearson, i).Ok?
    ensures r.Ok? ==> |r.value| == NLattices(c) && BlocksFrom(c, Tables(c, pearson), r.value)
    ensures r.Err? ==>
      exists i :: 0 <= i < NLattices(c) && RowBlockSpec(c, pearson, i) == Err(r.error) &&
        forall u :: 0 <= u < i ==> RowBlockSpec(c, pearson, u).Ok?
  {
    ghost var tables := Tables(c, pearson);
    var blocks: seq<Block> := [];
    for i := 0 to NLattices(c)
      invariant |blocks| == i && BlocksFrom(c, tables, blocks)
      invariant forall u :: 0 <= u < i ==> RowBlockSpec(c, pearson, u).Ok?
    {
      var b := RowBlock(c, pearson, relative, useCache, i);
      if b.Err? {
        return Err(b.error);
      }
      assert tables(i) == PairTable(c, pearson, i);
      BlocksFromAppend(c, tables, blocks, b.value);
      blocks := blocks + [b.value];
    }
    r := Ok(blocks);
  }

  /** Lines 312-328: the blocks summed into one sparse matrix (and the weight
      blocks, when present, into another), then made dense; with no blocks the
      sum is never started and `toarray` fails. */
  method MergeBlocks(c: Prepared, ghost tables: nat -> Outcomes, blocks: seq<Block>)
    returns (r: Result<(seq<seq<real>>, Option<seq<seq<real>>>), RijError>)
    requires |blocks| == NLattices(c) && BlocksFrom(c, tables, blocks)
    ensures r.Err? <==> NLattices(c) == 0
    ensures r.Err? ==> r.error == NoLattices
    ensures r.Ok? ==> var NN := NLattices(c) * NSymOps(c);
      var rij := r.value.0;
      && |rij| == NN && (forall row :: 0 <= row < NN ==> |rij[row]| == NN)
      && (forall row, col :: 0 <= row < NN && 0 <= col < NN ==> rij[row][col] == RijEntry(c, tables, row, col))
    ensures r.Ok? ==> (r.value.1.Some? <==> Weighted(c.weights))
    ensures r.Ok? && r.value.1.Some? ==> var NN := NLattices(c) * NSymOps(c);
      var wij := r.value.1.value;
      && |wij| == NN && (forall row :: 0 <= row < NN ==> |wij[row]| == NN)
      && (forall row, col :: 0 <= row < NN && 0 <= col < NN ==> wij[row][col] == WijEntry(c, tables, row, col))
  {
    var n := NLattices(c);
    MulNonNegative(n, NSymOps(c));
    var NN: nat := n * NSymOps(c);
    var rijMatrix: Option<Coo> := None;
    var wijMatrix: Option<Coo> := None;
    for t := 0 to |blocks|
      invariant t > 0 ==> rijMatrix == Some(MergeRij(blocks[..t]))
      invariant t == 0 ==> rijMatrix.None?
      invariant Weighted(c.weights) && t > 0 ==> wijMatrix == Some(MergeWij(blocks[..t]))
      invariant !Weighted(c.weights) || t == 0 ==> wijMatrix.None?
    {
      var b := blocks[t];
      assert blocks[..t + 1][..t] == blocks[..t] && blocks[..t + 1][t] == b;
      assert BlockFrom(c, tables(t), t) == Ok(b);
      BlockShape(c, tables(t), t);
      ConcatEmpty(b.rij);
      if b.wij.Some? {
        ConcatEmpty(b.wij.value);
      }
      if rijMatrix.None? {
        rijMatrix := Some(b.rij);
      } else {
        rijMatrix := Some(Concat(rijMatrix.value, b.rij));
      }
      if b.wij.Some? {
        if wijMatrix.None? {
          wijMatrix := Some(b.wij.value);
        } else {
          wijMatrix := Some(Concat(wijMatrix.value, b.wij.value));
        }
      }
    }
    if rijMatrix.None? {
      return Err(NoLattices);
    }
    assert blocks[..n] == blocks;
    MergeAt(c, tables, blocks, 0, 0);
    var rij := Dense(rijMatrix.value, NN);
    forall row, col | 0 <= row < NN && 0 <= col < NN
      ensures rij[row][col] == RijEntry(c, tables, row, col)
    {
      MergeAt(c, tables, blocks, row, col);
    }
    if wijMatrix.None? {
      return Ok((rij, None));
    }
    var wij := Dense(wijMatrix.value, NN);
    forall row, col | 0 <= row < NN && 0 <= col < NN
      ensures wij[row][col] == WijEntry(c, tables, row, col)
    {
      MergeAt(c, tables, blocks, row, col);
    }
    r := Ok((rij, Some(wij)));
  }

  /** `_compute_rij_wij`: the row blocks, their sum as dense matrices, and
      the standard-error weights under "standard_error". */
  method ComputeRijWij(c: Prepared, pearson: (seq<real>, seq<real>) -> Option<real>, relative: (string, string) -> string,
                       useCache: bool, seWeight: (real, real) -> real)
    returns (r: Result<(seq<seq<real>>, Option<seq<seq<real>>>), RijError>)
    requires WellFormed(c)
    requires useCache ==> forall i :: 0 <= i < NLattices(c) ==> KeySound(c, pearson, relative, i)
    ensures r == Err(NoLattices) <==> NLattices(c) == 0
    ensures r.Ok? <==> NLattices(c) > 0 && forall i :: 0 <= i < NLattices(c) ==> RowBlockSpec(c, pearson, i).Ok?
    ensures r.Err? && r.error.PairFailed? ==>
      exists i :: 0 <= i < NLattices(c) && RowBlockSpec(c, pearson, i) == Err(r.error.e) &&
        forall u :: 0 <= u < i ==> RowBlockSpec(c, pearson, u).Ok?
    ensures r.Ok? ==> var NN := NLattices(c) * NSymOps(c);
      var rij := r.value.0;
      && |rij| == NN && (forall row :: 0 <= row < NN ==> |rij[row]| == NN)
      && (forall row, col :: 0 <= row < NN && 0 <= col < NN ==> rij[row][col] == RijEntry(c, Tables(c, pearson), row, col))
    ensures r.Ok? ==> (r.value.1.Some? <==> Weighted(c.weights))
    ensures r.Ok? && r.value.1.Some? ==> var NN := NLattices(c) * NSymOps(c);
      var wij := r.value.1.value;
      && |wij| == NN && (forall row :: 0 <= row < NN ==> |wij[row]| == NN)
      && (c.weights == Count ==> forall row, col :: 0 <= row < NN && 0 <= col < NN ==>
            wij[row][col] == WijEntry(c, Tables(c, pearson), row, col))
      && (c.weights == StandardError ==> forall row, col :: 0 <= row < NN && 0 <= col < NN ==>
            wij[row][col] == if WijEntry(c, Tables(c, pearson), row, col) > 2.0
                             then seWeight(RijEntry(c, Tables(c, pearson), row, col), WijEntry(c, Tables(c, pearson), row, col)) else 0.0)
  {
    var blocks := RowBlocks(c, pearson, relative, useCache);
    if blocks.Err? {
      return Err(PairFailed(blocks.error));
    }
    var merged := MergeBlocks(c, Tables(c, pearson), blocks.value);
    if merged.Err? || merged.value.1.None? {
      return merged;
    }
    var (rij, wij) := (merged.value.0, merged.value.1.value);
    if c.weights == StandardError {
      wij := StandardErrorWeights(rij, wij, seWeight);
    }
    r := Ok((rij, Some(wij)));
  }
}
