/** The datasets (lattices) of a cosym analysis as row ranges of the data.
    The reflections are sorted by lattice id; `_lattices[t]` is the first
    sorted row of the t-th distinct id, and lattice t spans the rows from
    there up to the next lattice's first row, the last one up to the end. */
module CosymRows {
  import opened Results

  /** The lattice ids, as numpy's argsort leaves them. */
  ghost predicate Sorted(ids: seq<int>)
  {
    forall p, q :: 0 <= p < q < |ids| ==> ids[p] <= ids[q]
  }

  ghost predicate StrictlyIncreasing(l: seq<nat>)
  {
    forall t, u :: 0 <= t < u < |l| ==> l[t] < l[u]
  }

  /** `argsort`'s contract: `order` is a permutation of the rows that sorts the ids. */
  ghost predicate IsArgsort(ids: seq<int>, order: seq<nat>)
  {
    && |order| == |ids|
    && (forall p :: 0 <= p < |order| ==> order[p] < |ids|)
    && (forall p, q :: 0 <= p < q < |order| ==> order[p] != order[q])
    && (forall p, q :: 0 <= p < q < |order| ==> ids[order[p]] <= ids[order[q]])
  }

  /** `a[order]`: numpy fancy indexing. */
  function Take<T>(a: seq<T>, order: seq<nat>): (r: seq<T>)
    requires forall p :: 0 <= p < |order| ==> order[p] < |a|
    ensures |r| == |order| && forall p :: 0 <= p < |order| ==> r[p] == a[order[p]]
  {
    seq(|order|, p requires 0 <= p < |order| => a[order[p]])
  }

  /** Reordering the ids by their argsort sorts them. */
  lemma TakeArgsortSorted(ids: seq<int>, order: seq<nat>)
    requires IsArgsort(ids, order)
    ensures Sorted(Take(ids, order))
  {
  }

  /** Row p starts a lattice: it is the first row, or its id differs from the row before. */
  predicate IsStart(ids: seq<int>, p: nat)
    requires p < |ids|
  {
    p == 0 || ids[p - 1] != ids[p]
  }

  /** The rows from p on that start a lattice, in increasing order. */
  function LatticesFrom(ids: seq<int>, p: nat): (l: seq<nat>)
    ensures forall t :: 0 <= t < |l| ==> p <= l[t] < |ids| && IsStart(ids, l[t])
    ensures StrictlyIncreasing(l)
    ensures forall q :: p <= q < |ids| && IsStart(ids, q) ==> q in l
    decreases |ids| - p
  {
    if p >= |ids| then []
    else if IsStart(ids, p) then [p] + LatticesFrom(ids, p + 1)
    else LatticesFrom(ids, p + 1)
  }

  /** `_lattices`: for each distinct id of the sorted ids, its first row. */
  function Lattices(ids: seq<int>): (l: seq<nat>)
    ensures forall t :: 0 <= t < |l| ==> l[t] < |ids| && IsStart(ids, l[t])
    ensures StrictlyIncreasing(l)
    ensures forall q :: 0 <= q < |ids| && IsStart(ids, q) ==> q in l
  {
    LatticesFrom(ids, 0)
  }

  /** The first lattice starts at row 0, and there is one when there are rows. */
  lemma LatticesStartAtZero(ids: seq<int>)
    requires |ids| > 0
    ensures |Lattices(ids)| > 0 && Lattices(ids)[0] == 0
  {
    var l := Lattices(ids);
    assert 0 in l;
    var t :| 0 <= t < |l| && l[t] == 0;
    if t > 0 {
      assert l[0] < l[t];
    }
  }

  /** The row one past lattice t: the next lattice's first row, or the end. */
  function UpperRow(l: seq<nat>, nRows: nat, t: nat): nat
    requires t < |l|
  {
    if t + 1 < |l| then l[t + 1] else nRows
  }

  /** Every row of lattice t carries the lattice's id. */
  lemma {:induction false} LatticeRowsShareId(ids: seq<int>, t: nat, p: nat)
    requires t < |Lattices(ids)|
    requires Lattices(ids)[t] <= p < UpperRow(Lattices(ids), |ids|, t)
    ensures ids[p] == ids[Lattices(ids)[t]]
    decreases p
  {
    var l := Lattices(ids);
    if p > l[t] {
      assert !IsStart(ids, p);
      LatticeRowsShareId(ids, t, p - 1);
    }
  }

  /** The ranges of two different lattices share no row. */
  lemma LatticeRangesDisjoint(l: seq<nat>, nRows: nat, t: nat, u: nat, p: nat)
    requires StrictlyIncreasing(l) && t < |l| && u < |l|
    requires l[t] <= p < UpperRow(l, nRows, t) && l[u] <= p < UpperRow(l, nRows, u)
    ensures t == u
  {
  }

  /** Some lattice's range holds row p. */
  lemma {:induction false} RowInSomeLattice(ids: seq<int>, p: nat) returns (t: nat)
    requires p < |ids|
    ensures t < |Lattices(ids)| && Lattices(ids)[t] <= p < UpperRow(Lattices(ids), |ids|, t)
    decreases p
  {
    var l := Lattices(ids);
    if IsStart(ids, p) {
      assert p in l;
      t :| 0 <= t < |l| && l[t] == p;
      if t + 1 < |l| {
        assert l[t] < l[t + 1];
      }
    } else {
      t := RowInSomeLattice(ids, p - 1);
      if t + 1 < |l| {
        assert IsStart(ids, l[t + 1]);
        assert l[t + 1] != p;
      }
    }
  }

  /** Each row lies in exactly one lattice's range. */
  lemma EveryRowInOneLattice(ids: seq<int>, p: nat) returns (t: nat)
    requires p < |ids|
    ensures t < |Lattices(ids)| && Lattices(ids)[t] <= p < UpperRow(Lattices(ids), |ids|, t)
    ensures forall u :: 0 <= u < |Lattices(ids)| && Lattices(ids)[u] <= p < UpperRow(Lattices(ids), |ids|, u) ==> u == t
  {
    var l := Lattices(ids);
    t := RowInSomeLattice(ids, p);
    forall u | 0 <= u < |l| && l[u] <= p < UpperRow(l, |ids|, u)
      ensures u == t
    {
      LatticeRangesDisjoint(l, |ids|, t, u, p);
    }
  }

  /** On sorted ids, lattice t's first row is the first row carrying its id,
      and the ids of successive lattices increase: `_lattices[t]` is
      `np.where(ids == v)[0][0]` for the t-th value v of `np.unique(ids)`. */
  lemma LatticesAreFirstOccurrences(ids: seq<int>, t: nat)
    requires Sorted(ids) && t < |Lattices(ids)|
    ensures forall q :: 0 <= q < Lattices(ids)[t] ==> ids[q] < ids[Lattices(ids)[t]]
    ensures t + 1 < |Lattices(ids)| ==> ids[Lattices(ids)[t]] < ids[Lattices(ids)[t + 1]]
  {
    var l := Lattices(ids);
    if l[t] > 0 {
      assert ids[l[t] - 1] != ids[l[t]];
    }
    if t + 1 < |l| {
      assert ids[l[t + 1] - 1] != ids[l[t + 1]];
      assert l[t] <= l[t + 1] - 1;
    }
  }

  /** On sorted ids, every id present is the id of some lattice. */
  lemma EveryIdHasLattice(ids: seq<int>, p: nat) returns (t: nat)
    requires p < |ids|
    ensures t < |Lattices(ids)| && ids[Lattices(ids)[t]] == ids[p]
  {
    t := EveryRowInOneLattice(ids, p);
    LatticeRowsShareId(ids, t, p);
  }

  datatype LatticeError = LatticeIndexOutOfRange

  /** `_lattice_lower_upper_index`: the first row of the lattice and, except
      for the last lattice, the first row of the next one. An id past the
      last lattice fails the lookup. */
  function LatticeLowerUpperIndex(l: seq<nat>, latticeId: nat): (r: Result<(nat, Option<nat>), LatticeError>)
    ensures r.Ok? <==> latticeId < |l|
    ensures r.Ok? ==> r.value.0 == l[latticeId]
    ensures r.Ok? ==> (r.value.1.None? <==> latticeId == |l| - 1)
    ensures r.Ok? && r.value.1.Some? ==> r.value.1.value == l[latticeId + 1]
  {
    if latticeId >= |l| then Err(LatticeIndexOutOfRange)
    else
      var lowerIndex := l[latticeId];
      var upperIndex := if latticeId < |l| - 1 then Some(l[latticeId + 1]) else None;
      Ok((lowerIndex, upperIndex))
  }

  /** The rows `a[lower:upper]` of lattice t, with `None` reading as the end. */
  lemma LowerUpperIsRowRange(ids: seq<int>, t: nat)
    requires t < |Lattices(ids)|
    ensures var r := LatticeLowerUpperIndex(Lattices(ids), t);
      r.Ok? && r.value.0 < (if r.value.1.Some? then r.value.1.value else |ids|) <= |ids|
      && (if r.value.1.Some? then r.value.1.value else |ids|) == UpperRow(Lattices(ids), |ids|, t)
  {
    var l := Lattices(ids);
    if t + 1 < |l| {
      assert l[t] < l[t + 1];
    }
  }
}
