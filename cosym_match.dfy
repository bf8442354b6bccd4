/** Exact matching of Miller indices between two datasets, as
    `match_miller_indices` does it: both lists are shifted by the same
    offset so that every component is non-negative, each triple is ravelled
    to a single integer in C order, and the integers common to both lists are
    found with `np.intersect1d`, which reports them in increasing order with
    the first position of each in either list. */
module CosymMatch {
  import opened Results

  type Miller = (int, int, int)

  function Component(h: Miller, axis: nat): int
    requires axis < 3
  {
    if axis == 0 then h.0 else if axis == 1 then h.1 else h.2
  }

  /** The smallest component along an axis (`np.min(..., axis=0)`). */
  function MinAlong(s: seq<Miller>, axis: nat): (m: int)
    requires |s| > 0 && axis < 3
    ensures forall p :: 0 <= p < |s| ==> m <= Component(s[p], axis)
    ensures exists p :: 0 <= p < |s| && m == Component(s[p], axis)
  {
    if |s| == 1 then Component(s[0], axis)
    else
      var rest := MinAlong(s[1..], axis);
      assert forall p :: 1 <= p < |s| ==> s[p] == s[1..][p - 1];
      if Component(s[0], axis) <= rest then Component(s[0], axis) else rest
  }

  /** The largest component along an axis (`np.max(..., axis=0)`). */
  function MaxAlong(s: seq<Miller>, axis: nat): (m: int)
    requires |s| > 0 && axis < 3
    ensures forall p :: 0 <= p < |s| ==> Component(s[p], axis) <= m
    ensures exists p :: 0 <= p < |s| && m == Component(s[p], axis)
  {
    if |s| == 1 then Component(s[0], axis)
    else
      var rest := MaxAlong(s[1..], axis);
      assert forall p :: 1 <= p < |s| ==> s[p] == s[1..][p - 1];
      if Component(s[0], axis) >= rest then Component(s[0], axis) else rest
  }

  /** `offset`: minus the smallest component of both lists along each axis. */
  function Offset(all: seq<Miller>): (off: Miller)
    requires |all| > 0
    ensures forall p :: 0 <= p < |all| ==> all[p].0 + off.0 >= 0 && all[p].1 + off.1 >= 0 && all[p].2 + off.2 >= 0
  {
    (-MinAlong(all, 0), -MinAlong(all, 1), -MinAlong(all, 2))
  }

  /** `dims`: the extent of both lists along each axis. */
  function Dims(all: seq<Miller>): (d: (nat, nat, nat))
    requires |all| > 0
    ensures d.0 >= 1 && d.1 >= 1 && d.2 >= 1
  {
    var off := Offset(all);
    var _ := MinAlong(all, 0) <= Component(all[0], 0) <= MaxAlong(all, 0);
    ((MaxAlong(all, 0) + off.0 + 1) as nat, (MaxAlong(all, 1) + off.1 + 1) as nat, (MaxAlong(all, 2) + off.2 + 1) as nat)
  }

  function Shift(h: Miller, off: Miller): Miller
  {
    (h.0 + off.0, h.1 + off.1, h.2 + off.2)
  }

  predicate InBox(h: Miller, d: (nat, nat, nat))
  {
    0 <= h.0 < d.0 && 0 <= h.1 < d.1 && 0 <= h.2 < d.2
  }

  /** After the shift every index of either list lies inside `dims`. */
  lemma ShiftedInBox(all: seq<Miller>, p: nat)
    requires p < |all|
    ensures InBox(Shift(all[p], Offset(all)), Dims(all))
  {
    assert MinAlong(all, 0) <= Component(all[p], 0) <= MaxAlong(all, 0);
    assert MinAlong(all, 1) <= Component(all[p], 1) <= MaxAlong(all, 1);
    assert MinAlong(all, 2) <= Component(all[p], 2) <= MaxAlong(all, 2);
  }

  /** a * b, as b additions of a: the products the codes are built from stay
      opaque to the arithmetic until TimesIsMul turns them into `*`. */
  function Times(a: int, b: nat): int
    decreases b
  {
    if b == 0 then 0 else Times(a, b - 1) + a
  }

  lemma {:induction false} TimesIsMul(a: int, b: nat)
    ensures Times(a, b) == a * b
    decreases b
  {
    if b > 0 {
      TimesIsMul(a, b - 1);
    }
  }

  /** `np.ravel_multi_index` in C order. */
  function Ravel(h: Miller, d: (nat, nat, nat)): int
  {
    Times(Times(h.0, d.1) + h.1, d.2) + h.2
  }

  lemma MulNonNegative(a: int, b: int)
    requires a >= 0 && b >= 0
    ensures a * b >= 0
  {
  }

  lemma MulSubtract(a: int, b: int, c: int)
    ensures a * c - b * c == (a - b) * c
  {
  }

  /** Quotient and remainder are unique. */
  lemma MulAddInjective(q: int, r: int, q2: int, r2: int, d: int)
    requires 0 <= r < d && 0 <= r2 < d
    requires q * d + r == q2 * d + r2
    ensures q == q2 && r == r2
  {
    if q > q2 {
      MulSubtract(q, q2, d);
      MulNonNegative(q - q2 - 1, d);
      MulSubtract(q - q2, 1, d);
    } else if q < q2 {
      MulSubtract(q2, q, d);
      MulNonNegative(q2 - q - 1, d);
      MulSubtract(q2 - q, 1, d);
    }
  }

  /** The number of grid points in the box. */
  function Volume(d: (nat, nat, nat)): int
  {
    Times(Times(d.0, d.1), d.2)
  }

  /** Inside the box the ravelled index is in [0, Volume(d)). */
  lemma RavelInRange(h: Miller, d: (nat, nat, nat))
    requires InBox(h, d)
    ensures 0 <= Ravel(h, d) < Volume(d)
  {
    var q := h.0 * d.1 + h.1;
    TimesIsMul(h.0, d.1);
    TimesIsMul(q, d.2);
    TimesIsMul(d.0, d.1);
    MulNonNegative(d.0, d.1);
    TimesIsMul(d.0 * d.1, d.2);
    MulNonNegative(h.0, d.1);
    MulNonNegative(d.0 - 1 - h.0, d.1);
    MulSubtract(d.0 - 1, h.0, d.1);
    MulSubtract(d.0, 1, d.1);
    assert 0 <= q < d.0 * d.1;
    MulNonNegative(q, d.2);
    MulNonNegative(d.0 * d.1 - 1 - q, d.2);
    MulSubtract(d.0 * d.1 - 1, q, d.2);
    MulSubtract(d.0 * d.1, 1, d.2);
  }

  /** Inside the box the ravel is injective: equal codes come from equal indices. */
  lemma RavelInjective(h: Miller, g: Miller, d: (nat, nat, nat))
    requires InBox(h, d) && InBox(g, d)
    requires Ravel(h, d) == Ravel(g, d)
    ensures h == g
  {
    TimesIsMul(h.0, d.1);
    TimesIsMul(g.0, d.1);
    TimesIsMul(h.0 * d.1 + h.1, d.2);
    TimesIsMul(g.0 * d.1 + g.1, d.2);
    MulAddInjective(h.0 * d.1 + h.1, h.2, g.0 * d.1 + g.1, g.2, d.2);
    MulAddInjective(h.0, h.1, g.0, g.1, d.1);
  }

  /** The first position of x in s. */
  function IndexOfInt(s: seq<int>, x: int): (i: nat)
    requires x in s
    ensures i < |s| && s[i] == x && forall q :: 0 <= q < i ==> s[q] != x
  {
    if s[0] == x then 0 else 1 + IndexOfInt(s[1..], x)
  }

  /** The integers in [lo, hi) present in both lists, in increasing order. */
  function CommonInRange(ca: seq<int>, cb: seq<int>, lo: int, hi: int): (c: seq<int>)
    ensures forall t :: 0 <= t < |c| ==> lo <= c[t] < hi && c[t] in ca && c[t] in cb
    ensures forall t, u :: 0 <= t < u < |c| ==> c[t] < c[u]
    ensures forall x :: lo <= x < hi && x in ca && x in cb ==> x in c
    decreases hi - lo
  {
    if lo >= hi then []
    else if lo in ca && lo in cb then [lo] + CommonInRange(ca, cb, lo + 1, hi)
    else CommonInRange(ca, cb, lo + 1, hi)
  }

  function Codes(s: seq<Miller>, off: Miller, d: (nat, nat, nat)): (c: seq<int>)
    ensures |c| == |s| && forall p :: 0 <= p < |s| ==> c[p] == Ravel(Shift(s[p], off), d)
  {
    seq(|s|, p requires 0 <= p < |s| => Ravel(Shift(s[p], off), d))
  }

  /** Each index of either list, shifted, is inside the box. */
  lemma BothInBox(indices0: seq<Miller>, indices1: seq<Miller>)
    requires |indices0| + |indices1| > 0
    ensures forall p :: 0 <= p < |indices0| ==> InBox(Shift(indices0[p], Offset(indices0 + indices1)), Dims(indices0 + indices1))
    ensures forall p :: 0 <= p < |indices1| ==> InBox(Shift(indices1[p], Offset(indices0 + indices1)), Dims(indices0 + indices1))
  {
    var all := indices0 + indices1;
    forall p | 0 <= p < |indices0|
      ensures InBox(Shift(indices0[p], Offset(all)), Dims(all))
    {
      assert all[p] == indices0[p];
      ShiftedInBox(all, p);
    }
    forall p | 0 <= p < |indices1|
      ensures InBox(Shift(indices1[p], Offset(all)), Dims(all))
    {
      assert all[|indices0| + p] == indices1[p];
      ShiftedInBox(all, |indices0| + p);
    }
  }

  /** Inside the box, two lists' codes agree exactly where their indices do. */
  lemma CodesMatchIndices(s0: seq<Miller>, s1: seq<Miller>, off: Miller, d: (nat, nat, nat))
    requires forall p :: 0 <= p < |s0| ==> InBox(Shift(s0[p], off), d)
    requires forall q :: 0 <= q < |s1| ==> InBox(Shift(s1[q], off), d)
    ensures forall p, q :: 0 <= p < |s0| && 0 <= q < |s1| ==>
      (Codes(s0, off, d)[p] == Codes(s1, off, d)[q] <==> s0[p] == s1[q])
  {
    forall p, q | 0 <= p < |s0| && 0 <= q < |s1|
      ensures Codes(s0, off, d)[p] == Codes(s1, off, d)[q] <==> s0[p] == s1[q]
    {
      if Codes(s0, off, d)[p] == Codes(s1, off, d)[q] {
        RavelInjective(Shift(s0[p], off), Shift(s1[q], off), d);
      }
    }
  }

  lemma CodesInRange(s: seq<Miller>, off: Miller, d: (nat, nat, nat))
    requires forall p :: 0 <= p < |s| ==> InBox(Shift(s[p], off), d)
    ensures forall p :: 0 <= p < |s| ==> 0 <= Codes(s, off, d)[p] < Volume(d)
  {
    forall p | 0 <= p < |s|
      ensures 0 <= Codes(s, off, d)[p] < Volume(d)
    {
      RavelInRange(Shift(s[p], off), d);
    }
  }

  /** The ravelled codes of both lists and the size of the box they lie in. */
  datatype Encoding = Encoding(a: seq<int>, b: seq<int>, volume: int)

  /** The shift-and-ravel encoding: codes lie in [0, volume) and two codes agree
      exactly when the indices they encode do. */
  function Encode(indices0: seq<Miller>, indices1: seq<Miller>): (e: Encoding)
    requires |indices0| + |indices1| > 0
    ensures |e.a| == |indices0| && |e.b| == |indices1|
    ensures forall p :: 0 <= p < |e.a| ==> 0 <= e.a[p] < e.volume
    ensures forall q :: 0 <= q < |e.b| ==> 0 <= e.b[q] < e.volume
    ensures forall p, q :: 0 <= p < |e.a| && 0 <= q < |e.b| ==> (e.a[p] == e.b[q] <==> indices0[p] == indices1[q])
  {
    var all := indices0 + indices1;
    var off := Offset(all);
    var d := Dims(all);
    BothInBox(indices0, indices1);
    CodesMatchIndices(indices0, indices1, off, d);
    CodesInRange(indices0, off, d);
    CodesInRange(indices1, off, d);
    Encoding(Codes(indices0, off, d), Codes(indices1, off, d), Volume(d))
  }

  /** Inside one list, too, two codes agree exactly when their indices do. */
  lemma EncodeInjective(indices0: seq<Miller>, indices1: seq<Miller>, p: nat, q: nat)
    requires |indices0| + |indices1| > 0
    ensures p < |indices0| && q < |indices0| ==>
      (Encode(indices0, indices1).a[p] == Encode(indices0, indices1).a[q] <==> indices0[p] == indices0[q])
    ensures p < |indices1| && q < |indices1| ==>
      (Encode(indices0, indices1).b[p] == Encode(indices0, indices1).b[q] <==> indices1[p] == indices1[q])
  {
    var all := indices0 + indices1;
    var (off, d) := (Offset(all), Dims(all));
    var e := Encode(indices0, indices1);
    assert e.a == Codes(indices0, off, d) && e.b == Codes(indices1, off, d);
    BothInBox(indices0, indices1);
    CodesMatchIndices(indices0, indices0, off, d);
    CodesMatchIndices(indices1, indices1, off, d);
  }

  datatype MatchError = EmptyInputs

  /** The first position of each wanted value among the codes (`return_indices`). */
  function FirstPositions(codes: seq<int>, wanted: seq<int>): (p: seq<nat>)
    requires forall t :: 0 <= t < |wanted| ==> wanted[t] in codes
    ensures |p| == |wanted|
    ensures forall t :: 0 <= t < |p| ==> p[t] < |codes| && codes[p[t]] == wanted[t]
    ensures forall t, q :: 0 <= t < |p| && 0 <= q < p[t] ==> codes[q] != wanted[t]
  {
    seq(|wanted|, t requires 0 <= t < |wanted| => IndexOfInt(codes, wanted[t]))
  }

  /** `match_miller_indices(indices_0, indices_1)`: positions p0, p1 of the
      indices common to both lists; the minimum of two empty lists fails. */
  function MatchMillerIndices(indices0: seq<Miller>, indices1: seq<Miller>): (r: Result<(seq<nat>, seq<nat>), MatchError>)
    ensures r.Err? <==> |indices0| + |indices1| == 0
    ensures r.Ok? ==> |r.value.0| == |r.value.1|
    ensures r.Ok? ==> forall t :: 0 <= t < |r.value.0| ==>
      r.value.0[t] < |indices0| && r.value.1[t] < |indices1|
  {
    if |indices0| + |indices1| == 0 then Err(EmptyInputs)
    else
      var e := Encode(indices0, indices1);
      var common := CommonInRange(e.a, e.b, 0, e.volume);
      Ok((FirstPositions(e.a, common), FirstPositions(e.b, common)))
  }

  /** Every reported pair matches equal indices, each at its first position,
      and different pairs report different indices. */
  lemma MatchSound(indices0: seq<Miller>, indices1: seq<Miller>, t: nat)
    requires MatchMillerIndices(indices0, indices1).Ok?
    requires t < |MatchMillerIndices(indices0, indices1).value.0|
    ensures var (p0, p1) := MatchMillerIndices(indices0, indices1).value;
      && indices0[p0[t]] == indices1[p1[t]]
      && (forall q :: 0 <= q < p0[t] ==> indices0[q] != indices0[p0[t]])
      && (forall q :: 0 <= q < p1[t] ==> indices1[q] != indices1[p1[t]])
      && (forall u :: 0 <= u < |p0| && u != t ==> indices0[p0[u]] != indices0[p0[t]])
  {
    var e := Encode(indices0, indices1);
    var common := CommonInRange(e.a, e.b, 0, e.volume);
    var (p0, p1) := MatchMillerIndices(indices0, indices1).value;
    assert e.a[p0[t]] == common[t] == e.b[p1[t]];
    forall u | 0 <= u < |p0| && u != t
      ensures indices0[p0[u]] != indices0[p0[t]]
    {
      assert e.a[p0[u]] == common[u] != common[t] == e.a[p0[t]];
    }
  }

  /** Every reported pair holds equal indices. */
  lemma MatchPairsEqual(indices0: seq<Miller>, indices1: seq<Miller>)
    requires MatchMillerIndices(indices0, indices1).Ok?
    ensures var (p0, p1) := MatchMillerIndices(indices0, indices1).value;
      forall t :: 0 <= t < |p0| ==> indices0[p0[t]] == indices1[p1[t]]
  {
    var (p0, p1) := MatchMillerIndices(indices0, indices1).value;
    forall t | 0 <= t < |p0|
      ensures indices0[p0[t]] == indices1[p1[t]]
    {
      MatchSound(indices0, indices1, t);
    }
  }

  /** Every index present in both lists is reported, at a position no later
      than any of its occurrences. */
  lemma MatchComplete(indices0: seq<Miller>, indices1: seq<Miller>, x: nat, y: nat) returns (t: nat)
    requires x < |indices0| && y < |indices1| && indices0[x] == indices1[y]
    ensures MatchMillerIndices(indices0, indices1).Ok?
    ensures t < |MatchMillerIndices(indices0, indices1).value.0|
    ensures indices0[MatchMillerIndices(indices0, indices1).value.0[t]] == indices0[x]
    ensures MatchMillerIndices(indices0, indices1).value.0[t] <= x
    ensures MatchMillerIndices(indices0, indices1).value.1[t] <= y
  {
    var e := Encode(indices0, indices1);
    var common := CommonInRange(e.a, e.b, 0, e.volume);
    var (p0, p1) := MatchMillerIndices(indices0, indices1).value;
    assert e.a[x] == e.b[y];
    assert e.a[x] in e.a && e.a[x] in e.b && 0 <= e.a[x] < e.volume;
    t := IndexOfInt(common, e.a[x]);
    assert e.a[p0[t]] == e.a[x];
    assert e.b[p1[t]] == e.b[y];
  }

  /** The extremes along an axis depend only on which indices occur. */
  lemma ExtremesOfSameIndices(s: seq<Miller>, t: seq<Miller>, axis: nat)
    requires |s| > 0 && |t| > 0 && axis < 3
    requires forall h :: h in s <==> h in t
    ensures MinAlong(s, axis) == MinAlong(t, axis) && MaxAlong(s, axis) == MaxAlong(t, axis)
  {
    var p :| 0 <= p < |s| && MinAlong(s, axis) == Component(s[p], axis);
    var q :| 0 <= q < |t| && MinAlong(t, axis) == Component(t[q], axis);
    var p' :| 0 <= p' < |s| && MaxAlong(s, axis) == Component(s[p'], axis);
    var q' :| 0 <= q' < |t| && MaxAlong(t, axis) == Component(t[q'], axis);
    assert s[p] in t && t[q] in s && s[p'] in t && t[q'] in s;
  }

  /** Both lists in the other order give the same offset and box. */
  lemma BoxOfSwapped(indices0: seq<Miller>, indices1: seq<Miller>)
    requires |indices0| + |indices1| > 0
    ensures Offset(indices1 + indices0) == Offset(indices0 + indices1)
    ensures Dims(indices1 + indices0) == Dims(indices0 + indices1)
  {
    var s := indices0 + indices1;
    var t := indices1 + indices0;
    ExtremesOfSameIndices(s, t, 0);
    ExtremesOfSameIndices(s, t, 1);
    ExtremesOfSameIndices(s, t, 2);
    BoxOfSameExtremes(s, t);
  }

  /** Offset and box are functions of the extremes along the three axes. */
  lemma BoxOfSameExtremes(s: seq<Miller>, t: seq<Miller>)
    requires |s| > 0 && |t| > 0
    requires MinAlong(s, 0) == MinAlong(t, 0) && MaxAlong(s, 0) == MaxAlong(t, 0)
    requires MinAlong(s, 1) == MinAlong(t, 1) && MaxAlong(s, 1) == MaxAlong(t, 1)
    requires MinAlong(s, 2) == MinAlong(t, 2) && MaxAlong(s, 2) == MaxAlong(t, 2)
    ensures Offset(s) == Offset(t) && Dims(s) == Dims(t)
  {
    assert Offset(s) == Offset(t);
    assert Dims(s).0 == Dims(t).0;
    assert Dims(s).1 == Dims(t).1;
    assert Dims(s).2 == Dims(t).2;
  }

  /** The common values do not depend on which list comes first. */
  lemma {:induction false} CommonInRangeSwapped(ca: seq<int>, cb: seq<int>, lo: int, hi: int)
    ensures CommonInRange(cb, ca, lo, hi) == CommonInRange(ca, cb, lo, hi)
    decreases hi - lo
  {
    if lo < hi {
      CommonInRangeSwapped(ca, cb, lo + 1, hi);
    }
  }

  /** Matching the second list against the first reports the same pairs with
      their two positions exchanged. */
  lemma MatchSwapped(indices0: seq<Miller>, indices1: seq<Miller>)
    requires |indices0| + |indices1| > 0
    ensures var (p0, p1) := MatchMillerIndices(indices0, indices1).value;
      MatchMillerIndices(indices1, indices0) == Ok((p1, p0))
  {
    BoxOfSwapped(indices0, indices1);
    var e := Encode(indices0, indices1);
    var e' := Encode(indices1, indices0);
    assert e'.a == e.b && e'.b == e.a && e'.volume == e.volume;
    CommonInRangeSwapped(e.a, e.b, 0, e.volume);
  }

  /** `isel[epsilons[isel] == 1]`: the positions whose epsilon factor is 1, in order. */
  function KeepEpsilonOne(isel: seq<nat>, epsilons: seq<int>): (kept: seq<nat>)
    requires forall t :: 0 <= t < |isel| ==> isel[t] < |epsilons|
    ensures |kept| <= |isel|
    ensures forall t :: 0 <= t < |kept| ==> kept[t] < |epsilons|
  {
    if |isel| == 0 then []
    else
      var rest := KeepEpsilonOne(isel[1..], epsilons);
      if epsilons[isel[0]] == 1 then [isel[0]] + rest else rest
  }

  /** A position is kept exactly when it is selected and its factor is 1. */
  lemma {:induction false} KeepEpsilonOneMembers(isel: seq<nat>, epsilons: seq<int>)
    requires forall t :: 0 <= t < |isel| ==> isel[t] < |epsilons|
    ensures forall p :: p in KeepEpsilonOne(isel, epsilons) <==> p in isel && epsilons[p] == 1
  {
    if |isel| > 0 {
      KeepEpsilonOneMembers(isel[1..], epsilons);
      assert isel == [isel[0]] + isel[1..];
    }
  }

  /** Filtering two paired position lists by factors that agree pair by pair
      keeps them paired: both keep the same number of positions, the u-th of
      each coming from the same pair ts[u]. */
  lemma {:induction false} KeepEpsilonOnePaired(isel0: seq<nat>, eps0: seq<int>, isel1: seq<nat>, eps1: seq<int>)
    returns (ts: seq<nat>)
    requires |isel0| == |isel1|
    requires forall t :: 0 <= t < |isel0| ==> isel0[t] < |eps0| && isel1[t] < |eps1|
    requires forall t :: 0 <= t < |isel0| ==> eps0[isel0[t]] == eps1[isel1[t]]
    ensures |KeepEpsilonOne(isel0, eps0)| == |ts| == |KeepEpsilonOne(isel1, eps1)|
    ensures forall u :: 0 <= u < |ts| ==>
      ts[u] < |isel0| && KeepEpsilonOne(isel0, eps0)[u] == isel0[ts[u]] && KeepEpsilonOne(isel1, eps1)[u] == isel1[ts[u]]
  {
    if |isel0| == 0 {
      return [];
    }
    var rest := KeepEpsilonOnePaired(isel0[1..], eps0, isel1[1..], eps1);
    var kept0, kept1 := KeepEpsilonOne(isel0, eps0), KeepEpsilonOne(isel1, eps1);
    var rest0, rest1 := KeepEpsilonOne(isel0[1..], eps0), KeepEpsilonOne(isel1[1..], eps1);
    var shifted := seq(|rest|, u requires 0 <= u < |rest| => rest[u] + 1);
    assert forall u :: 0 <= u < |rest| ==> isel0[shifted[u]] == isel0[1..][rest[u]] && isel1[shifted[u]] == isel1[1..][rest[u]];
    if eps0[isel0[0]] == 1 {
      assert kept0 == [isel0[0]] + rest0 && kept1 == [isel1[0]] + rest1;
      ts := [0] + shifted;
      forall u | 1 <= u < |ts|
        ensures ts[u] < |isel0| && kept0[u] == isel0[ts[u]] && kept1[u] == isel1[ts[u]]
      {
        assert ts[u] == shifted[u - 1] && kept0[u] == rest0[u - 1] && kept1[u] == rest1[u - 1];
      }
    } else {
      assert kept0 == rest0 && kept1 == rest1;
      ts := shifted;
    }
  }
}
