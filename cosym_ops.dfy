/** The settings a cosym target is built with: the weighting scheme, the
    duplicate-free, insertion-ordered list of symmetry operations (seeded
    with the identity), the number of dimensions, and the twin operators
    taken from the coset decomposition of the lattice group. */
module CosymOps {
  import opened Results

  // ---------------------------------------------------------------------
  // Weights
  // ---------------------------------------------------------------------

  datatype Weights = Unweighted | Count | StandardError

  datatype WeightsError = UnknownWeights(name: string)

  /** The `weights` argument: `None`, "count" or "standard_error"; anything
      else fails the constructor's assertion. */
  function ParseWeights(weights: Option<string>): (r: Result<Weights, WeightsError>)
    ensures r.Ok? <==> weights.None? || weights.value == "count" || weights.value == "standard_error"
    ensures r == Ok(Unweighted) <==> weights.None?
    ensures r.Err? ==> r.error == UnknownWeights(weights.value)
  {
    match weights
    case None => Ok(Unweighted)
    case Some(name) =>
      if name == "count" then Ok(Count)
      else if name == "standard_error" then Ok(StandardError)
      else Err(UnknownWeights(name))
  }

  /** The string a weighting scheme is named by. */
  function WeightsName(w: Weights): Option<string>
  {
    match w
    case Unweighted => None
    case Count => Some("count")
    case StandardError => Some("standard_error")
  }

  /** Every accepted name parses back to the scheme it names, and every scheme
      is named by the argument it was parsed from. */
  lemma ParseWeightsRoundTrip(w: Weights, weights: Option<string>)
    ensures ParseWeights(WeightsName(w)) == Ok(w)
    ensures ParseWeights(weights).Ok? ==> WeightsName(ParseWeights(weights).value) == weights
  {
  }

  /** `if self._weights:` - a weighting scheme is in use. */
  predicate Weighted(w: Weights)
  {
    w != Unweighted
  }

  // ---------------------------------------------------------------------
  // The ordered set of symmetry operations
  // ---------------------------------------------------------------------

  const Identity: string := "x,y,z"

  predicate NoDuplicates(s: seq<string>)
  {
    forall t, u :: 0 <= t < u < |s| ==> s[t] != s[u]
  }

  /** The first position of x in s. */
  function IndexOf(s: seq<string>, x: string): (i: nat)
    requires x in s
    ensures i < |s| && s[i] == x && forall t :: 0 <= t < i ==> s[t] != x
  {
    if s[0] == x then 0 else 1 + IndexOf(s[1..], x)
  }

  /** `OrderedSet.add`: appends x unless it is already present. */
  function Add(s: seq<string>, x: string): (r: seq<string>)
    ensures NoDuplicates(s) ==> NoDuplicates(r)
    ensures |s| <= |r| && r[..|s|] == s
    ensures forall y :: y in r <==> y in s || y == x
  {
    if x in s then s else s + [x]
  }

  /** `OrderedSet.update`: adds the items in order. */
  function Update(s: seq<string>, xs: seq<string>): (r: seq<string>)
    ensures NoDuplicates(s) ==> NoDuplicates(r)
    ensures |s| <= |r| && r[..|s|] == s
    ensures forall y :: y in r <==> y in s || y in xs
    decreases |xs|
  {
    if |xs| == 0 then s else Update(Add(s, xs[0]), xs[1..])
  }

  /** The items update appends come in the order the items first appear. */
  lemma {:induction false} UpdateKeepsInsertionOrder(s: seq<string>, xs: seq<string>, t: nat, u: nat)
    requires NoDuplicates(s)
    requires |s| <= t < u < |Update(s, xs)|
    ensures Update(s, xs)[t] in xs && Update(s, xs)[u] in xs
    ensures IndexOf(xs, Update(s, xs)[t]) < IndexOf(xs, Update(s, xs)[u])
    decreases |xs|
  {
    var r := Update(s, xs);
    var a := Add(s, xs[0]);
    assert r == Update(a, xs[1..]);
    assert r[..|a|] == a;
    if |a| == |s| {
      UpdateKeepsInsertionOrder(a, xs[1..], t, u);
      IndexOfTail(xs, r[t]);
      IndexOfTail(xs, r[u]);
    } else {
      assert r[|s|] == xs[0];
      if t == |s| {
        assert IndexOf(xs, r[t]) == 0;
        assert r[u] != xs[0];
        IndexOfTail(xs, r[u]);
      } else {
        UpdateKeepsInsertionOrder(a, xs[1..], t, u);
        assert r[t] != xs[0] && r[u] != xs[0];
        IndexOfTail(xs, r[t]);
        IndexOfTail(xs, r[u]);
      }
    }
  }

  lemma IndexOfTail(xs: seq<string>, x: string)
    requires |xs| > 0 && x in xs && x != xs[0]
    ensures x in xs[1..] && IndexOf(xs, x) == 1 + IndexOf(xs[1..], x)
  {
  }

  /** `sym_ops`: the identity followed by the twin operators' names, without repeats. */
  function SymOps(twinNames: seq<string>): (ops: seq<string>)
    ensures |ops| >= 1 && ops[0] == Identity
    ensures NoDuplicates(ops)
    ensures forall y :: y in ops <==> y == Identity || y in twinNames
  {
    Update([Identity], twinNames)
  }

  /** The number of dimensions: the one given, or the greater of 2 and the
      number of symmetry operations. */
  function Dimensions(dimensions: Option<int>, symOps: seq<string>): (d: int)
    ensures dimensions.None? ==> d >= 2 && d >= |symOps| && (d == 2 || d == |symOps|)
    ensures dimensions.Some? ==> d == dimensions.value
  {
    match dimensions
    case None => if |symOps| > 2 then |symOps| else 2
    case Some(value) => value
  }

  // ---------------------------------------------------------------------
  // Twin operators
  // ---------------------------------------------------------------------

  /** An integer 3x3 matrix, row by row. */
  datatype Mat3 = Mat3(a: int, b: int, c: int, d: int, e: int, f: int, g: int, h: int, i: int)

  /** A rotation-translation operator; only its rotation part is examined here. */
  datatype RtMx = RtMx(r: Mat3, t: (int, int, int))

  /** The determinant of the rotation part; for a triangular matrix it is the
      product of the diagonal. */
  function Det3(m: Mat3): (det: int)
    ensures m.d == 0 && m.g == 0 && m.h == 0 ==> det == m.a * m.e * m.i
    ensures m.b == 0 && m.c == 0 && m.f == 0 ==> det == m.a * m.e * m.i
  {
    m.a * (m.e * m.i - m.f * m.h) - m.b * (m.d * m.i - m.f * m.g) + m.c * (m.d * m.h - m.e * m.g)
  }

  predicate AllNonEmpty(partitions: seq<seq<RtMx>>)
  {
    forall p :: 0 <= p < |partitions| ==> |partitions[p]| > 0
  }

  /** The representatives of the given partitions whose rotation has a
      positive determinant, carried through the change of basis, in order. */
  function KeptRepresentatives(partitions: seq<seq<RtMx>>, apply: RtMx -> RtMx): (ops: seq<RtMx>)
    requires AllNonEmpty(partitions)
    ensures |ops| <= |partitions|
    ensures forall x :: x in ops <==>
      exists p :: 0 <= p < |partitions| && Det3(partitions[p][0].r) > 0 && x == apply(partitions[p][0])
  {
    if |partitions| == 0 then []
    else
      var last := partitions[|partitions| - 1];
      var before := KeptRepresentatives(partitions[..|partitions| - 1], apply);
      assert forall p :: 0 <= p < |partitions| - 1 ==> partitions[..|partitions| - 1][p] == partitions[p];
      if Det3(last[0].r) > 0 then before + [apply(last[0])] else before
  }

  datatype TwinError = EmptyPartition

  /** `_generate_twin_operators`: skips the first partition (the one holding
      the intensity symmetry itself) and keeps the first element of every
      other partition whose rotation part has a positive determinant; an
      empty partition fails the `partition[0]` lookup. */
  method GenerateTwinOperators(partitions: seq<seq<RtMx>>, apply: RtMx -> RtMx) returns (r: Result<seq<RtMx>, TwinError>)
    ensures r.Ok? <==> |partitions| <= 1 || AllNonEmpty(partitions[1..])
    ensures r.Ok? && |partitions| > 1 ==> r.value == KeptRepresentatives(partitions[1..], apply)
    ensures r.Ok? && |partitions| <= 1 ==> r.value == []
  {
    var operators: seq<RtMx> := [];
    if |partitions| <= 1 {
      return Ok(operators);
    }
    var rest := partitions[1..];
    for p := 0 to |rest|
      invariant AllNonEmpty(rest[..p])
      invariant operators == KeptRepresentatives(rest[..p], apply)
    {
      var partition := rest[p];
      if |partition| == 0 {
        return Err(EmptyPartition);
      }
      assert rest[..p + 1][..p] == rest[..p];
      if Det3(partition[0].r) > 0 {
        operators := operators + [apply(partition[0])];
      }
    }
    assert rest[..|rest|] == rest;
    r := Ok(operators);
  }
}
