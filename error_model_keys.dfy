/** The part of the error-model assessment that lines up several reflection
    lists on the reflections they have in common: every reflection gets a key
    (its Miller index, whether it is entering, and which half-turn of the scan
    it lies in), the keys must be unique within each list, the keys common to
    all lists are sorted, and every list is cut down and reordered so that its
    n-th row carries the n-th common key. */
module ErrorModelKeys {
  import opened Results

  /** One reflection row with the columns the keys and the statistics use.
      `halfTurn` is the already rounded floor(z / pi) of the calculated
      rotation angle. */
  datatype Reflection = Reflection(
    millerIndex: (int, int, int), entering: bool, halfTurn: int,
    intensity: real, variance: real)

  /** The 5-tuple (h, k, l, entering, c). */
  type Key = (int, int, int, bool, int)

  function KeyOf(r: Reflection): Key
  {
    (r.millerIndex.0, r.millerIndex.1, r.millerIndex.2, r.entering, r.halfTurn)
  }

  /** reflections_to_keys: one key per row, in row order. */
  function ReflectionsToKeys(refl: seq<Reflection>): (keys: seq<Key>)
    ensures |keys| == |refl|
    ensures forall i :: 0 <= i < |refl| ==>
      keys[i].0 == refl[i].millerIndex.0 && keys[i].1 == refl[i].millerIndex.1 &&
      keys[i].2 == refl[i].millerIndex.2 && keys[i].3 == refl[i].entering && keys[i].4 == refl[i].halfTurn
  {
    seq(|refl|, i requires 0 <= i < |refl| => KeyOf(refl[i]))
  }

  /** Python's ordering of these tuples: lexicographic, with False before True. */
  predicate KeyLess(a: Key, b: Key)
    ensures KeyLess(a, b) ==> a != b && a.0 <= b.0
  {
    if a.0 != b.0 then a.0 < b.0
    else if a.1 != b.1 then a.1 < b.1
    else if a.2 != b.2 then a.2 < b.2
    else if a.3 != b.3 then !a.3 && b.3
    else a.4 < b.4
  }

  predicate StrictlySorted(s: seq<Key>)
  {
    forall i, j :: 0 <= i < j < |s| ==> KeyLess(s[i], s[j])
  }

  predicate Distinct(s: seq<Key>)
  {
    forall i, j :: 0 <= i < j < |s| ==> s[i] != s[j]
  }

  /** A key that occurs in every list of keys. */
  ghost predicate Common(key: Key, keys: seq<seq<Key>>)
  {
    forall j :: 0 <= j < |keys| ==> key in keys[j]
  }

  /** The position of a key in a list (Python's list.index). */
  function IndexOf(s: seq<Key>, key: Key): (i: nat)
    requires key in s
    ensures i < |s| && s[i] == key
    ensures forall p :: 0 <= p < i ==> s[p] != key
  {
    if s[0] == key then 0 else 1 + IndexOf(s[1..], key)
  }

  lemma KeyLessTransitive(a: Key, b: Key, c: Key)
    requires KeyLess(a, b) && KeyLess(b, c)
    ensures KeyLess(a, c)
  {
  }

  lemma KeyLessTotal(a: Key, b: Key)
    requires a != b && !KeyLess(a, b)
    ensures KeyLess(b, a)
  {
  }

  /** A non-empty finite set of keys has a least element. */
  lemma {:induction false} LeastKeyExists(s: set<Key>)
    requires s != {}
    ensures exists m :: m in s && forall y :: y in s && y != m ==> KeyLess(m, y)
  {
    var x :| x in s;
    if s == {x} {
      assert forall y :: y in s && y != x ==> KeyLess(x, y);
    } else {
      LeastKeyExists(s - {x});
      var m :| m in s - {x} && forall y :: y in s - {x} && y != m ==> KeyLess(m, y);
      if KeyLess(x, m) {
        forall y | y in s && y != x
          ensures KeyLess(x, y)
        {
          if y != m {
            KeyLessTransitive(x, m, y);
          }
        }
      } else {
        KeyLessTotal(x, m);
        assert forall y :: y in s && y != m ==> KeyLess(m, y);
      }
    }
  }

  /** Python's `sorted` on a set of keys: the set's members in increasing order. */
  method SortedKeys(k0: set<Key>) returns (sorted: seq<Key>)
    ensures StrictlySorted(sorted)
    ensures forall key :: key in sorted <==> key in k0
  {
    sorted := [];
    var rest := k0;
    while rest != {}
      invariant forall key :: key in k0 <==> key in rest || key in sorted
      invariant forall key :: key in rest ==> key !in sorted
      invariant StrictlySorted(sorted)
      invariant forall a, b :: a in sorted && b in rest ==> KeyLess(a, b)
      decreases |rest|
    {
      LeastKeyExists(rest);
      var m :| m in rest && forall y :: y in rest && y != m ==> KeyLess(m, y);
      sorted := sorted + [m];
      rest := rest - {m};
    }
  }

  /** `reflections[j].select(sel)`: the rows at the given positions, in that order. */
  function Select(refl: seq<Reflection>, sel: seq<nat>): (r: seq<Reflection>)
    requires forall t :: 0 <= t < |sel| ==> sel[t] < |refl|
    ensures |r| == |sel| && forall t :: 0 <= t < |sel| ==> r[t] == refl[sel[t]]
  {
    seq(|sel|, t requires 0 <= t < |sel| => refl[sel[t]])
  }

  /** The set of keys common to all lists: the first list's keys, intersected
      with each further list's keys in turn. */
  method CommonKeys(keys: seq<seq<Key>>) returns (k0: set<Key>)
    requires |keys| > 0
    ensures forall key :: key in k0 <==> Common(key, keys)
  {
    k0 := set key | key in keys[0];
    for j := 1 to |keys|
      invariant forall key :: key in k0 <==> forall p :: 0 <= p < j ==> key in keys[p]
    {
      k0 := k0 * set key | key in keys[j];
    }
  }

  /** One list cut down to the common keys and reordered: the rows at the
      positions of those keys among its own keys. Its n-th row carries the
      n-th key. */
  function Reorder(refl: seq<Reflection>, k0: seq<Key>): (r: seq<Reflection>)
    requires forall n :: 0 <= n < |k0| ==> k0[n] in ReflectionsToKeys(refl)
    ensures |r| == |k0|
    ensures forall n :: 0 <= n < |k0| ==> KeyOf(r[n]) == k0[n] && r[n] in refl
  {
    var keys := ReflectionsToKeys(refl);
    var sel: seq<nat> := seq(|k0|, n requires 0 <= n < |k0| => IndexOf(keys, k0[n]));
    Select(refl, sel)
  }

  /** The loop over the lists: each one reordered to the common keys. */
  method AlignLists(reflections: seq<seq<Reflection>>, k0: seq<Key>) returns (aligned: seq<seq<Reflection>>)
    requires forall j, n :: 0 <= j < |reflections| && 0 <= n < |k0| ==> k0[n] in ReflectionsToKeys(reflections[j])
    ensures |aligned| == |reflections|
    ensures forall j :: 0 <= j < |aligned| ==> aligned[j] == Reorder(reflections[j], k0)
  {
    aligned := reflections;
    for j := 0 to |reflections|
      invariant |aligned| == |reflections|
      invariant forall p :: 0 <= p < j ==> aligned[p] == Reorder(reflections[p], k0)
    {
      aligned := aligned[j := Reorder(reflections[j], k0)];
    }
  }

  /** Why this block of assess_error_model stops: a list with a repeated key
      (the uniqueness assertion) or no lists at all (indexing keys[0]). */
  datatype AlignError = DuplicateKeys(list: nat) | NoLists

  /** Lines up the reflection lists on their common keys. On success it returns
      the sorted common keys and the reordered lists. */
  method AlignOnCommonKeys(reflections: seq<seq<Reflection>>)
    returns (r: Result<(seq<Key>, seq<seq<Reflection>>), AlignError>)
    ensures r.Ok? <==> |reflections| > 0 && forall j :: 0 <= j < |reflections| ==> Distinct(ReflectionsToKeys(reflections[j]))
    ensures r.Err? && r.error.DuplicateKeys? ==>
      r.error.list < |reflections| && !Distinct(ReflectionsToKeys(reflections[r.error.list]))
    ensures r.Ok? ==>
      var (k0, aligned) := r.value;
      && StrictlySorted(k0)
      && (forall key :: key in k0 <==> Common(key, seq(|reflections|, j requires 0 <= j < |reflections| => ReflectionsToKeys(reflections[j]))))
      && |aligned| == |reflections|
      && forall j :: 0 <= j < |aligned| ==>
           && |aligned[j]| == |k0|
           && forall n :: 0 <= n < |k0| ==> KeyOf(aligned[j][n]) == k0[n] && aligned[j][n] in reflections[j]
  {
    var nn := |reflections|;
    var keys := seq(nn, j requires 0 <= j < nn => ReflectionsToKeys(reflections[j]));

    // check keys unique in each list
    for j := 0 to nn
      invariant forall p :: 0 <= p < j ==> Distinct(keys[p])
    {
      if !Distinct(keys[j]) {
        return Err(DuplicateKeys(j));
      }
    }
    assert forall p :: 0 <= p < nn ==> keys[p] == ReflectionsToKeys(reflections[p]);
    if nn == 0 {
      return Err(NoLists);
    }

    var k0 := CommonKeys(keys);

    var sortedK0 := SortedKeys(k0);
    forall p, n | 0 <= p < nn && 0 <= n < |sortedK0|
      ensures sortedK0[n] in ReflectionsToKeys(reflections[p])
    {
      assert sortedK0[n] in k0;
    }
    var aligned := AlignLists(reflections, sortedK0);
    r := Ok((sortedK0, aligned));
  }
}
