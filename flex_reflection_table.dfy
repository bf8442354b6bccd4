/** Reflection-table operations of the Python binding: building a table from
    observations and shoeboxes, and the status-flag column with its three
    operations (which rows carry every bit of a value; setting or clearing those
    bits in the rows a mask selects). The flag column is a `std::size_t` array,
    modelled as 64-bit words updated in place. */
module FlexReflectionTable {
  import opened Results

  datatype Vec3 = Vec3(x: real, y: real, z: real)

  /** A bounding box: x0, x1, y0, y1, z0, z1. */
  datatype Int6 = Int6(x0: int, x1: int, y0: int, y1: int, z0: int, z1: int)

  /** One spot observation: its panel, its pixel centroid with the squared
      standard error, and the observed and corrected intensities. */
  datatype Observation = Observation(
    panel: nat, position: Vec3, stdErrSq: Vec3,
    observedValue: real, observedVariance: real,
    correctedValue: real, correctedVariance: real)

  /** A shoebox: its panel, bounding box and the three pixel arrays. */
  datatype Shoebox = Shoebox(panel: nat, bbox: Int6, data: seq<real>, mask: seq<int>, background: seq<real>)

  /** A default-constructed shoebox, as the new table's shoebox column starts. */
  const EmptyShoebox := Shoebox(0, Int6(0, 0, 0, 0, 0, 0), [], [], [])

  /** The columns make_from_observation_and_shoebox fills, one entry per row. */
  datatype Table = Table(
    panel: seq<nat>,
    xyzobsPxValue: seq<Vec3>, xyzobsPxVariance: seq<Vec3>,
    intensityRawValue: seq<real>, intensityRawVariance: seq<real>,
    intensityCorValue: seq<real>, intensityCorVariance: seq<real>,
    bbox: seq<Int6>, shoebox: seq<Shoebox>)

  /** The two assertions of make_from_observation_and_shoebox. */
  datatype TableError = SizeMismatch | PanelMismatch(row: nat)

  /** Row i of the new table carries the observation and shoebox fields of entry i. */
  ghost predicate RowCopied(t: Table, o: seq<Observation>, s: seq<Shoebox>, i: nat)
    requires i < |o| && i < |s| && i < |t.panel| && i < |t.xyzobsPxValue| && i < |t.xyzobsPxVariance|
    requires i < |t.intensityRawValue| && i < |t.intensityRawVariance| && i < |t.intensityCorValue|
    requires i < |t.intensityCorVariance| && i < |t.bbox| && i < |t.shoebox|
  {
    && t.panel[i] == o[i].panel
    && t.xyzobsPxValue[i] == o[i].position
    && t.xyzobsPxVariance[i] == o[i].stdErrSq
    && t.intensityRawValue[i] == o[i].observedValue
    && t.intensityRawVariance[i] == o[i].observedVariance
    && t.intensityCorValue[i] == o[i].correctedValue
    && t.intensityCorVariance[i] == o[i].correctedVariance
    && t.bbox[i] == s[i].bbox
    && t.shoebox[i] == EmptyShoebox.(bbox := s[i].bbox, data := s[i].data, mask := s[i].mask, background := s[i].background)
  }

  ghost predicate HasRows(t: Table, n: nat)
  {
    && |t.panel| == n && |t.xyzobsPxValue| == n && |t.xyzobsPxVariance| == n
    && |t.intensityRawValue| == n && |t.intensityRawVariance| == n
    && |t.intensityCorValue| == n && |t.intensityCorVariance| == n
    && |t.bbox| == n && |t.shoebox| == n
  }

  /** make_from_observation_and_shoebox: one row per observation, copying the
      observation fields and the shoebox's box and pixel arrays; fails when the
      two lists differ in length, or at the first row whose panels differ. */
  method MakeFromObservationAndShoebox(o: seq<Observation>, s: seq<Shoebox>) returns (r: Result<Table, TableError>)
    ensures r == Err(SizeMismatch) <==> |o| != |s|
    ensures r.Err? && r.error.PanelMismatch? ==>
      |o| == |s| && r.error.row < |o| && o[r.error.row].panel != s[r.error.row].panel &&
      forall p :: 0 <= p < r.error.row ==> o[p].panel == s[p].panel
    ensures r.Ok? <==> |o| == |s| && forall i :: 0 <= i < |o| ==> o[i].panel == s[i].panel
    ensures r.Ok? ==> HasRows(r.value, |o|) && forall i :: 0 <= i < |o| ==> RowCopied(r.value, o, s, i)
  {
    if |o| != |s| {
      return Err(SizeMismatch);
    }
    var n := |o|;
    var t := Table([], [], [], [], [], [], [], [], []);
    for i := 0 to n
      invariant forall p :: 0 <= p < i ==> o[p].panel == s[p].panel
      invariant HasRows(t, i)
      invariant forall p :: 0 <= p < i ==> RowCopied(t, o, s, p)
    {
      if o[i].panel != s[i].panel {
        return Err(PanelMismatch(i));
      }
      var sb := EmptyShoebox.(bbox := s[i].bbox, data := s[i].data, mask := s[i].mask, background := s[i].background);
      ghost var before := t;
      t := Table(
        t.panel + [o[i].panel],
        t.xyzobsPxValue + [o[i].position], t.xyzobsPxVariance + [o[i].stdErrSq],
        t.intensityRawValue + [o[i].observedValue], t.intensityRawVariance + [o[i].observedVariance],
        t.intensityCorValue + [o[i].correctedValue], t.intensityCorVariance + [o[i].correctedVariance],
        t.bbox + [s[i].bbox], t.shoebox + [sb]);
      forall p | 0 <= p <= i
        ensures RowCopied(t, o, s, p)
      {
        if p < i {
          assert RowCopied(before, o, s, p);
        }
      }
    }
    r := Ok(t);
  }

  type Word = bv64

  /** get_flags, row i: every bit of value is set in the row's flags. */
  function HasAll(flag: Word, value: Word): (all: bool)
    ensures all <==> flag | value == flag
  {
    flag & value == value
  }

  /** One masked row of set_flags: `flags[i] |= value`. */
  function Or(flag: Word, value: Word): (r: Word)
    ensures r & flag == flag && r & value == value
  {
    flag | value
  }

  /** One masked row of unset_flags: `flags[i] &= ~value`. */
  function Clear(flag: Word, value: Word): (r: Word)
    ensures r & value == 0 && HasAll(flag, r)
  {
    flag & !value
  }

  /** The flag column after set_flags(mask, value): value ORed into masked rows. */
  function SetFlagsSpec(flags: seq<Word>, mask: seq<bool>, value: Word): (r: seq<Word>)
    requires |mask| == |flags|
    ensures |r| == |flags|
    ensures forall i :: 0 <= i < |flags| && !mask[i] ==> r[i] == flags[i]
  {
    seq(|flags|, i requires 0 <= i < |flags| => if mask[i] then Or(flags[i], value) else flags[i])
  }

  /** The flag column after unset_flags(mask, value): value's bits cleared in masked rows. */
  function UnsetFlagsSpec(flags: seq<Word>, mask: seq<bool>, value: Word): (r: seq<Word>)
    requires |mask| == |flags|
    ensures |r| == |flags|
    ensures forall i :: 0 <= i < |flags| && !mask[i] ==> r[i] == flags[i]
  {
    seq(|flags|, i requires 0 <= i < |flags| => if mask[i] then Clear(flags[i], value) else flags[i])
  }

  /** set_flags only adds bits: masked rows keep every bit they had and gain those of value. */
  lemma SetFlagsAddsBits(flags: seq<Word>, mask: seq<bool>, value: Word, i: nat)
    requires |mask| == |flags| && i < |flags| && mask[i]
    ensures HasAll(SetFlagsSpec(flags, mask, value)[i], value)
    ensures HasAll(SetFlagsSpec(flags, mask, value)[i], flags[i])
  {
  }

  /** set_flags sets exactly the bits of value in masked rows: a bit is set
      afterwards exactly when it was set before or is a bit of value, so the
      new word is the smallest one holding both the old bits and value's. */
  lemma SetFlagsSetsExactly(flags: seq<Word>, mask: seq<bool>, value: Word, i: nat, bit: Word)
    requires |mask| == |flags| && i < |flags| && mask[i]
    ensures SetFlagsSpec(flags, mask, value)[i] & bit == (flags[i] & bit) | (value & bit)
    ensures HasAll(bit, flags[i]) && HasAll(bit, value) ==> HasAll(bit, SetFlagsSpec(flags, mask, value)[i])
  {
  }

  /** Setting the same bits twice is setting them once. */
  lemma SetFlagsIdempotent(flags: seq<Word>, mask: seq<bool>, value: Word)
    requires |mask| == |flags|
    ensures SetFlagsSpec(SetFlagsSpec(flags, mask, value), mask, value) == SetFlagsSpec(flags, mask, value)
  {
  }

  /** unset_flags clears exactly the bits of value in masked rows: a bit is set
      afterwards exactly when it was set before and is not a bit of value. */
  lemma UnsetFlagsClearsExactly(flags: seq<Word>, mask: seq<bool>, value: Word, i: nat, bit: Word)
    requires |mask| == |flags| && i < |flags| && mask[i]
    ensures UnsetFlagsSpec(flags, mask, value)[i] & bit == flags[i] & bit & !value
  {
  }

  /** After unset_flags with a non-zero value, get_flags of that value is false in every masked row. */
  lemma UnsetThenGet(flags: seq<Word>, mask: seq<bool>, value: Word, i: nat)
    requires |mask| == |flags| && i < |flags| && mask[i] && value != 0
    ensures !HasAll(UnsetFlagsSpec(flags, mask, value)[i], value)
  {
  }

  /** The columns of a reflection table this model needs: the flags. */
  class ReflectionTable {
    var flags: array<Word>

    constructor (flags: seq<Word>)
      ensures this.flags[..] == flags && fresh(this.flags)
    {
      this.flags := new Word[|flags|](i requires 0 <= i < |flags| => flags[i]);
    }

    function NRows(): nat
      reads this
    {
      flags.Length
    }

    /** get_flags: a fresh boolean column of nrows entries, true exactly where
        every bit of value is set. */
    method GetFlags(value: Word) returns (result: array<bool>)
      ensures fresh(result) && result.Length == NRows()
      ensures forall i :: 0 <= i < result.Length ==> result[i] == HasAll(flags[i], value)
    {
      result := new bool[flags.Length];
      for i := 0 to result.Length
        invariant forall p :: 0 <= p < i ==> result[p] == HasAll(flags[p], value)
      {
        result[i] := HasAll(flags[i], value);
      }
    }

    /** set_flags: fails its assertion unless the mask has one entry per row;
        otherwise ORs value into the flags of every masked row. */
    method SetFlags(mask: seq<bool>, value: Word) returns (ok: bool)
      modifies flags
      ensures ok <==> |mask| == old(NRows())
      ensures ok ==> flags[..] == SetFlagsSpec(old(flags[..]), mask, value)
      ensures !ok ==> flags[..] == old(flags[..])
    {
      if |mask| != flags.Length {
        return false;
      }
      ok := true;
      ghost var before := flags[..];
      ghost var after := SetFlagsSpec(before, mask, value);
      for i := 0 to |mask|
        invariant forall p :: 0 <= p < i ==> flags[p] == after[p]
        invariant forall p :: i <= p < flags.Length ==> flags[p] == before[p]
      {
        if mask[i] {
          flags[i] := Or(flags[i], value);
        }
      }
      assert flags[..] == after;
    }

    /** unset_flags: fails its assertion unless the mask has one entry per row;
        otherwise clears the bits of value in the flags of every masked row. */
    method UnsetFlags(mask: seq<bool>, value: Word) returns (ok: bool)
      modifies flags
      ensures ok <==> |mask| == old(NRows())
      ensures ok ==> flags[..] == UnsetFlagsSpec(old(flags[..]), mask, value)
      ensures !ok ==> flags[..] == old(flags[..])
    {
      if |mask| != flags.Length {
        return false;
      }
      ok := true;
      ghost var before := flags[..];
      ghost var after := UnsetFlagsSpec(before, mask, value);
      for i := 0 to |mask|
        invariant forall p :: 0 <= p < i ==> flags[p] == after[p]
        invariant forall p :: i <= p < flags.Length ==> flags[p] == before[p]
      {
        if mask[i] {
          flags[i] := Clear(flags[i], value);
        }
      }
      assert flags[..] == after;
    }
  }

  /** Set then get, on the table: after a successful set_flags(mask, value),
      get_flags(value) is true in every masked row. */
  method SetThenGet(t: ReflectionTable, mask: seq<bool>, value: Word) returns (got: array<bool>)
    modifies t.flags
    ensures got.Length == t.NRows()
    ensures |mask| == t.NRows() ==> forall i :: 0 <= i < |mask| && mask[i] ==> got[i]
  {
    var ok := t.SetFlags(mask, value);
    got := t.GetFlags(value);
    if ok {
      forall i | 0 <= i < |mask| && mask[i]
        ensures got[i]
      {
        SetFlagsAddsBits(old(t.flags[..]), mask, value, i);
      }
    }
  }
}
