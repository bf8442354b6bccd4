# A verified model of DIALS cosym and its neighbours

This project models, in Dafny, one part of DIALS, the X-ray diffraction data
processing package. It then proves what that code promises. The main part is
the pairwise-correlation engine of the cosym symmetry analysis
(`algorithms/symmetry/cosym/target.py`). A `Target` goes through these steps:

- It checks its weighting scheme.
- It sorts the reflections by lattice id.
- It finds each lattice's row range.
- It collects a duplicate-free, insertion-ordered list of symmetry operations, seeded with the identity `x,y,z`.
- It reindexes every reflection under every operation.
- It builds the n·m × n·m correlation matrix `rij` and, optionally, the count or standard-error weight matrix `wij`.
  - Each dataset pair under each pair of operations is matched exactly on Miller indices.
  - The matches are filtered on an epsilon factor of 1.
  - They are correlated, cached by relative operation, and appended to sparse COO buffers one row block at a time.
  - The blocks are then summed.
- Finally it evaluates the target `0.5·Σ w·(rij − xᵀx)²` at coordinates `x`.

Four smaller cores sit beside it:

- the reflection-table flag column (`get_flags`, `set_flags`, `unset_flags`) and `make_from_observation_and_shoebox` of the C++ binding;
- input-file classification and the fixed-width progress and "end of command" lines of `dials.util.command_line`;
- the common-key alignment of reflection lists in `assess_error_models`;
- the glyph table and the character-to-glyph-code mapping of the image viewer's digit font.

How each part is modelled:

- Code that changes state step by step is imperative Dafny: methods with loops and invariants, classes with fields, and arrays updated in place. This covers the row-block loops with their cache and buffers, the flag loops, the progress bar, the glyph fill and `get_digits`.
- Each such method is proved against a specification function. The properties are proved about that function as lemmas.
- Expression-only code becomes functions and lemmas. This covers the lattice lookup, the matching, `compute_functional`, the file classification and the key computation.

What is a parameter rather than modelled:

- The crystallographic library calls are function-valued parameters: reindexing plus `map_to_asu`, the Patterson group's epsilon, the name of the relative operation `k⁻¹·kk`, `cb_op.apply`, `as_xyz` and the coset partitions.
- So are the numeric core of `pearsonr` (`None` standing for NaN), the standard-error formula, and `argsort` (given by its result and contract).
- The clock, the terminal test and `%.2f` formatting are parameters too.

Ambiguities, resolved by following the code:

- **Skipped pairs.** The code itself treats a pair with fewer than `min_pairs` matches as absent from the matrices: the guard at algorithms/symmetry/cosym/target.py:279-284 skips such a pair (`continue`) before any entry is appended, and the docstring at target.py:161-174 describes only the entries that are stored. The `np.isnan(cc)` test at line 273 raises before that guard is reached, however (see Findings). The model keeps both: the as-written step is `CorrelateAsWritten` and `OutcomeAsWritten`; the rest of the model uses the intended one.
- **Epsilon factors of dataset j** are read from operation `k` (line 241), as written. `CosymEpsilon` proves the consequences. With that reading the filtered lists stay paired when the epsilon factor does not depend on the operation. With factors read from `kk` they always stay paired.
- **Weights below the count threshold.** Under `standard_error`, an entry with a count of at most 2 keeps its correlation in `rij` and gets weight 0, as the code does.

## Model

| member | source | states |
|---|---|---|
| CosymRows.Take | algorithms/symmetry/cosym/target.py:73-76 | `a[order]` has one entry per position of `order`: entry p is `a[order[p]]` |
| CosymRows.TakeArgsortSorted | algorithms/symmetry/cosym/target.py:73-76 | the lattice ids reordered by their argsort are sorted |
| CosymRows.LatticesFrom | algorithms/symmetry/cosym/target.py:82-87 | the rows from p on that start a new id, strictly increasing, and every such row is among them |
| CosymRows.Lattices | algorithms/symmetry/cosym/target.py:82-87 | `_lattices` is exactly the strictly increasing list of rows where a new id starts |
| CosymRows.LatticesStartAtZero | algorithms/symmetry/cosym/target.py:82-87 | with any rows there is a lattice, and the first one starts at row 0 |
| CosymRows.LatticeRowsShareId | algorithms/symmetry/cosym/target.py:151-158 | every row of lattice t's range carries the id of its first row |
| CosymRows.LatticeRangesDisjoint | algorithms/symmetry/cosym/target.py:151-158 | the row ranges of two different lattices do not overlap |
| CosymRows.RowInSomeLattice | algorithms/symmetry/cosym/target.py:151-158 | every row lies in some lattice's range `[_lattices[t], _lattices[t+1])`, the last running to the end |
| CosymRows.EveryRowInOneLattice | algorithms/symmetry/cosym/target.py:151-158 | every row lies in exactly one lattice's range |
| CosymRows.LatticesAreFirstOccurrences | algorithms/symmetry/cosym/target.py:82-87 | on sorted ids `_lattices[t]` is the first row with its id (`np.where(...)[0][0]`), and successive lattices have increasing ids (`np.unique` order) |
| CosymRows.EveryIdHasLattice | algorithms/symmetry/cosym/target.py:82-87 | every id present is the id of some lattice |
| CosymRows.LatticeLowerUpperIndex | algorithms/symmetry/cosym/target.py:151-158 | lower is `_lattices[id]`; upper is `_lattices[id+1]`, or `None` exactly for the last lattice; an id past the end fails |
| CosymRows.LowerUpperIsRowRange | algorithms/symmetry/cosym/target.py:151-158 | lower/upper (None read as the end) is the non-empty row range of the lattice |
| CosymOps.ParseWeights | algorithms/symmetry/cosym/target.py:61-63 | exactly `None`, "count" and "standard_error" are accepted (None meaning unweighted); anything else fails the assertion |
| CosymOps.ParseWeightsRoundTrip | algorithms/symmetry/cosym/target.py:61-63 | each scheme's name parses back to it, and each accepted argument is the name of what it parses to |
| CosymOps.Add | algorithms/symmetry/cosym/target.py:89-91 | `OrderedSet.add` keeps the set duplicate-free, keeps the old items as a prefix, and adds exactly x |
| CosymOps.Update | algorithms/symmetry/cosym/target.py:89-91 | `update` keeps it duplicate-free, keeps the old items as a prefix, and holds exactly the old and the new items |
| CosymOps.UpdateKeepsInsertionOrder | algorithms/symmetry/cosym/target.py:89-91 | the appended items come in the order of their first appearance among the new items |
| CosymOps.SymOps | algorithms/symmetry/cosym/target.py:89-91 | `sym_ops` starts with `x,y,z`, has no duplicates, and holds exactly the identity and the twin operators' names |
| CosymOps.Dimensions | algorithms/symmetry/cosym/target.py:92-94 | the given dimension, or else `max(2, len(sym_ops))` |
| CosymOps.Det3 | algorithms/symmetry/cosym/target.py:146 | the determinant of a triangular rotation matrix (upper or lower) is the product of its diagonal, the value the `determinant() > 0` test reads |
| CosymOps.KeptRepresentatives | algorithms/symmetry/cosym/target.py:140-147 | the kept operators are exactly the changed-basis first elements of partitions whose rotation has positive determinant |
| CosymOps.GenerateTwinOperators | algorithms/symmetry/cosym/target.py:139-149 | skips partition 0 and keeps those representatives; fails exactly when a later partition is empty |
| CosymMatch.MinAlong | algorithms/symmetry/cosym/target.py:244-246 | the minimum along an axis is attained and bounds every component below |
| CosymMatch.MaxAlong | algorithms/symmetry/cosym/target.py:248-250 | the maximum along an axis is attained and bounds every component above |
| CosymMatch.Offset | algorithms/symmetry/cosym/target.py:254-255 | the offset `-min` per column moves every index of both lists to non-negative coordinates |
| CosymMatch.Dims | algorithms/symmetry/cosym/target.py:247-253 | every extent of `dims` is at least 1 |
| CosymMatch.ShiftedInBox | algorithms/symmetry/cosym/target.py:243-253 | after adding `offset` every index of either list lies in `[0, dims)` |
| CosymMatch.RavelInRange | algorithms/symmetry/cosym/target.py:254-255 | inside the box the C-order ravel lies in `[0, d0·d1·d2)` |
| CosymMatch.RavelInjective | algorithms/symmetry/cosym/target.py:254-255 | inside the box equal ravelled codes come from equal indices |
| CosymMatch.Codes | algorithms/symmetry/cosym/target.py:254-255 | one code per index, each the ravel of the shifted index |
| CosymMatch.BothInBox | algorithms/symmetry/cosym/target.py:243-255 | both lists, shifted by the common offset, lie inside the common dims |
| CosymMatch.CodesMatchIndices | algorithms/symmetry/cosym/target.py:254-255 | inside the box a code of one list equals a code of the other exactly when the indices are equal |
| CosymMatch.CodesInRange | algorithms/symmetry/cosym/target.py:254-255 | every code lies in `[0, volume)` |
| CosymMatch.Encode | algorithms/symmetry/cosym/target.py:243-255 | `a` and `b` have one code per index, in `[0, volume)`, and `a[p] == b[q]` exactly when the indices are equal |
| CosymMatch.EncodeInjective | algorithms/symmetry/cosym/target.py:254-255 | within one list, too, two codes are equal exactly when their indices are |
| CosymMatch.CommonInRange | algorithms/symmetry/cosym/target.py:256 | the values in both lists, strictly increasing, and all of them (`intersect1d`) |
| CosymMatch.FirstPositions | algorithms/symmetry/cosym/target.py:256 | `return_indices` gives, for each common value, its first position |
| CosymMatch.MatchMillerIndices | algorithms/symmetry/cosym/target.py:243-257 | fails exactly when both lists are empty (`np.min` of nothing); otherwise two equal-length position lists inside the two lists |
| CosymMatch.MatchSound | algorithms/symmetry/cosym/target.py:243-257 | each reported pair holds equal indices, both at their first occurrences, and different pairs report different indices |
| CosymMatch.MatchPairsEqual | algorithms/symmetry/cosym/target.py:243-257 | every reported pair `(p0[t], p1[t])` holds equal indices |
| CosymMatch.MatchComplete | algorithms/symmetry/cosym/target.py:243-257 | every index present in both lists is reported, at positions no later than any occurrence |
| CosymMatch.KeepEpsilonOne | algorithms/symmetry/cosym/target.py:261-262 | the filter keeps no more positions than given, all of them valid |
| CosymMatch.KeepEpsilonOneMembers | algorithms/symmetry/cosym/target.py:261-262 | a position is kept exactly when it was selected and its epsilon factor is 1 |
| CosymMatch.KeepEpsilonOnePaired | algorithms/symmetry/cosym/target.py:261-262 | filtering two paired lists by factors that agree pair by pair keeps equal lengths, the u-th of each from the same pair |
| CosymRij.RowRange | algorithms/symmetry/cosym/target.py:213-219 | dataset t's rows are the non-empty range from `_lattices[t]` to the next lattice or the end |
| CosymRij.DatasetIndices | algorithms/symmetry/cosym/target.py:224 | `indices[cb_op][lower:upper]`: one reindexed index per row of the dataset |
| CosymRij.DatasetEpsilons | algorithms/symmetry/cosym/target.py:225 | `epsilons[cb_op][lower:upper]`: one epsilon factor per row of the dataset |
| CosymRij.FilteredPairs | algorithms/symmetry/cosym/target.py:240-262 | matching never fails on datasets (they are non-empty), and the filtered positions lie inside each dataset |
| CosymRij.Correlate | algorithms/symmetry/cosym/target.py:264-276 | fewer than `min_pairs` matches or a NaN coefficient give no value; otherwise `(cc, n)` with cc pearsonr's value; pearsonr's only failures are unequal lengths and fewer than 2 values |
| CosymRij.CorrelateAsWritten | algorithms/symmetry/cosym/target.py:264-276 | as written, fewer than `min_pairs` matches raise at `np.isnan(None)`; otherwise it agrees with Correlate |
| CosymRij.Outcome | algorithms/symmetry/cosym/target.py:259-284 | the outcome of one pair (dataset i under k against j under kk): it fails only inside pearsonr (length mismatch or too few values); fewer than `min_pairs` filtered matches give no value; a stored value carries the count of filtered matches, at least `min_pairs` |
| CosymRij.OutcomeErrors | algorithms/symmetry/cosym/target.py:259-276 | a pair fails only in pearsonr; too few pairs give no value; it fails on lengths exactly when enough pairs were kept and the two filtered lists differ in length |
| CosymRij.KeySoundTable | algorithms/symmetry/cosym/target.py:170-172 | the cache's premise, on the outcomes: pairs with the same relative-operation key have the same outcome |
| CosymRij.Push | algorithms/symmetry/cosym/target.py:286-291 | appending to a coordinate buffer keeps every stored entry in place and adds exactly one entry (row, col, value) at the end |
| CosymRij.Record | algorithms/symmetry/cosym/target.py:279-291 | a pair with no value or fewer than `min_pairs` matches leaves both buffers as they were; otherwise rij gains exactly (ik, jk, cc), wij gains (ik, jk, n) when weights are on and is untouched when they are off |
| CosymRij.StepPair | algorithms/symmetry/cosym/target.py:228-291 | the self-correlation (i == j, k == kk) is skipped without change; a pass fails exactly when its pair is not skipped and its outcome is an error, and then with that error |
| CosymRij.StepPairGrows | algorithms/symmetry/cosym/target.py:286-291 | one pass of the kk loop only appends to the rij and wij buffers |
| CosymRij.KKLoopGrows | algorithms/symmetry/cosym/target.py:227-291 | the kk loop (`KKLoop`) only appends to the buffers it is given |
| CosymRij.KLoopGrows | algorithms/symmetry/cosym/target.py:221-291 | the k loop (`KLoop`) only appends to the buffers it is given |
| CosymRij.JLoopGrows | algorithms/symmetry/cosym/target.py:216-291 | the j loop (`JLoop`) only appends: a row block's buffers are built by appending alone |
| CosymRij.KKLoopErrStays | algorithms/symmetry/cosym/target.py:227-291 | once the kk loop has failed, running it to the end gives the same error (the exception leaves the loop) |
| CosymRij.KLoopErrStays | algorithms/symmetry/cosym/target.py:221-291 | once the k loop has failed, running it to the end gives the same error |
| CosymRij.JLoopErrStays | algorithms/symmetry/cosym/target.py:216-291 | once the j loop has failed, running it to the end gives the same error |
| CosymRij.KKLoopFails | algorithms/symmetry/cosym/target.py:227-291 | the kk loop fails exactly when one of its passes fails, and with the error of such a pass |
| CosymRij.KLoopFails | algorithms/symmetry/cosym/target.py:221-291 | the k loop fails exactly when one of its pairs fails, and with that pair's error |
| CosymRij.JLoopFails | algorithms/symmetry/cosym/target.py:216-291 | the j loop fails exactly when one of its pairs fails, and with that pair's error |
| CosymRij.BlockFails | algorithms/symmetry/cosym/target.py:197-301 | a row block fails exactly when one of its pairs that is not skipped fails, and with that pair's error |
| CosymRij.BlockFrom | algorithms/symmetry/cosym/target.py:197-301 | a finished row block has a wij buffer exactly when weights are on |
| CosymRij.RowBlockSpec | algorithms/symmetry/cosym/target.py:197-301 | row block i computed without the cache has a wij buffer exactly when weights are on |
| CosymRij.RowBlockSpecErrors | algorithms/symmetry/cosym/target.py:197-301 | a row block fails only inside pearsonr: with a length mismatch or too few values |
| CosymRij.PairTableIsTable | algorithms/symmetry/cosym/target.py:236-277 | the table of outcomes of row block i holds Outcome at every (j, k, kk) of the block |
| CosymRij.KKLoopAgree | algorithms/symmetry/cosym/target.py:227-291 | two outcome tables that agree on every pair that is not skipped give the same kk loop |
| CosymRij.KLoopAgree | algorithms/symmetry/cosym/target.py:221-291 | two agreeing outcome tables give the same k loop |
| CosymRij.JLoopAgree | algorithms/symmetry/cosym/target.py:216-291 | two agreeing outcome tables give the same j loop |
| CosymRij.TablesAgree | algorithms/symmetry/cosym/target.py:236-277 | two tables of the same outcomes agree on every pair of the block |
| CosymRij.KKLoopStep | algorithms/symmetry/cosym/target.py:279-291 | a non-self pass with a value records it at `(i + n·k, j + n·kk)` |
| CosymRij.BlockFromTable | algorithms/symmetry/cosym/target.py:197-301 | the row block the loops build depends only on the pair outcomes |
| CosymRij.Append | algorithms/symmetry/cosym/target.py:279-291 | the buffers after one pair are the specified record of it: rij gets cc and (with weights) wij gets n, or nothing is appended |
| CosymRij.LookUp | algorithms/symmetry/cosym/target.py:236-277 | the value looked up or computed is the pair's outcome, and the cache stays sound (every entry is the outcome of a pair with that key) |
| CosymRij.CacheHit | algorithms/symmetry/cosym/target.py:237-238 | under the cache's premise a cached value is this pair's outcome |
| CosymRij.CacheInsert | algorithms/symmetry/cosym/target.py:277 | storing a pair's outcome under its key keeps the cache sound |
| CosymRij.KKPass | algorithms/symmetry/cosym/target.py:227-291 | the kk loop yields the specified buffers (or first error) and keeps the cache sound |
| CosymRij.KPass | algorithms/symmetry/cosym/target.py:221-291 | the k loop yields the specified buffers (or first error) and keeps the cache sound |
| CosymRij.JPass | algorithms/symmetry/cosym/target.py:216-291 | the j loop yields the specified buffers (or first error) |
| CosymRij.RowBlock | algorithms/symmetry/cosym/target.py:197-301 | with or without the cache (given the cache's premise) row block i is exactly its cache-free specification |
| CosymMatrix.PositionDivMod | algorithms/symmetry/cosym/target.py:233-234 | `i + n·k` splits back into remainder i and quotient k |
| CosymMatrix.PositionIs | algorithms/symmetry/cosym/target.py:233-234 | x is `j + n·q` exactly when j and q are its remainder and quotient |
| CosymMatrix.SplitPosition | algorithms/symmetry/cosym/target.py:233-234 | every position is that of its remainder and quotient, and lies below `n·m` exactly when its quotient is below m |
| CosymMatrix.PositionInjective | algorithms/symmetry/cosym/target.py:233-234 | distinct (dataset, operation) pairs get distinct rows and columns |
| CosymMatrix.CooAt | algorithms/symmetry/cosym/target.py:312-327 | the dense entry at (row, col) of a coordinate buffer is 0 when no stored entry has that position |
| CosymMatrix.Concat | algorithms/symmetry/cosym/target.py:318 | `np.concatenate` of two well-formed coordinate buffers is well formed and holds the entries of both |
| CosymMatrix.CooAtPush | algorithms/symmetry/cosym/target.py:286-291 | appending one value adds it at its own position and nowhere else |
| CosymMatrix.ConcatEmpty | algorithms/symmetry/cosym/target.py:315-316 | the first block becomes the running sum unchanged |
| CosymMatrix.CooAtConcat | algorithms/symmetry/cosym/target.py:318 | `rij_matrix += rij` is the entrywise sum |
| CosymMatrix.StepPairAt | algorithms/symmetry/cosym/target.py:228-291 | one pass adds what it stores at its own position and nothing elsewhere; wij only with weights |
| CosymMatrix.KKLoopAt | algorithms/symmetry/cosym/target.py:227-291 | the kk loop adds, at each position, what the pass owning it stores |
| CosymMatrix.KLoopAt | algorithms/symmetry/cosym/target.py:221-291 | the k loop adds, at each position, what the pass owning it stores |
| CosymMatrix.JLoopAt | algorithms/symmetry/cosym/target.py:216-291 | the j loop adds, at each position, what the pass owning it stores |
| CosymMatrix.StepPairEntries | algorithms/symmetry/cosym/target.py:228-291 | one pass stores only in row `i + n·k`, inside the matrix and off the diagonal; wij at the same positions with counts of at least `min_pairs` |
| CosymMatrix.KKLoopEntries | algorithms/symmetry/cosym/target.py:227-291 | the kk loop keeps that shape |
| CosymMatrix.KLoopEntries | algorithms/symmetry/cosym/target.py:221-291 | the k loop keeps that shape |
| CosymMatrix.JLoopEntries | algorithms/symmetry/cosym/target.py:216-291 | the j loop keeps that shape |
| CosymMatrix.BlockShape | algorithms/symmetry/cosym/target.py:197-301 | a finished row block writes only rows `i + n·k` below NN, never the diagonal; wij exists exactly with weights, at rij's positions, with counts ≥ `min_pairs` |
| CosymMatrix.BlockAt | algorithms/symmetry/cosym/target.py:293-301 | each entry of the block's `coo_matrix` is what the owning pass stores inside the block's rows, and zero elsewhere |
| CosymMatrix.EntryAtPosition | algorithms/symmetry/cosym/target.py:233-234 | at `(i + n·k, j + n·kk)` the matrices hold what pass (i, j, k, kk) stores |
| CosymMatrix.RecordedFromOutcome | algorithms/symmetry/cosym/target.py:279-284 | a pass stores its value exactly when it is no self-correlation, has a value, and has at least `min_pairs` matches |
| CosymMatrix.StoredOutcome | algorithms/symmetry/cosym/target.py:279-291 | the same, in terms of the pair's computed outcome |
| CosymMatrix.DiagonalZero | algorithms/symmetry/cosym/target.py:228-230 | the diagonal of rij and wij is zero: a dataset is never correlated with itself under the same operation |
| CosymMatrix.EntriesSymmetric | algorithms/symmetry/cosym/target.py:163 | "Rij is a symmetric matrix": when the epsilon factors are those of the indices and do not depend on the operation and the coefficient is symmetric in its lists, entry (row, col) equals entry (col, row) in rij and in wij |
| CosymMatrix.MatricesSymmetric | algorithms/symmetry/cosym/target.py:160-335 | under the same premises the dense rij and wij returned by `_compute_rij_wij` are symmetric, for count and for standard-error weights |
| CosymMatrix.Dense | algorithms/symmetry/cosym/target.py:325-327 | `toarray()` is a size × size matrix |
| CosymMatrix.StandardErrorWeights | algorithms/symmetry/cosym/target.py:328-333 | the weight is the inverse standard error where the count exceeds 2, and 0 elsewhere |
| CosymMatrix.BlocksFromAppend | algorithms/symmetry/cosym/target.py:303-310 | appending the next row's block keeps every block that of its row |
| CosymMatrix.MergeAt | algorithms/symmetry/cosym/target.py:312-323 | summing the blocks gives, at each entry, the value of the one block owning its row (a union, since rows are disjoint) |
| CosymMatrix.RowBlocks | algorithms/symmetry/cosym/target.py:303-310 | the map succeeds exactly when every row block does; it gives one block per lattice, each its specification, or the error of the first failing block |
| CosymMatrix.MergeBlocks | algorithms/symmetry/cosym/target.py:312-327 | fails exactly with no lattices; otherwise NN × NN dense rij (and wij exactly with weights) whose entries are the specified ones |
| CosymMatrix.ComputeRijWij | algorithms/symmetry/cosym/target.py:160-335 | `_compute_rij_wij`: fails with no lattices or at the first failing block; otherwise the specified dense rij, wij counts under "count", standard-error weights under "standard_error" |
| CosymEpsilon.FilterPaired | algorithms/symmetry/cosym/target.py:261-262 | filtering equal-index pairs by each side's own epsilon factors keeps equal lengths and equal indices pair by pair |
| CosymEpsilon.MatchThenFilterPaired | algorithms/symmetry/cosym/target.py:259-262 | matching, then filtering each side by its own factors, keeps the pairs together |
| CosymEpsilon.DatasetEpsilonsOf | algorithms/symmetry/cosym/target.py:192-194 | each dataset's epsilon factors are those of its own reindexed indices |
| CosymEpsilon.IntendedFilterPaired | algorithms/symmetry/cosym/target.py:240-262 | with dataset j's factors read from kk the filtered lists have equal length and pair equal indices |
| CosymEpsilon.AsWrittenFilterIsIntended | algorithms/symmetry/cosym/target.py:241 | when the epsilon factors do not depend on the operation, reading them from k filters as reading them from kk |
| CosymEpsilon.AsWrittenFilterPaired | algorithms/symmetry/cosym/target.py:241-264 | then the filter as written pairs equal indices, and pearsonr never sees lists of different lengths |
| CosymEpsilon.FilteredPairsMirror | algorithms/symmetry/cosym/target.py:240-262 | with epsilon factors that do not depend on the operation, the filtered pairs of j under kk against i under k are those of i under k against j under kk with the two lists exchanged |
| CosymEpsilon.PairedLengths | algorithms/symmetry/cosym/target.py:259-262 | with those factors the two filtered lists have one length |
| CosymEpsilon.CorrelateMirror | algorithms/symmetry/cosym/target.py:264-276 | correlating two lists of one length gives the same outcome in either order when pearsonr is symmetric |
| CosymEpsilon.OutcomeMirror | algorithms/symmetry/cosym/target.py:240-284 | the outcome of (i, k) against (j, kk) equals that of (j, kk) against (i, k) under those premises |
| CosymFindings.OutcomeAsWritten | algorithms/symmetry/cosym/target.py:264-276 | as written, a pair raises exactly when fewer than `min_pairs` matches survive, and otherwise equals the intended outcome |
| CosymFindings.TwoDisjointDatasets | algorithms/symmetry/cosym/target.py:264-267 | a well-formed input of two one-reflection datasets under the identity |
| CosymFindings.DisjointDatasetsAbortAsWritten | algorithms/symmetry/cosym/target.py:265-274 | on it the code as written raises, where the intended outcome stores nothing |
| CosymFindings.NoCommonIndexNoPairs | algorithms/symmetry/cosym/target.py:243-262 | two datasets with no Miller index in common (under k and kk) leave no filtered pair |
| CosymFindings.DisjointNoMatch | algorithms/symmetry/cosym/target.py:243-262 | the two datasets of the example share no index, so each of their pairs has no filtered match |
| CosymFindings.DisjointPair | algorithms/symmetry/cosym/target.py:264-284 | on the example each pair between the two datasets aborts as written (TypeError from `np.isnan(None)`) and gives no value as intended |
| CosymFindings.ShortPairAborts | algorithms/symmetry/cosym/target.py:264-274 | as written, a row block with a non-skipped pair of fewer than `min_pairs` matches aborts |
| CosymFindings.NoShortPairAgrees | algorithms/symmetry/cosym/target.py:264-284 | without such a pair the as-written outcomes agree with the intended ones on every non-skipped pair |
| CosymFindings.RowBlockAbortsAsWritten | algorithms/symmetry/cosym/target.py:197-301 | as written a row block aborts exactly when it has a short pair or the intended block fails; without a short pair it is the intended block |
| CosymFindings.ComputeAbortsAsWritten | algorithms/symmetry/cosym/target.py:160-335 | as written the whole rij computation aborts exactly when some row block has a short pair or fails as intended; otherwise every row block is the intended one |
| CosymFindings.BlockOkWhenOutcomesOk | algorithms/symmetry/cosym/target.py:197-301 | a row block whose non-skipped outcomes are all values (or absent) succeeds |
| CosymFindings.DisjointBlockOk | algorithms/symmetry/cosym/target.py:197-301 | on the example both intended row blocks succeed |
| CosymFindings.DisjointBlockAbortsAsWritten | algorithms/symmetry/cosym/target.py:197-301 | on the example row block 0 as written aborts with the TypeError |
| CosymFindings.DisjointDatasetsMatrixAbortsAsWritten | algorithms/symmetry/cosym/target.py:160-335 | on the example the intended row blocks succeed while the as-written computation aborts |
| CosymTarget.Precompute | algorithms/symmetry/cosym/target.py:177-194 | one reindexed index list and one epsilon list per operation; entry p is the reindexed index p and its epsilon |
| CosymTarget.Names | algorithms/symmetry/cosym/target.py:91 | the `as_xyz` name of each twin operator, in order |
| CosymTarget.Init | algorithms/symmetry/cosym/target.py:61-99 | fails exactly on a bad weighting scheme or empty partition; otherwise sorted data, `_lattices`, `sym_ops`, dimensions and reindexed data as specified |
| CosymTarget.FloorDiv | algorithms/symmetry/cosym/target.py:349 | Python's `//`: the quotient rounded towards minus infinity, for either sign of divisor |
| CosymTarget.FloorDivIs | algorithms/symmetry/cosym/target.py:349 | for a positive divisor `a // b == q` exactly when `b·q ≤ a < b·q + b` |
| CosymTarget.CoordinateIndex | algorithms/symmetry/cosym/target.py:350 | coordinate d of vector r of the reshaped x lies inside x |
| CosymTarget.Gram | algorithms/symmetry/cosym/target.py:351 | a diagonal entry of `x.T @ x` is a sum of squares, so never negative |
| CosymTarget.ComputeFunctional | algorithms/symmetry/cosym/target.py:349-355 | succeeds exactly when dim > 0 and `|x| == dim·n`; dim 0 divides by zero, the size assertion fails as written, and a size that passes it but not `reshape` fails there |
| CosymTarget.TermZero | algorithms/symmetry/cosym/target.py:351-353 | a weighted squared residual is non-negative, and zero exactly when its weight or its residual is |
| CosymTarget.RowSumZero | algorithms/symmetry/cosym/target.py:351-354 | a row sum is non-negative and zero exactly when each of its terms is |
| CosymTarget.TotalZero | algorithms/symmetry/cosym/target.py:351-354 | the total is non-negative and zero exactly when every term is |
| CosymTarget.FunctionalZeroIffFit | algorithms/symmetry/cosym/target.py:349-355 | with non-negative weights f ≥ 0, and f = 0 exactly when `xᵀx` reproduces every entry of rij with non-zero weight |
| FlexReflectionTable.MakeFromObservationAndShoebox | array_family/boost_python/flex_reflection_table.cc:40-78 | fails on different sizes, or at the first row with different panels; otherwise one row per observation copying its fields and the shoebox's box and arrays |
| FlexReflectionTable.HasAll | array_family/boost_python/flex_reflection_table.cc:161 | `(flags & value) == value` holds exactly when value adds no bit to flags |
| FlexReflectionTable.Or | array_family/boost_python/flex_reflection_table.cc:175 | `flags | value` holds every bit of flags and every bit of value |
| FlexReflectionTable.Clear | array_family/boost_python/flex_reflection_table.cc:189 | `flags & ~value` holds no bit of value and no bit flags lacked |
| FlexReflectionTable.SetFlagsSpec | array_family/boost_python/flex_reflection_table.cc:170-178 | same length; unmasked rows unchanged (what masked rows become is stated by SetFlagsSetsExactly) |
| FlexReflectionTable.UnsetFlagsSpec | array_family/boost_python/flex_reflection_table.cc:184-192 | same length; unmasked rows unchanged |
| FlexReflectionTable.SetFlagsAddsBits | array_family/boost_python/flex_reflection_table.cc:172-177 | a masked row afterwards has every bit of value and every bit it had |
| FlexReflectionTable.SetFlagsSetsExactly | array_family/boost_python/flex_reflection_table.cc:172-177 | in a masked row a bit is set afterwards exactly when it was set before or is a bit of value; the new word is the least one holding both |
| FlexReflectionTable.SetFlagsIdempotent | array_family/boost_python/flex_reflection_table.cc:172-177 | setting the same bits twice is setting them once |
| FlexReflectionTable.UnsetFlagsClearsExactly | array_family/boost_python/flex_reflection_table.cc:186-191 | in a masked row a bit is set afterwards exactly when it was set before and is not in value |
| FlexReflectionTable.UnsetThenGet | array_family/boost_python/flex_reflection_table.cc:157-191 | after unsetting a non-zero value, get_flags of it is false in every masked row |
| FlexReflectionTable.ReflectionTable.GetFlags | array_family/boost_python/flex_reflection_table.cc:157-164 | a fresh column of nrows entries, true exactly where `(flags[i] & value) == value` |
| FlexReflectionTable.ReflectionTable.SetFlags | array_family/boost_python/flex_reflection_table.cc:170-178 | fails (unchanged) unless the mask has nrows entries; otherwise the flags become SetFlagsSpec of the old flags |
| FlexReflectionTable.ReflectionTable.UnsetFlags | array_family/boost_python/flex_reflection_table.cc:184-192 | fails (unchanged) unless the mask has nrows entries; otherwise the flags become UnsetFlagsSpec of the old flags |
| FlexReflectionTable.SetThenGet | array_family/boost_python/flex_reflection_table.cc:157-177 | after set_flags(mask, v), get_flags(v) is true in every masked row |
| CommandLine.Filter | src/dials/util/command_line.py:60-83 | a list comprehension keeps exactly the names satisfying its test, each as many times as it occurs in the input |
| CommandLine.FilterPositions | src/dials/util/command_line.py:60-83 | the kept names are the input names at exactly the positions whose name satisfies the test, in increasing order |
| CommandLine.FilterIsSubsequence | src/dials/util/command_line.py:60-83 | a filtered list is an order-preserving subsequence of the input |
| CommandLine.GuessInputFileType | src/dials/util/command_line.py:50-96 | each list holds exactly the input names with its endings (images: extension plus optional compression), each as many times as it occurs in the input; unknown holds exactly those in no other list, with their multiplicity |
| CommandLine.CategoriesKeepOrder | src/dials/util/command_line.py:60-96 | all five lists keep the input order |
| CommandLine.EndingFixesLastTwo | src/dials/util/command_line.py:54-58 | a name with an ending of two or more characters ends in that ending's last two |
| CommandLine.ImageLastTwo | src/dials/util/command_line.py:57-58 | an image name ends in `h5`, `xs`, `bf`, `mg`, `gz` or `z2` |
| CommandLine.ExperimentLastTwo | src/dials/util/command_line.py:54 | an experiment name ends in `pt` |
| CommandLine.ReflectionLastTwo | src/dials/util/command_line.py:55 | a reflection name ends in `fl` |
| CommandLine.ParameterLastTwo | src/dials/util/command_line.py:56 | a parameter name ends in `ms` or `il` |
| CommandLine.EndingKindsDisjoint | src/dials/util/command_line.py:54-83 | no name has endings of two different kinds |
| CommandLine.ExactlyOneCategory | src/dials/util/command_line.py:54-96 | every input name is in exactly one of the five lists |
| CommandLine.Repeat | src/dials/util/command_line.py:297 | `c * n` is max(n, 0) copies of c |
| CommandLine.SliceTo | src/dials/util/command_line.py:347 | `s[:m]` is the prefix of length m clipped to `[0, len]`, or all but the last -m for negative m |
| CommandLine.NatToString | src/dials/util/command_line.py:317 | `str(n)` is a non-empty string of digits |
| CommandLine.Trunc | src/dials/util/command_line.py:286 | `int(x)` rounds toward zero |
| CommandLine.Ceil | src/dials/util/command_line.py:316 | `ceil(x)` is the least integer not below x |
| CommandLine.ClampPercent | src/dials/util/command_line.py:286-290 | the percentage is clamped to [0, 100] and kept when already inside |
| CommandLine.SpinnerChar | src/dials/util/command_line.py:308 | the spinner character is one of `-\|/` |
| CommandLine.BarSplit | src/dials/util/command_line.py:321-323 | `n_char + n_space == bar_length`; for a non-negative length n_char is the truncated share, between 0 and the length |
| CommandLine.ScaledBounds | src/dials/util/command_line.py:322 | `percent · bar_length` lies between 0 and `100 · bar_length` |
| CommandLine.BarText | src/dials/util/command_line.py:325 | the bar text is five characters plus the non-negative cell counts |
| CommandLine.PadLeft3 | src/dials/util/command_line.py:303 | `f"{s: >3}"` is at least three characters and never shortens s |
| CommandLine.EstimateFromStart | src/dials/util/command_line.py:240-244 | from the start, the estimate of the seconds left is never negative, and zero at 100% |
| CommandLine.Estimate | src/dials/util/command_line.py:240-244 | no time is left at 100 percent or when the percentage did not move; with progress made and a non-negative elapsed time the estimate is never negative |
| CommandLine.ClampReal | src/dials/util/command_line.py:232-235 | the timer's percentage is clamped to [0, 100] |
| CommandLine.ProgressBarTimer.constructor | src/dials/util/command_line.py:215-220 | a new timer starts at the given time, at 0%, with period 0.5 s and no estimate (-1) |
| CommandLine.ProgressBarTimer.Update | src/dials/util/command_line.py:225-247 | re-estimates once the update period has passed or at 100%, otherwise keeps the last estimate, and returns it |
| CommandLine.ProgressBar.constructor | src/dials/util/command_line.py:253-272 | the bar keeps its settings and owns a fresh timer started now |
| CommandLine.ProgressBar.Update | src/dials/util/command_line.py:277-332 | nothing on a non-terminal; otherwise a line starting with `\r`, which with a bar is `length + 1` characters (longer by the overflow when the bar does not fit) |
| CommandLine.ProgressBar.Finished | src/dials/util/command_line.py:334-372 | a non-empty message becomes the title; the line is the padded message ending in a newline, `\r` first on a terminal, exactly `length` characters before those whenever the room is not negative |
| CommandLine.Terminated | src/dials/util/command_line.py:366-370 | the line followed by `\n`, with `\r` before it on a terminal |
| CommandLine.PadLine | src/dials/util/command_line.py:341-364 | indent, truncated message, dots and time string; exactly `length` long whenever the indent and the message room are not negative |
| CommandLine.Command.constructor | src/dials/util/command_line.py:379-381 | the class settings: indent 0, `max_length` 80, time printed, no start time yet |
| CommandLine.Command.Start | src/dials/util/command_line.py:384-402 | records the start time; on a terminal writes indent, the truncated message and "...", at most `max_length` long |
| CommandLine.Command.End | src/dials/util/command_line.py:405-442 | fails exactly when the time is printed before any start; otherwise the padded line, exactly `max_length` long when the room is not negative |
| ErrorModelKeys.ReflectionsToKeys | src/dials/command_line/assess_error_models.py:29-35 | one `(h, k, l, entering, c)` tuple per row, in row order |
| ErrorModelKeys.SortedKeys | src/dials/command_line/assess_error_models.py:78 | `sorted(k0)` is strictly increasing and holds exactly the set's keys |
| ErrorModelKeys.KeyLess | src/dials/command_line/assess_error_models.py:78 | the tuple order `sorted` uses is strict and orders by the first component first |
| ErrorModelKeys.Select | src/dials/command_line/assess_error_models.py:81 | `select(sel)` gives the rows at the selected positions, in that order |
| ErrorModelKeys.IndexOf | src/dials/command_line/assess_error_models.py:80 | `k.index(key)` is the first position holding the key |
| ErrorModelKeys.CommonKeys | src/dials/command_line/assess_error_models.py:69-72 | the intersection loop leaves exactly the keys present in every list |
| ErrorModelKeys.Reorder | src/dials/command_line/assess_error_models.py:79-81 | the reordered list has one row per common key, row n carrying key n and drawn from the list |
| ErrorModelKeys.AlignLists | src/dials/command_line/assess_error_models.py:79-81 | the loop reorders every list to the common keys |
| ErrorModelKeys.AlignOnCommonKeys | src/dials/command_line/assess_error_models.py:62-81 | fails exactly with no lists or a repeated key (naming such a list); otherwise sorted common keys, and every list cut to them with row n carrying key n |
| Fonts2D.Glyph | viewer/fonts_2D.h:26-344 | each of the sixteen glyph tables is 14 × 7 |
| Fonts2D.BlankGlyphs | viewer/fonts_2D.h:306-344 | the space and terminator glyphs are all zeros |
| Fonts2D.StoreGlyph | viewer/fonts_2D.h:40-44 | one column/row loop stores table g in layer g and leaves the other layers unchanged |
| Fonts2D.GetFontImgArray | viewer/fonts_2D.h:23-347 | every cell `font_bw_img[row][col][g]` is entry [row][col] of glyph g, and the error code is 0 |
| Fonts2D.DigitCode | viewer/fonts_2D.h:362-388 | a digit maps to its value 0..9; `.`, `e`, `+`, `-`, space and NUL to 10..15; any other character keeps `c - '0'`, outside 0..9 |
| Fonts2D.SpecialCodes | viewer/fonts_2D.h:366-379 | the codes of `.`, `e`, `+`, `-`, space and NUL are 10, 11, 12, 13, 14 and 15 |
| Fonts2D.DigitsError | viewer/fonts_2D.h:380-395 | the error code is 0, 1 or 2, and 2 exactly when no NUL occurs in the 13 scanned positions |
| Fonts2D.GetDigits | viewer/fonts_2D.h:349-399 | writes the code of each of the first 13 characters, leaves `dgt_num[13..14]` untouched, and returns DigitsError |
| Fonts2D.ErrorOneBeforeTerminator | viewer/fonts_2D.h:380-398 | with a terminator the code is not 2, and it is 1 exactly when a character without a glyph precedes the first terminator |

## Left out

- The crystallographic library (cctbx) is not modelled, only passed in as function parameters with the contracts the code relies on:
  - the change to the primitive setting with `map_to_asu`, reindexing by each operation, and the Patterson group's epsilon;
  - the coset decomposition, `cb_op.apply`, `as_xyz` and the relative-operation key `str(cb_op_k.inverse() * cb_op_kk)`;
  - the `lattice_group` branches of `_generate_twin_operators` (lines 122-137), and the expansion into the lattice and Patterson groups (lines 96-99). The model uses the partitions these produce.
- CosymRij.KeySound: the cache's premise, that pairs with the same relative operation have the same outcome, is a requirement of `RowBlock` when `useCache` is set. The model does not prove it from group theory.
- Floating point is modelled as exact reals:
  - the numeric core of `scipy.stats.pearsonr`, and the standard-error formula `1/sqrt(...)`, are parameters;
  - gradients, curvatures and the finite-difference checks of the target (lines 357-451) are left out.
- `easy_mp.parallel_map` runs the row blocks one after another. Concurrency and worker processes are left out.
- CosymRij.RowBlock: it computes the intended outcome, in which a pair with fewer than `min_pairs` matches is skipped. As written, line 273 raises a TypeError on such a pair; that behaviour is modelled separately by CosymFindings.RowBlockAsWritten and CosymFindings.RowBlockAbortsAsWritten.
- CosymMatrix.RowBlocks: it returns the intended row blocks. The as-written abort of any row block with a short pair is stated by CosymFindings.ComputeAbortsAsWritten.
- CosymMatrix.ComputeRijWij: it returns the intended matrices. As written, the computation aborts whenever some pair has fewer than `min_pairs` matches (CosymFindings.ComputeAbortsAsWritten, with a concrete case in CosymFindings.DisjointDatasetsMatrixAbortsAsWritten).
- CosymRij.KKLoop, CosymRij.KLoop, CosymRij.JLoop, CosymMatch.Ravel and CosymTarget.Total carry no contract of their own. Their properties are stated by separate lemmas: the Grows, Fails, ErrStays, Agree, At and Entries lemmas for the loops, RavelInRange and RavelInjective for Ravel, and TotalZero for Total.
- `min_pairs` is an integer. `None` is not modelled; line 265 would compare `n < None`.
- CosymMatch.Encode: `np.ravel_multi_index` on `int64` could overflow for huge index ranges. The model uses unbounded integers.
- CosymMatrix.MergeAt: the sparse `+=` is modelled as concatenating COO buffers, which sum duplicates on reading.
- CosymMatch.KeepEpsilonOne: its own contract states only bounds. Membership and order are proved separately in KeepEpsilonOneMembers and KeepEpsilonOnePaired.
- The `isinstance` assertions (lines 78-79) and the debug logging are left out. `get_sym_ops` (a deprecation warning) is left out too.
- FlexReflectionTable.MakeFromObservationAndShoebox: the C++ shoebox assignment shares the pixel arrays with the input. The model copies them as values and does not capture that aliasing.
- The Boost.Python wrapping, the flag enum values and `compute_ray_intersections` are not part of this model.
- I/O is left out:
  - argparse/phil handling, `glob`, and `stdout` writes (the written string is returned instead);
  - `isatty` and `time.time()`, which are parameters;
  - `%.2f` time formatting, which is the parameter `formatFixed2`.
- CommandLine.ProgressBar.constructor: the source's constructor ends with `self.update(0)`. The model's constructor does not draw that first line; it is what `Update(0.0, …)` returns.
- CommandLine.ProgressBar.Update: its contract gives the line's length and first character. It does not spell out every character.
- `help_keys` and the rest of `OptionParser` are left out.
- ErrorModelKeys: `filter_reflection_table`, the change of basis to a common setting, and the mean and variance prints (lines 83-89) are left out. The half-turn `floor(z / π)` is taken as an already rounded field of each reflection.
- Fonts2D.GetDigits: `snprintf("%g")` is not modelled. The 15-character buffer it leaves is the input.
- The other files of the repository are not part of this model. These include the stills indexer, delta CC½, predict_spots, config and nexus.

## Findings

| source | as written | input that shows it | evidently intended | confidence | as-written member | corrected member |
|---|---|---|---|---|---|---|
| algorithms/symmetry/cosym/target.py:264-275 | with fewer than `min_pairs` matches, `cc = None` and then `np.isnan(cc)` raises TypeError, aborting the whole rij computation | two datasets of one reflection each with no Miller index in common, the identity operation only, default `min_pairs = 3` (`CosymFindings.TwoDisjointDatasets`) | the pair is skipped: no rij/wij entry, as the guard at lines 279-284 (which tests `n is None` and `cc is None` and then `continue`s) evidently expects | not executed | CosymFindings.DisjointDatasetsMatrixAbortsAsWritten | CosymRij.Correlate |
