# linopy `io.py` in Dafny

This project models the output side of linopy's `linopy/io.py`. That file turns a
linear optimisation model, already flattened into aligned arrays, into one of three
things:

- **An LP problem file** (`to_file`). It writes the objective, the constraints, the
  bounds and the binaries in a fixed order, each under a fixed header, and ends
  with `end`.
  - Each section is built by joining token arrays cell by cell (`join_str_arrays`).
  - Inactive cells are blanked with a validity mask (`.where(mask, "")`).
  - The cells are then appended to the file in order.
- **A directory of block files** (`to_block_files`). Every variable attribute,
  right-hand side and constraint term goes into the file of the block that its
  block ids select.
  - Variables are selected with `blocks == n`.
  - Right-hand sides are split into equality and inequality rows.
  - Terms are routed by three masks: diagonal, first-stage coupling and last-stage
    coupling.
  - The objective coefficients are scattered into a per-variable array first.
- **A snapshot** (`to_netcdf` / `read_netcdf`).
  - On write, field `v` of section `attr` is renamed to `prefix + attr + "-" + v`,
    the sections are merged into one dataset, and the boolean attributes of every
    data variable are turned into integers (`non_bool_dict`).
  - On read, each section is regrouped by its key prefix, the prefix is stripped,
    and the scalar attributes are popped off the container.

## Modules

| module | file | content | style |
|---|---|---|---|
| `Wrappers` | `wrappers.dfy` | `Option` | values |
| `Values` | `values.dfy` | `Float` and `Sign` | values |
| `TextCodec` | `text_codec.dfy` | `to_int_str` and `to_float_str` | functions |
| `StrArrays` | `str_arrays.dfy` | `np.add`, `join_str_arrays`, `.where` and concatenation | functions |
| `Masks` | `masks.dfy` | boolean-mask selection `arr[mask]` and its lemmas | functions and lemmas |
| `LpSections` | `lp_sections.dfy` | the text of each LP section and of the whole file | functions |
| `LpFile` | `lp_file.dfy` | class `FileSystem`; `to_file` as a method | imperative |
| `BlockFiles` | `block_files.dfy` | class `BlockDirectory`; the loops of `to_block_files`; the objective scatter on an `array` | imperative |
| `BlockRouting` | `block_routing.dfy` | what each block file holds | lemmas |
| `Snapshot` | `snapshot.dfy` | renaming, `non_bool_dict` and the container; class `RestoredModel` for the `setattr` loops of `read_netcdf` | mixed |

- **Values.**
  - `Float` is a float value that is not NaN: an unbounded real number, `+inf` or
    `-inf`.
  - A null cell is `Option.None`.
  - `Sign` is the string held in the `sign` array. The LP writer writes it out
    as it is. The block writer compares it literally with `"=="` and `">="`
    (linopy/io.py:180-181, 202), so a null sign, or an equality spelled `"="`, is
    routed as an inequality that is not `>=` (`BlockRouting.LiteralSignsRouted`).
- **`"%d"`** is modelled exactly, as `TextCodec.IntStr`, and proved to be inverted
  by a parser.
- **`"%+f"`** is the parameter `floatTok: Float -> string`. Every statement about
  the LP text holds for any choice of it.
- **The LP writer's arrays** are rows of records: `Term`, `Constraint` and
  `Variable`. An inactive label is `-1`, as in the source.
- **The block writer** reads the raveled, missing-filtered arrays as one
  `BlockInput`. The largest block id `N` is a parameter.
  - The directory is a class whose `files` field maps `(block, file name)` to the
    cells written.
  - `Expected` gives what each file must hold. `Holds`/`Written` is the invariant
    that the writing loops keep.
- **Snapshot datasets** are maps from field names to a data array. A data array
  has a generic value and an attribute map.

## Model

| member | source | states |
|---|---|---|
| TextCodec.IntStr | linopy/io.py:30 | `"%d"` of an integer: at least one character, a leading `-` exactly for a negative number, only digits otherwise |
| TextCodec.IntStrRoundTrip | linopy/io.py:30 | parsing the text of `"%d" % i` gives back `i` |
| TextCodec.IntStrInjective | linopy/io.py:30 | distinct labels are written as distinct tokens, so lines of different variables never coincide |
| TextCodec.ToIntStr | linopy/io.py:28-30 | the output has the input's shape, and cell `i` is the `"%d"` token of cell `i` |
| TextCodec.ToFloatStr | linopy/io.py:23-25 | the output has the input's shape; a null cell is formatted as `0` (`fillna(0)`), any other cell as its own value |
| StrArrays.Reduce | linopy/io.py:36 | the left fold of `np.add`: cell `i` is the accumulator's cell followed by every fragment's cell `i`, in list order |
| StrArrays.JoinStrArrays | linopy/io.py:33-36 | `reduce(np.add, arraylist, "")`: cell `i` is the fragments' cells `i` concatenated in list order; the result is an array iff some fragment is |
| StrArrays.Where | linopy/io.py:54 | `.where(mask, "")` keeps the shape, keeps a cell where the mask holds and leaves `""` elsewhere |
| StrArrays.ConcatKept | linopy/io.py:86-87 | writing cells that are `f(x)` where `p(x)` holds and `""` elsewhere gives `f` of the elements satisfying `p`, concatenated in order |
| StrArrays.AddObj | linopy/io.py:35 | `np.add` on two object cells fails (a TypeError) exactly when one operand is a string and the other is not; two strings give their concatenation |
| StrArrays.Strs | linopy/io.py:35-36 | string cells handed to `np.add` as object cells: all are strings, one per input, and they concatenate to the concatenation of the inputs |
| StrArrays.FoldObj | linopy/io.py:36 | the left fold of `np.add` from a string accumulator succeeds exactly when every operand is a string, and then gives the accumulator followed by the operands in order |
| StrArrays.SumObj | linopy/io.py:71 | `np.sum` over an axis of object cells gives the integer `0` over an empty axis, and the cells concatenated when they are all strings |
| StrArrays.JoinObjAsWritten | linopy/io.py:33-36 | `join_str_arrays` over object cells succeeds exactly when every operand of every cell is a string, and then each cell is its operands concatenated in order |
| Masks.Select | linopy/io.py:169 | `arr[mask]` has as many cells as the mask has `True` cells |
| Masks.SelectAt | linopy/io.py:169 | the `k`-th cell of `arr[mask]` is the cell of `arr` at the `k`-th `True` position of the mask |
| Masks.PositionsIncrease | linopy/io.py:169 | those positions increase with `k`, so a selection keeps the input's order |
| Masks.Filter | linopy/io.py:93-95 | an element is kept iff it is in the input and satisfies the predicate |
| Masks.SelectSplit | linopy/io.py:213-214 | splitting a mask by `p` and by `~p` gives two selections whose lengths add up to the mask's count and whose contents together are the mask's selection |
| Masks.RoutedUnionBelow | linopy/io.py:168-169 | the parts `blocks == 0 .. k-1` together hold exactly the cells whose block id lies in `0 .. k-1` |
| Masks.RoutingCovers | linopy/io.py:168-169 | when every block id lies in `0 .. N`, the parts `blocks == 0 .. N` together hold every cell exactly once |
| LpSections.TermLines | linopy/io.py:52-54 | a term cell becomes `floatTok(coeff) + " x" + "%d"(var) + "\n"` exactly when its coefficient is not null and its variable is not `-1`, and `""` otherwise; the shape is kept |
| LpSections.TermMask | linopy/io.py:52 | definition: the mask `coef.notnull() & (var != -1)`, one cell per term |
| LpSections.TermJoin | linopy/io.py:53 | joining `[to_float_str(coef), " x", to_int_str(var), "\n"]` yields an array whose cells are the term lines |
| LpSections.ValidTerms | linopy/io.py:52 | a term is kept iff it is a term of the input whose coefficient is not null and whose variable is not `-1` |
| LpSections.TermLinesText | linopy/io.py:54-55 | the written term cells are the lines of the valid terms, concatenated in term order |
| LpSections.LhsStrs | linopy/io.py:71 | definition: the `lhs_str` of each constraint in the corrected join, its masked term lines concatenated, one cell per constraint |
| LpSections.EmittedMask | linopy/io.py:74 | definition: the constraint mask `nonnans.any(term_names) & (labels != -1) & sign.notnull() & rhs.notnull()`, one cell per constraint |
| LpSections.EmittedMaskMeans | linopy/io.py:74 | a constraint is emitted iff it has a valid term, its label is not `-1`, and its sign and its right-hand side are not null |
| LpSections.ConstraintJoin | linopy/io.py:76-85 | joining the eight fragments yields per constraint `"c" + label + ": \n" + lhs + sign + "\n" + rhs + "\n\n"`, with `lhs` the concatenated valid term lines |
| LpSections.ConstraintBlocks | linopy/io.py:69-86 | a constraint cell is that block exactly when the constraint is emitted, and `""` otherwise; the shape is kept |
| LpSections.ConstraintBlocksText | linopy/io.py:86-87 | the written constraint cells are the blocks of the emitted constraints, in order |
| LpSections.NonBinary | linopy/io.py:93-95 | a variable is in the bounds section iff it is in the model and is not binary |
| LpSections.BoundsJoin | linopy/io.py:98-105 | joining the six fragments yields `lo + " <= x" + label + " <= " + up + "\n"` per variable |
| LpSections.BoundsLines | linopy/io.py:97-106 | a variable cell becomes that line exactly when its bounds are not null and its label is not `-1`, and `""` otherwise |
| LpSections.BoundsLinesText | linopy/io.py:106-107 | the written bounds cells are the lines of the bounded variables, in order |
| LpSections.Binaries | linopy/io.py:114 | a variable is in the binaries section iff it is in the model and is binary |
| LpSections.BinaryJoin | linopy/io.py:116 | joining `["x", to_int_str(labels), "\n"]` yields `"x" + label + "\n"` per variable |
| LpSections.BinaryLines | linopy/io.py:114-116 | a binary cell becomes `"x" + label + "\n"` exactly when its label is not `-1`, and `""` otherwise |
| LpSections.BinaryLinesText | linopy/io.py:116-117 | the written binary cells are the lines of the active binaries, in order |
| LpSections.ObjectiveSectionText | linopy/io.py:46-55 | the objective section is `"min\nobj:\n"` followed by the valid term lines |
| LpSections.ConstraintsSectionText | linopy/io.py:58-87 | the constraints section is `"\n\ns.t.\n\n"` followed by the blocks of the emitted constraints |
| LpSections.BoundsSectionText | linopy/io.py:90-107 | the bounds section is `"\nbounds\n"` followed by the lines of the bounded non-binary variables |
| LpSections.BinariesSectionText | linopy/io.py:110-117 | the binaries section is `"\nbinary\n"` followed by the lines of the active binary variables |
| LpSections.LpTextLayout | linopy/io.py:134-138 | the whole file, in order: objective header and lines, constraints header and blocks, bounds header and lines, binaries header and lines, `end\n` |
| LpSections.EmptyModelText | linopy/io.py:134-138 | with no valid term, no emitted constraint and no active variable, the file holds only the four headers and `end\n` |
| LpSections.ObjectiveSection | linopy/io.py:46-55 | definition: the objective header followed by the concatenated term lines |
| LpSections.ConstraintsSection | linopy/io.py:58-87 | definition: the constraints header followed by the concatenated constraint blocks |
| LpSections.BoundsSection | linopy/io.py:90-107 | definition: the bounds header followed by the concatenated bounds lines of the non-binary variables |
| LpSections.BinariesSection | linopy/io.py:110-117 | definition: the binaries header followed by the concatenated lines of the binary variables |
| LpSections.LpText | linopy/io.py:130-138 | definition: the text `to_file` leaves in the file, the four sections in order and then `end\n` |
| LpSections.UnitLowerBoundBlock | linopy/io.py:76-86 | for every float format, the constraint `c0: 1 x0 >= 0` is written as `"c0: \n" + floatTok(1) + " x0\n>=\n" + floatTok(0) + "\n\n"` |
| LpSections.SignObj | linopy/io.py:64-81 | the `sign` operand of the join is a string exactly when the sign is not null, and then it is the sign token |
| LpSections.LhsObj | linopy/io.py:71 | `lhs_str` of a constraint is a string exactly when its term axis is not empty, and then it is its valid term lines concatenated |
| LpSections.ConstraintCellsMeans | linopy/io.py:76-85 | the eight operands of a constraint's cell are all strings exactly when its sign is not null and it has a term; they then concatenate to the constraint's block |
| LpSections.MaskedAsWritten | linopy/io.py:74-86 | the mask blanks every constraint that is not emitted, so the masked join equals `ConstraintBlocks` whatever the blanked cells held |
| LpSections.ConstraintBlocksAsWritten | linopy/io.py:69-86 | as written, the join raises (`None`) exactly when some constraint has a null sign or an empty term axis; otherwise the masked cells are those of `ConstraintBlocks` |
| LpSections.NullSignFails | linopy/io.py:74-86 | a constraint with a null sign makes the join raise as written, while the masked result the code intends is `""` |
| LpSections.EmptyTermsFail | linopy/io.py:71-86 | a constraint with no term makes the join raise as written (its `lhs_str` is `0`), while the masked result the code intends is `""` |
| LpFile.FileSystem.RemoveIfExists | linopy/io.py:127-128 | the file at the path no longer exists; every other file is unchanged |
| LpFile.FileSystem.Create | linopy/io.py:130 | `open(fn, "w")` leaves an empty file at the path; every other file is unchanged |
| LpFile.FileSystem.Write | linopy/io.py:138 | `f.write(text)` appends the text to the open file; every other file is unchanged |
| LpFile.FileSystem.WriteCells | linopy/io.py:39-43 | `str_array_to_file` appends the cells in order to the open file; every other file is unchanged |
| LpFile.FileSystem.ObjectiveToFile | linopy/io.py:46-55 | appends the objective section to the open file |
| LpFile.FileSystem.ConstraintsToFile | linopy/io.py:58-87 | appends the constraints section to the open file |
| LpFile.FileSystem.BoundsToFile | linopy/io.py:90-107 | appends the bounds section to the open file |
| LpFile.FileSystem.BinariesToFile | linopy/io.py:110-117 | appends the binaries section to the open file |
| LpFile.FileSystem.ToFile | linopy/io.py:120-142 | returns `fn`, or the temporary name when `fn` is `None`; that file then holds exactly the LP text (stale content is never kept); every other file is unchanged |
| BlockFiles.ScatteredAsWritten | linopy/io.py:173 | numpy's `coeffs[vars] = coeffs_obj` succeeds iff every index lies in `-len .. len-1` (otherwise it is an IndexError), and then keeps the length |
| BlockFiles.Scattered | linopy/io.py:173 | definition: the corrected scatter, the assignments made in order so that the last one to a cell wins, and a `-1` assigns nothing; the length is kept |
| BlockFiles.ObjectiveCoeffs | linopy/io.py:172-173 | definition: the corrected scatter of the objective coefficients into an array of zeros, one cell per variable |
| BlockFiles.ObjectiveCoeffsAsWritten | linopy/io.py:172-173 | numpy's scatter into the integer array `zeros_like(blocks)` succeeds exactly when every objective index lies in `-len .. len-1`, and then has one cell per variable, each the integer cast (`CastToInt`) of that cell of `ScatteredAsWritten` |
| BlockFiles.LowerBounds | linopy/io.py:192 | definition: `np.where(is_lower_bound_sub, rhs_sub, -np.inf)`: the rhs on a `>=` row and `-inf` otherwise, one cell per row |
| BlockFiles.UpperBounds | linopy/io.py:195 | definition: `np.where(~is_lower_bound_sub, rhs_sub, np.inf)`: the rhs on a row that is not `>=` and `+inf` otherwise, one cell per row |
| BlockFiles.Expected | linopy/io.py:164-224 | definition: the content of each file of each block, the variable arrays selected by `blocks == n`, the rhs by `is_blockn` and the sign, the terms by their bucket mask |
| BlockFiles.CheckIndices | linopy/io.py:173 | the method reports exactly whether every objective index names a variable or is `-1` |
| BlockFiles.ScatterObjective | linopy/io.py:172-173 | in place on the array: when the indices are valid the array becomes the scatter of the objective coefficients; otherwise it is unchanged and the failure is reported |
| BlockFiles.CastToInt | linopy/io.py:172 | numpy's float-to-integer cast truncates toward zero; the cast of an infinity is left without a value, as numpy gives no defined integer for it |
| BlockFiles.BlockDirectory.constructor | linopy/io.py:150 | an empty directory: no block directory and no file |
| BlockFiles.BlockDirectory.Reset | linopy/io.py:151-153 | `rmtree` then `mkdir` leaves no block directory and no file |
| BlockFiles.BlockDirectory.MakeBlockDir | linopy/io.py:159 | adds block directory `n`; the files are unchanged |
| BlockFiles.BlockDirectory.WriteFile | linopy/io.py:169 | `.tofile` into an existing block directory sets that one file to the cells and changes nothing else |
| BlockFiles.BlockDirectory.PrepareDirectory | linopy/io.py:150-159 | afterwards directories `block0 .. block{N}` exist and hold no file |
| BlockFiles.BlockDirectory.WriteByBlock | linopy/io.py:168-169 | the loop over `n` writes `arr[blocks == n]` into file `f` of every block and keeps the files already written |
| BlockFiles.BlockDirectory.WriteVariables | linopy/io.py:164-169 | afterwards every block holds its `x`, `xl` and `xu` files with the content `Expected` gives, and nothing else |
| BlockFiles.BlockDirectory.WriteRhsBlock | linopy/io.py:184-196 | writes `b`, `dl` and `du` of block `n` as `Expected` gives them, and extends the loop invariant from blocks below `n` to blocks up to `n` |
| BlockFiles.BlockDirectory.WriteRhs | linopy/io.py:183-196 | afterwards every block also holds its `b`, `dl` and `du` files |
| BlockFiles.BlockDirectory.WriteTermPair | linopy/io.py:214-224 | writes the equality file and the inequality file of one term mask of block `n` |
| BlockFiles.BlockDirectory.WriteTermBlock | linopy/io.py:211-224 | writes all six term files of one field of block `n` |
| BlockFiles.BlockDirectory.WriteTermField | linopy/io.py:208-224 | afterwards every block holds all six term files of the field |
| BlockFiles.BlockDirectory.WriteConstraints | linopy/io.py:177-224 | afterwards every block holds every right-hand-side file and every term file as well |
| BlockFiles.BlockDirectory.ToBlockFiles | linopy/io.py:145-224 | with valid objective indices every directory `block0 .. block{N}` holds every file with the content `Expected` gives, and nothing else is written; otherwise the run stops at the scatter, leaving only the variable files |
| BlockRouting.VariableFileAt | linopy/io.py:165-169 | cell `k` of `block{n}/x` (`xl`, `xu`, `c`) is the attribute of the `k`-th variable of block `n`, and later cells come from later variables |
| BlockRouting.FileUnionRouted | linopy/io.py:168-169 | the files of blocks `0 .. k-1` together hold exactly the cells routed to those blocks |
| BlockRouting.VariablesPartitioned | linopy/io.py:165-169 | when every block id lies in `0 .. N`, the per-block files of an attribute together hold every cell of it exactly once |
| BlockRouting.RhsRowsSplit | linopy/io.py:183-196 | `dl` and `du` have one cell per inequality row of the block, and `b` together with them covers the block's rows |
| BlockRouting.EqualityRhsAt | linopy/io.py:186 | cell `k` of `b` is the rhs of the `k`-th equality row of the block |
| BlockRouting.InequalityRhsAt | linopy/io.py:188-196 | cell `k` of `dl` is the rhs of the `k`-th inequality row when it is `>=` and `-inf` otherwise; `du` is the rhs when it is not `>=` and `+inf` otherwise |
| BlockRouting.LiteralSignsRouted | linopy/io.py:180-195 | the signs are compared literally: a row signed `"="` and a row with a null sign are not equalities, so `b` is empty and both go to `dl` as `-inf` and to `du` as their rhs |
| BlockRouting.BucketMaskMeans | linopy/io.py:205-224 | a term is in `B`/`D` iff con block and var block are `n`, in `A`/`C` iff con block is `n` and var block is `0`, in `BL`/`DL` iff con block is `N` and var block is `n`; the first of each pair holds equality terms, the second the rest |
| BlockRouting.TermFileAt | linopy/io.py:208-224 | cell `k` of a term file is the field of the `k`-th term of its bucket |
| BlockRouting.PartnerMasks | linopy/io.py:214-224 | each pair of term files splits one coupling mask by `is_equality` and `~is_equality` |
| BlockRouting.CouplingSplit | linopy/io.py:214-224 | under each mask the equality and inequality files together hold exactly the masked terms (`\|B\|+\|D\|` is the mask's count, and likewise for `A`/`C` and `BL`/`DL`) |
| BlockRouting.FirstBlockRepeatsDiagonal | linopy/io.py:205-220 | at `n = 0`, `A` equals `B` and `C` equals `D`: the duplication is kept |
| BlockRouting.LastBlockRepeatsDiagonal | linopy/io.py:206-224 | at `n = N`, `BL` equals `B` and `DL` equals `D`: the duplication is kept |
| BlockRouting.SuffixInjective | linopy/io.py:166-224 | distinct outputs have distinct file names, so no file of a block overwrites another |
| BlockRouting.ScatteredLastWrite | linopy/io.py:173 | the last assignment to a variable's cell decides its coefficient |
| BlockRouting.ScatteredUntouched | linopy/io.py:172-173 | a variable that no objective term names keeps the `0` of `zeros_like` |
| BlockRouting.ScatteredAgrees | linopy/io.py:173 | without missing terms the corrected scatter is numpy's |
| BlockRouting.MissingTermOverwritesLast | linopy/io.py:173 | a missing term (`-1`) overwrites the last variable's coefficient as written; the corrected scatter keeps it |
| BlockRouting.FractionalCoefficientTruncated | linopy/io.py:172-173 | a coefficient that is not a whole number, assigned last to its variable, is kept by the corrected scatter but stored as a different whole number as written |
| Snapshot.NonBoolDict | linopy/io.py:227-229 | every key is kept, no value is a bool afterwards, a bool becomes `1`/`0`, and every other value is unchanged |
| Snapshot.NonBoolDictFixes | linopy/io.py:227-229 | a dictionary without bools is left as it is |
| Snapshot.NonBoolDictIdempotent | linopy/io.py:227-229 | applying it twice gives the same as applying it once |
| Snapshot.StripRename | linopy/io.py:249 | a renamed key starts with `prefix + attr + "-"`, and `k[len(prefix + attr) + 1:]` gives back the original name |
| Snapshot.RenameStrip | linopy/io.py:291-292 | a key with that prefix is the renaming of its stripped name |
| Snapshot.WriteRename | linopy/io.py:247-249 | the renamed dataset holds exactly the keys with the section's prefix whose stripped name is a field, each with that field's data |
| Snapshot.WriteSections | linopy/io.py:251-261 | definition: `xr.merge` of the renamed sections, a union of their renamed keys |
| Snapshot.ReadRename | linopy/io.py:290-292 | the read-side section holds exactly the names whose renaming is a key of the container, each with that key's data |
| Snapshot.Sectioned | linopy/io.py:294-299 | definition: the keyword arguments `{attr: get_and_rename(all_ds, attr, prefix)}`, one section per attribute name |
| Snapshot.ReadAfterWrite | linopy/io.py:290-292 | reading a section back from its own renaming gives the original dataset |
| Snapshot.ReadConverted | linopy/io.py:263-264 | reading after the attribute conversion equals converting after the read |
| Snapshot.ForeignHead | linopy/io.py:291 | a key made for one section never starts with the prefix of a different section, because the first `-` ends the prefix |
| Snapshot.ReadUnion | linopy/io.py:261 | reading from a merge is the merge of the reads |
| Snapshot.ReadForeignSection | linopy/io.py:291-292 | reading section `attr` from a different section's renaming finds nothing |
| Snapshot.ReadForeign | linopy/io.py:291-292 | a section that none of the merged sections wrote reads back as empty |
| Snapshot.ReadSection | linopy/io.py:261-292 | from the merge of well-tagged sections, each section reads back exactly as written |
| Snapshot.ToNetcdf | linopy/io.py:251-266 | the stored container is the merge of the renamed sections with every data variable's attributes converted, and the scalar attributes attached |
| Snapshot.PoppableMeans | linopy/io.py:306-307 | popping the scalar attributes in turn succeeds iff each is present and none is named twice |
| Snapshot.RestoredModel.constructor | linopy/io.py:287 | `Model()` starts with no section and no scalar |
| Snapshot.RestoredModel.SetSections | linopy/io.py:302-303 | the `setattr` loop adds one section per attribute name, read with the empty prefix |
| Snapshot.RestoredModel.PopScalars | linopy/io.py:306-307 | the pops succeed iff the keys are poppable, and then add each key's value to the scalars |
| Snapshot.ReadNetcdf | linopy/io.py:287-309 | a fresh model whose variables, constraints and other sections are read under `variables_`, `constraints_` and no prefix; the scalars are popped, which fails exactly when one is missing or repeated |
| Snapshot.ContainerRoundTrip | linopy/io.py:294-303 | the sections written under one prefix read back as the converted original datasets |
| Snapshot.SnapshotRoundTrip | linopy/io.py:251-303 | the variables, constraints and other sections of a written snapshot read back as the originals with their attributes converted |
| Snapshot.SaveAndLoad | linopy/io.py:232-309 | writing then reading succeeds and restores every section (attributes converted) and every scalar attribute |

## Left out

- `"%+f"` formatting (linopy/io.py:25) is the parameter `floatTok`. The model does
  not fix the decimal text of a float. `"%d"` is modelled exactly.
- The parallel `apply_ufunc` (`dask="parallelized"`) is modelled as a sequential
  map. `str_array_to_file` writes the cells in array order.
- Multi-dimensional arrays are flattened into one sequence each. The term axis of a
  constraint is its `terms` sequence, padding cells (`var == -1`) of its group's
  term axis included, so `terms == []` means that the whole group's term axis is
  empty, the one case where `reduce` over it yields `0`. `reduce(np.sum, term_names)` over that axis
  is the concatenation of those terms in order, and numpy's `0` over an empty axis
  (`LpSections.LhsObj`).
- `TextCodec.ToIntStr` omits the `fillna(0)` of `to_int_str`, because the integer
  label arrays it formats hold no null cells.
- The temporary file of `to_file` is the parameter `tempName`. The temporary
  directory of `to_block_files` (when `fn` is `None`) is not modelled; the method
  writes into one given directory.
- Logging, timing and `tqdm` progress bars have no functional content and are
  left out.
- `m.calculate_block_maps()`, `ravel(..., filter_missings=True)` and `m.blocks.max()`
  live in model code that is not part of this model.
  - Their results are the inputs: `BlockInput` and the largest block id `N`.
  - The objective's variable labels are used directly as positions into the raveled
    variable arrays, as the source does.
- The binary encoding of `.tofile` is left out. A block file holds the sequence of
  cells written to it, and the element type of each cell is kept.
- `BlockFiles.ObjectiveCoeffs` stores every coefficient unchanged, as an untyped
  assignment. The source casts it into the integer dtype of `blocks`; only
  `BlockFiles.ObjectiveCoeffsAsWritten` shows that cast (see Findings).
- The objective coefficients, the variable bounds and the right-hand sides of
  `BlockInput` are never null. The NaN cells these would write to the block files
  are not modelled; only the signs may be null.
- `Values.Float` is an unbounded real or an infinity: rounding to 64 bits is not
  modelled, and neither is the int64 overflow of `BlockFiles.CastToInt`.
- BlockFiles.Scattered and BlockFiles.ScatteredAsWritten: both let the last
  assignment to a repeated index win. numpy does not promise an order for
  advanced assignment to a repeated index, so `BlockRouting.ScatteredLastWrite`
  and `BlockRouting.ScatteredAgrees` hold for the model, not necessarily for
  numpy, when an index repeats. The witness of Findings row 2 names two
  different cells and does not depend on the order.
- The bounds section reads `m.variables.*[m._non_binary_variables]`
  (linopy/io.py:93-95) and the binaries section `m.binaries.labels`
  (linopy/io.py:114); both selections are defined in model code that is not part
  of this model. Here they are complementary filters of one `variables` sequence
  on its `binary` flag (`LpSections.NonBinary`, `LpSections.Binaries`), each in
  that sequence's order.
- `xr.merge` is modelled as a union of renamed sections whose heads are distinct
  and contain no `-` (`WellTagged`). How xarray merges conflicting keys or
  coordinates is not modelled.
- The netCDF transport (`Dataset.to_netcdf`, `xr.load_dataset`) is left out. The
  stored container is passed to `ReadNetcdf` directly.
- The `Variables`, `Constraints` and `LinearExpression` constructors of
  `read_netcdf` are left out, and so is `m.objective = LinearExpression(...)`. The
  restored model keeps the datasets that would be handed to them.
- Data-variable values are a generic type `V`. The attribute-name lists
  (`dataset_attrs`, `scalar_attrs`, the extra `"objective"`) are parameters.
- LpFile.FileSystem.ConstraintsToFile: follows the corrected join (Findings, row 1).
  As written, a constraint with a null sign or no term makes the source raise after
  the `s.t.` header is written; the method appends the masked blocks instead.
- LpFile.FileSystem.ToFile: follows the corrected join (Findings, row 1). As written,
  such a model leaves a file holding the objective section and the `s.t.` header,
  and the call raises; the method writes the whole LP text.
- BlockFiles.ScatterObjective: follows the corrected scatter (Findings, rows 2 and
  3). As written, numpy accepts every index in `-len .. len-1`, writes a `-1` term
  into the last variable's cell and truncates each coefficient to an integer; the
  method rejects any negative index other than `-1`, skips `-1` and keeps the
  coefficients unchanged.
- BlockFiles.BlockDirectory.ToBlockFiles: follows the corrected scatter (Findings,
  rows 2 and 3). Its objective files hold `ObjectiveCoeffs`, not the truncated,
  `-1`-overwritten values the source writes. It stops only when an index is neither
  `-1` nor a variable, where the source stops only outside `-len .. len-1`.
- `test/test_constraint.py` exercises model construction and `to_matrix` in modules
  that are not part of this model, so it is not modelled.

### Attribute conversion and what fails on load

- **Which attributes are converted.** `non_bool_dict` is applied only to the
  attributes of each data variable (linopy/io.py:263-264). The scalar attributes are
  attached unconverted (linopy/io.py:260-261).
  - As a result, a round trip restores data-variable attributes with bools turned
    into `1`/`0`. It is lossless only for attributes that hold no bools
    (`Snapshot.NonBoolDictFixes`).
- **What fails on load.** A section that no key matches reads back as an empty
  dataset (linopy/io.py:291-292, `Snapshot.ReadForeign`). Only popping a missing or
  repeated scalar attribute fails (linopy/io.py:306-307, `Snapshot.PoppableMeans`).

## Findings

| source | as written | input that shows it | evidently intended | confidence | as-written member | corrected member |
|---|---|---|---|---|---|---|
| linopy/io.py:71-86 | the constraint join adds the raw `sign` and `lhs_str` arrays before the mask is applied; a null sign is a NaN float, and `np.sum` over an empty term axis is the integer `0`, so adding either to a string raises a TypeError | one constraint `c0: 1 x0` with a null sign and rhs `0`; or one constraint `c0` with sign `==`, rhs `0` and an empty term axis | a constraint with a null sign or no valid term is masked to `""` (line 74 masks it) | medium, not executed | LpSections.ConstraintBlocksAsWritten, LpSections.NullSignFails, LpSections.EmptyTermsFail | LpSections.ConstraintBlocks |
| linopy/io.py:173 | `coeffs[vars] = coeffs_obj` with a missing objective term (`vars == -1`) assigns to numpy index `-1`, the last variable | two variables and objective terms `[(x0, 3), (-1, 5)]`: variable 1 receives `5` | a missing term assigns nothing, and variable 1 keeps `0` | medium, not executed | BlockFiles.ScatteredAsWritten, BlockRouting.MissingTermOverwritesLast | BlockFiles.Scattered, BlockRouting.ScatteredUntouched |
| linopy/io.py:172-173 | `np.zeros_like(blocks)` has the integer dtype of the block ids, so the float coefficients scattered into it are truncated | one variable in block 0 with objective coefficient `0.5`: its `c` file holds `0` | the `c` files hold the objective coefficients | medium, not executed | BlockFiles.ObjectiveCoeffsAsWritten, BlockRouting.FractionalCoefficientTruncated | BlockFiles.ObjectiveCoeffs, BlockRouting.ScatteredLastWrite |
