/** `to_block_files`: the model, already flattened and filtered, is routed into one
    directory per block. Every output file of block `n` is an order-preserving
    selection of one input array by integer predicates on block ids. */
module BlockFiles {
  import opened Wrappers
  import opened Values
  import opened Masks

  /** One element of a written array: labels are integers, bounds, coefficients and
      right-hand sides are floats (with the two infinities). */
  datatype Cell = IntCell(i: int) | FloatCell(x: Float)

  function Ints(xs: seq<int>): (r: seq<Cell>)
    ensures |r| == |xs|
    ensures forall i :: 0 <= i < |xs| ==> r[i] == IntCell(xs[i])
  {
    seq(|xs|, i requires 0 <= i < |xs| => IntCell(xs[i]))
  }

  function Floats(xs: seq<Float>): (r: seq<Cell>)
    ensures |r| == |xs|
    ensures forall i :: 0 <= i < |xs| ==> r[i] == FloatCell(xs[i])
  {
    seq(|xs|, i requires 0 <= i < |xs| => FloatCell(xs[i]))
  }

  /** The six term files of a block: equality (`B`, `A`, `BL`) and inequality (`D`,
      `C`, `DL`) halves of the diagonal, first-stage and last-stage couplings. */
  datatype TermBucket = B | D | A | C | BL | DL

  /** Which term array a term file holds: constraint labels, coefficients or
      variable labels. */
  datatype TermField = Row | Data | Col

  /** The files of one block directory. */
  datatype FileName =
    | VarLabels | VarLower | VarUpper | ObjCoeffs | EqRhs | IneqLower | IneqUpper
    | TermFile(bucket: TermBucket, field: TermField)

  function BucketName(b: TermBucket): string
  {
    match b
    case B => "B"
    case D => "D"
    case A => "A"
    case C => "C"
    case BL => "BL"
    case DL => "DL"
  }

  function FieldName(f: TermField): string
  {
    match f
    case Row => "row"
    case Data => "data"
    case Col => "col"
  }

  /** The file name inside `block{n}`. */
  function Suffix(f: FileName): (s: string)
    ensures |s| > 0
  {
    match f
    case VarLabels => "x"
    case VarLower => "xl"
    case VarUpper => "xu"
    case ObjCoeffs => "c"
    case EqRhs => "b"
    case IneqLower => "dl"
    case IneqUpper => "du"
    case TermFile(b, fld) => BucketName(b) + "_" + FieldName(fld)
  }

  const VariableFiles: set<FileName> := {VarLabels, VarLower, VarUpper}
  const RhsFiles: set<FileName> := {EqRhs, IneqLower, IneqUpper}

  function FieldFiles(fld: TermField): set<FileName>
  {
    {TermFile(B, fld), TermFile(D, fld), TermFile(A, fld), TermFile(C, fld), TermFile(BL, fld), TermFile(DL, fld)}
  }

  const AllFiles: set<FileName> :=
    VariableFiles + {ObjCoeffs} + RhsFiles + FieldFiles(Row) + FieldFiles(Data) + FieldFiles(Col)

  /** The raveled, missing-filtered arrays the router reads:
      per variable its block, label and bounds; the objective's variable labels and
      coefficients; per constraint its block, right-hand side and sign; per term the
      block of its constraint, the block of its variable, the sign of its
      constraint, and its constraint label, coefficient and variable label. */
  datatype BlockInput = BlockInput(
    varBlocks: seq<int>, varLabels: seq<int>, varLower: seq<Float>, varUpper: seq<Float>,
    objVars: seq<int>, objCoeffs: seq<Float>,
    conBlocks: seq<int>, conRhs: seq<Float>, conSigns: seq<Option<Sign>>,
    termConBlocks: seq<int>, termVarBlocks: seq<int>, termSigns: seq<Option<Sign>>,
    termLabels: seq<int>, termCoeffs: seq<Float>, termVars: seq<int>)

  /** Arrays raveled from the same object have the same length. */
  predicate Aligned(inp: BlockInput)
  {
    && |inp.varLabels| == |inp.varBlocks| && |inp.varLower| == |inp.varBlocks| && |inp.varUpper| == |inp.varBlocks|
    && |inp.objCoeffs| == |inp.objVars|
    && |inp.conRhs| == |inp.conBlocks| && |inp.conSigns| == |inp.conBlocks|
    && |inp.termVarBlocks| == |inp.termConBlocks| && |inp.termSigns| == |inp.termConBlocks|
    && |inp.termLabels| == |inp.termConBlocks| && |inp.termCoeffs| == |inp.termConBlocks|
    && |inp.termVars| == |inp.termConBlocks|
  }

  /** `sign == "=="`: a literal comparison, false on a null sign. */
  function IsEquality(signs: seq<Option<Sign>>): (r: seq<bool>)
    ensures |r| == |signs|
    ensures forall i :: 0 <= i < |signs| ==> r[i] == (signs[i] == Some(Eq))
  {
    seq(|signs|, i requires 0 <= i < |signs| => signs[i] == Some(Eq))
  }

  /** `sign == ">="`: a literal comparison, false on a null sign. */
  function IsLowerBound(signs: seq<Option<Sign>>): (r: seq<bool>)
    ensures |r| == |signs|
    ensures forall i :: 0 <= i < |signs| ==> r[i] == (signs[i] == Some(Ge))
  {
    seq(|signs|, i requires 0 <= i < |signs| => signs[i] == Some(Ge))
  }

  /** `np.where(is_lower_bound_sub, rhs_sub, -np.inf)`: the lower side of each
      inequality row. */
  function LowerBounds(isLower: seq<bool>, rhs: seq<Float>): (r: seq<Float>)
    requires |isLower| == |rhs|
    ensures |r| == |rhs|
    ensures forall i :: 0 <= i < |rhs| ==> r[i] == if isLower[i] then rhs[i] else NegInf
  {
    seq(|rhs|, i requires 0 <= i < |rhs| => if isLower[i] then rhs[i] else NegInf)
  }

  /** `np.where(~is_lower_bound_sub, rhs_sub, np.inf)`: the upper side of each
      inequality row. */
  function UpperBounds(isLower: seq<bool>, rhs: seq<Float>): (r: seq<Float>)
    requires |isLower| == |rhs|
    ensures |r| == |rhs|
    ensures forall i :: 0 <= i < |rhs| ==> r[i] == if isLower[i] then PosInf else rhs[i]
  {
    seq(|rhs|, i requires 0 <= i < |rhs| => if !isLower[i] then rhs[i] else PosInf)
  }

  // ---------------------------------------------------------------- the objective scatter

  /** Every index names a cell of an array of length `len`, or is the `-1` of a
      missing term. */
  predicate ValidIndices(idx: seq<int>, len: nat)
  {
    forall i :: 0 <= i < |idx| ==> idx[i] == -1 || 0 <= idx[i] < len
  }

  /** `base[idx] = vals`, the assignments made in order, so that the last one to a
      cell wins; the `-1` of a missing term assigns nothing. */
  function Scattered(base: seq<Float>, idx: seq<int>, vals: seq<Float>): (r: seq<Float>)
    requires |idx| == |vals|
    ensures |r| == |base|
    decreases |idx|
  {
    if idx == [] then base
    else
      var k := |idx| - 1;
      var b := Scattered(base, idx[..k], vals[..k]);
      if 0 <= idx[k] < |b| then b[idx[k] := vals[k]] else b
  }

  /** numpy's reading of an index into an array of length `len`: negative indices
      count from the end. */
  function Wrap(i: int, len: nat): int
  {
    if i < 0 then len + i else i
  }

  /** `coeffs[vars] = coeffs_obj` as written: an index outside `-len .. len-1` is an
      IndexError (`None`); any other index, `-1` included, is wrapped and assigned. */
  function ScatteredAsWritten(base: seq<Float>, idx: seq<int>, vals: seq<Float>): (r: Option<seq<Float>>)
    requires |idx| == |vals|
    ensures r.Some? <==> forall i :: 0 <= i < |idx| ==> -|base| <= idx[i] < |base|
    ensures r.Some? ==> |r.value| == |base|
    decreases |idx|
  {
    if idx == [] then Some(base)
    else
      var k := |idx| - 1;
      var b := ScatteredAsWritten(base, idx[..k], vals[..k]);
      if b.None? || !(-|base| <= idx[k] < |base|) then
        assert b.None? ==> exists i :: 0 <= i < k && !(-|base| <= idx[..k][i] < |base|);
        None
      else
        assert forall i :: 0 <= i < k ==> idx[..k][i] == idx[i];
        Some(b.value[Wrap(idx[k], |base|) := vals[k]])
  }

  /** The objective coefficient of every variable: `np.zeros_like(blocks)` with the
      objective's coefficients scattered in. */
  function ObjectiveCoeffs(inp: BlockInput): (r: seq<Float>)
    requires Aligned(inp)
    ensures |r| == |inp.varBlocks|
  {
    Scattered(seq(|inp.varBlocks|, _ => Zero), inp.objVars, inp.objCoeffs)
  }

  /** numpy's cast of a float into an integer array: truncation toward zero; an
      infinity has no integer value (`None`). */
  function CastToInt(x: Float): (r: Option<int>)
    ensures r.Some? <==> x.Finite?
    ensures x.Finite? && x.r >= 0.0 ==> 0 <= r.value && r.value as real <= x.r < r.value as real + 1.0
    ensures x.Finite? && x.r < 0.0 ==> r.value <= 0 && r.value as real - 1.0 < x.r <= r.value as real
  {
    match x
    case Finite(v) => Some(if v >= 0.0 then v.Floor else -((-v).Floor))
    case _ => None
  }

  /** The objective coefficients as the source stores them: numpy's scatter into
      `np.zeros_like(blocks)`, which takes the integer dtype of the variables' block
      ids, so every coefficient assigned into it is cast to an integer. `None` is
      the IndexError of an index outside `-len .. len-1`. */
  function ObjectiveCoeffsAsWritten(inp: BlockInput): (r: Option<seq<Option<int>>>)
    requires Aligned(inp)
    ensures r.Some? <==> forall i :: 0 <= i < |inp.objVars| ==> -|inp.varBlocks| <= inp.objVars[i] < |inp.varBlocks|
    ensures r.Some? ==> |r.value| == |inp.varBlocks|
    ensures r.Some? ==> forall i :: 0 <= i < |r.value| ==>
              r.value[i] == CastToInt(ScatteredAsWritten(seq(|inp.varBlocks|, _ => Zero), inp.objVars, inp.objCoeffs).value[i])
  {
    var c := ScatteredAsWritten(seq(|inp.varBlocks|, _ => Zero), inp.objVars, inp.objCoeffs);
    if c.None? then None
    else Some(seq(|c.value|, i requires 0 <= i < |c.value| => CastToInt(c.value[i])))
  }

  // ---------------------------------------------------------------- what each file holds

  /** The array a per-variable file is cut from. */
  function VariableArray(inp: BlockInput, f: FileName): (r: seq<Cell>)
    requires Aligned(inp) && f in VariableFiles + {ObjCoeffs}
    ensures |r| == |inp.varBlocks|
  {
    match f
    case VarLabels => Ints(inp.varLabels)
    case VarLower => Floats(inp.varLower)
    case VarUpper => Floats(inp.varUpper)
    case ObjCoeffs => Floats(ObjectiveCoeffs(inp))
  }

  /** The term array a term file is cut from. */
  function TermArray(inp: BlockInput, fld: TermField): (r: seq<Cell>)
    requires Aligned(inp)
    ensures |r| == |inp.termConBlocks|
  {
    match fld
    case Row => Ints(inp.termLabels)
    case Data => Floats(inp.termCoeffs)
    case Col => Ints(inp.termVars)
  }

  /** The coupling a pair of term files of block `n` selects: `conblock == n` and
      `varblock == n` (diagonal), `conblock == n` and `varblock == 0` (first stage),
      `conblock == N` and `varblock == n` (last stage). */
  function CouplingMask(inp: BlockInput, N: nat, b: TermBucket, n: int): (r: seq<bool>)
    requires Aligned(inp)
    ensures |r| == |inp.termConBlocks|
  {
    match b
    case B => And(EqMask(inp.termConBlocks, n), EqMask(inp.termVarBlocks, n))
    case D => And(EqMask(inp.termConBlocks, n), EqMask(inp.termVarBlocks, n))
    case A => And(EqMask(inp.termConBlocks, n), EqMask(inp.termVarBlocks, 0))
    case C => And(EqMask(inp.termConBlocks, n), EqMask(inp.termVarBlocks, 0))
    case BL => And(EqMask(inp.termConBlocks, N), EqMask(inp.termVarBlocks, n))
    case DL => And(EqMask(inp.termConBlocks, N), EqMask(inp.termVarBlocks, n))
  }

  /** `B`, `A` and `BL` take the equality half of their coupling. */
  predicate EqualityBucket(b: TermBucket)
  {
    b == B || b == A || b == BL
  }

  function BucketMask(inp: BlockInput, N: nat, b: TermBucket, n: int): (r: seq<bool>)
    requires Aligned(inp)
    ensures |r| == |inp.termConBlocks|
  {
    var eq := IsEquality(inp.termSigns);
    if EqualityBucket(b) then And(CouplingMask(inp, N, b, n), eq)
    else And(CouplingMask(inp, N, b, n), Not(eq))
  }

  /** The inequality rows of block `n`: `is_blockn & ~is_equality`. */
  function InequalityRows(inp: BlockInput, n: int): (r: seq<bool>)
    requires Aligned(inp)
    ensures |r| == |inp.conBlocks|
  {
    And(EqMask(inp.conBlocks, n), Not(IsEquality(inp.conSigns)))
  }

  lemma TermExpected(inp: BlockInput, N: nat, n: int, b: TermBucket, fld: TermField)
    requires Aligned(inp)
    ensures Expected(inp, N, n, TermFile(b, fld)) == Select(TermArray(inp, fld), BucketMask(inp, N, b, n))
  {
  }

  /** The content of file `f` of block `n`, for the largest block id `N`. */
  function Expected(inp: BlockInput, N: nat, n: int, f: FileName): seq<Cell>
    requires Aligned(inp)
  {
    match f
    case VarLabels => Select(VariableArray(inp, f), EqMask(inp.varBlocks, n))
    case VarLower => Select(VariableArray(inp, f), EqMask(inp.varBlocks, n))
    case VarUpper => Select(VariableArray(inp, f), EqMask(inp.varBlocks, n))
    case ObjCoeffs => Select(VariableArray(inp, f), EqMask(inp.varBlocks, n))
    case EqRhs => Floats(Select(inp.conRhs, And(EqMask(inp.conBlocks, n), IsEquality(inp.conSigns))))
    case IneqLower =>
      var ne := InequalityRows(inp, n);
      Floats(LowerBounds(Select(IsLowerBound(inp.conSigns), ne), Select(inp.conRhs, ne)))
    case IneqUpper =>
      var ne := InequalityRows(inp, n);
      Floats(UpperBounds(Select(IsLowerBound(inp.conSigns), ne), Select(inp.conRhs, ne)))
    case TermFile(b, fld) => Select(TermArray(inp, fld), BucketMask(inp, N, b, n))
  }

  /** The block ids `0 .. n-1`. */
  function BlocksBelow(n: nat): (r: set<int>)
    ensures forall k :: k in r <==> 0 <= k < n
  {
    if n == 0 then {} else BlocksBelow(n - 1) + {n - 1}
  }

  /** In block directories `0 .. N` the files of `done` are written, and those of
      `cur` for blocks `0 .. upto-1`, and those of `extra` for block `upto`; nothing
      else is, and every written file holds what the model says it holds. */
  ghost predicate Written(files: map<(int, FileName), seq<Cell>>, inp: BlockInput, N: nat,
                          done: set<FileName>, cur: set<FileName>, upto: int, extra: set<FileName>)
  {
    && Aligned(inp)
    && (forall n: int, f: FileName :: (n, f) in files <==>
          (0 <= n <= N && f in done) || (0 <= n < upto && f in cur) || (n == upto && f in extra))
    && (forall n: int, f: FileName :: (n, f) in files ==> files[(n, f)] == Expected(inp, N, n, f))
  }

  /** Writing the file `f` of block `upto`. */
  lemma WriteOne(files: map<(int, FileName), seq<Cell>>, inp: BlockInput, N: nat, done: set<FileName>,
                 cur: set<FileName>, upto: int, extra: set<FileName>, f: FileName, data: seq<Cell>)
    requires Written(files, inp, N, done, cur, upto, extra)
    requires 0 <= upto <= N && f in cur && data == Expected(inp, N, upto, f)
    ensures Written(files[(upto, f) := data], inp, N, done, cur, upto, extra + {f})
  {
  }

  /** Once block `upto` has every file of `cur`, the next block is due. */
  lemma NextBlock(files: map<(int, FileName), seq<Cell>>, inp: BlockInput, N: nat, done: set<FileName>,
                  cur: set<FileName>, upto: int, extra: set<FileName>)
    requires Written(files, inp, N, done, cur, upto, extra) && extra == cur && 0 <= upto
    ensures Written(files, inp, N, done, cur, upto + 1, {})
  {
  }

  /** Once every block has a file of `cur`, those files count as done. */
  lemma Complete(files: map<(int, FileName), seq<Cell>>, inp: BlockInput, N: nat, done: set<FileName>,
                 cur: set<FileName>)
    requires Written(files, inp, N, done, cur, N + 1, {})
    ensures Written(files, inp, N, done + cur, {}, 0, {})
  {
  }

  // ---------------------------------------------------------------- the writer

  /** Index checking before `coeffs[vars] = coeffs_obj` assigns anything. */
  method CheckIndices(idx: seq<int>, len: nat) returns (ok: bool)
    ensures ok == ValidIndices(idx, len)
  {
    var i := 0;
    while i < |idx|
      invariant 0 <= i <= |idx|
      invariant ValidIndices(idx[..i], len)
    {
      if !(idx[i] == -1 || 0 <= idx[i] < len) {
        return false;
      }
      i := i + 1;
    }
    assert idx[..i] == idx;
    return true;
  }

  /** `coeffs[vars] = coeffs_obj` on the array in place; a bad index leaves the array
      untouched and reports failure. */
  method ScatterObjective(a: array<Float>, idx: seq<int>, vals: seq<Float>) returns (ok: bool)
    requires |idx| == |vals|
    modifies a
    ensures ok == ValidIndices(idx, a.Length)
    ensures ok ==> a[..] == Scattered(old(a[..]), idx, vals)
    ensures !ok ==> a[..] == old(a[..])
  {
    ok := CheckIndices(idx, a.Length);
    if !ok {
      return;
    }
    ghost var base := a[..];
    var i := 0;
    while i < |idx|
      invariant 0 <= i <= |idx|
      invariant a[..] == Scattered(base, idx[..i], vals[..i])
    {
      assert idx[..i + 1][..i] == idx[..i] && vals[..i + 1][..i] == vals[..i];
      if idx[i] != -1 {
        a[idx[i]] := vals[i];
      }
      i := i + 1;
    }
    assert idx[..i] == idx && vals[..i] == vals;
  }

  /** The output directory: its block directories and the file written under each. */
  class BlockDirectory {
    var dirs: set<int>
    var files: map<(int, FileName), seq<Cell>>

    constructor ()
      ensures dirs == {} && files == map[]
    {
      dirs := {};
      files := map[];
    }

    /** The block directories `0 .. N` exist and the files are as `Written` says. */
    ghost predicate Holds(inp: BlockInput, N: nat, done: set<FileName>, cur: set<FileName>, upto: int)
      reads this
    {
      dirs == BlocksBelow(N + 1) && Written(files, inp, N, done, cur, upto, {})
    }

    /** `shutil.rmtree(path)` followed by `path.mkdir()`. */
    method Reset()
      modifies this
      ensures dirs == {} && files == map[]
    {
      dirs := {};
      files := map[];
    }

    /** `(path / f"block{n}").mkdir()` */
    method MakeBlockDir(n: int)
      modifies this
      ensures dirs == old(dirs) + {n} && files == old(files)
    {
      dirs := dirs + {n};
    }

    /** `arr.tofile(path / f"block{n}" / suffix)`: the file is replaced. */
    method WriteFile(n: int, f: FileName, data: seq<Cell>)
      requires n in dirs
      modifies this
      ensures files == old(files)[(n, f) := data] && dirs == old(dirs)
    {
      files := files[(n, f) := data];
    }

    /** The inner loop over blocks for one per-variable array: file `f` of block `n`
        gets the cells whose variable lies in block `n`. */
    method WriteByBlock(inp: BlockInput, N: nat, f: FileName, arr: seq<Cell>, ghost done: set<FileName>)
      requires Holds(inp, N, done, {}, 0) && f in VariableFiles + {ObjCoeffs}
      requires arr == VariableArray(inp, f)
      modifies this
      ensures Holds(inp, N, done + {f}, {}, 0)
    {
      var n := 0;
      while n <= N
        invariant 0 <= n <= N + 1
        invariant Holds(inp, N, done, {f}, n)
      {
        ghost var before := files;
        WriteFile(n, f, Select(arr, EqMask(inp.varBlocks, n)));
        WriteOne(before, inp, N, done, {f}, n, {}, f, Select(arr, EqMask(inp.varBlocks, n)));
        NextBlock(files, inp, N, done, {f}, n, {} + {f});
        n := n + 1;
      }
      Complete(files, inp, N, done, {f});
    }

    /** The loop writing `b`, `dl` and `du` of every block. */
    method WriteRhs(inp: BlockInput, N: nat, ghost done: set<FileName>)
      requires Holds(inp, N, done, {}, 0)
      modifies this
      ensures Holds(inp, N, done + RhsFiles, {}, 0)
    {
      var isEquality := IsEquality(inp.conSigns);
      var isLowerBound := IsLowerBound(inp.conSigns);
      var n := 0;
      while n <= N
        invariant 0 <= n <= N + 1
        invariant Holds(inp, N, done, RhsFiles, n)
      {
        var isBlockN := EqMask(inp.conBlocks, n);
        var eqRhs := Select(inp.conRhs, And(isBlockN, isEquality));
        var notEquality := And(isBlockN, Not(isEquality));
        var isLowerBoundSub := Select(isLowerBound, notEquality);
        var rhsSub := Select(inp.conRhs, notEquality);
        WriteRhsBlock(inp, N, n, done, Floats(eqRhs), Floats(LowerBounds(isLowerBoundSub, rhsSub)),
                      Floats(UpperBounds(isLowerBoundSub, rhsSub)));
        n := n + 1;
      }
      Complete(files, inp, N, done, RhsFiles);
    }

    method WriteRhsBlock(inp: BlockInput, N: nat, n: nat, ghost done: set<FileName>,
                         b: seq<Cell>, dl: seq<Cell>, du: seq<Cell>)
      requires dirs == BlocksBelow(N + 1) && Written(files, inp, N, done, RhsFiles, n, {}) && n <= N
      requires b == Expected(inp, N, n, EqRhs) && dl == Expected(inp, N, n, IneqLower) && du == Expected(inp, N, n, IneqUpper)
      modifies this
      ensures dirs == old(dirs) && Written(files, inp, N, done, RhsFiles, n + 1, {})
    {
      ghost var f0 := files;
      WriteFile(n, EqRhs, b);
      WriteOne(f0, inp, N, done, RhsFiles, n, {}, EqRhs, b);
      ghost var f1 := files;
      WriteFile(n, IneqLower, dl);
      WriteOne(f1, inp, N, done, RhsFiles, n, {} + {EqRhs}, IneqLower, dl);
      ghost var f2 := files;
      WriteFile(n, IneqUpper, du);
      WriteOne(f2, inp, N, done, RhsFiles, n, {} + {EqRhs} + {IneqLower}, IneqUpper, du);
      NextBlock(files, inp, N, done, RhsFiles, n, {} + {EqRhs} + {IneqLower} + {IneqUpper});
    }

    /** The inner loop over blocks for one term array: the six term files of every block. */
    method WriteTermField(inp: BlockInput, N: nat, fld: TermField, arr: seq<Cell>, ghost done: set<FileName>)
      requires Holds(inp, N, done, {}, 0)
      requires arr == TermArray(inp, fld)
      modifies this
      ensures Holds(inp, N, done + FieldFiles(fld), {}, 0)
    {
      var isEquality := IsEquality(inp.termSigns);
      var isVarblock0 := EqMask(inp.termVarBlocks, 0);
      var isConblockL := EqMask(inp.termConBlocks, N);
      var n := 0;
      while n <= N
        invariant 0 <= n <= N + 1
        invariant Holds(inp, N, done, FieldFiles(fld), n)
      {
        WriteTermBlock(inp, N, n, fld, done, arr, isEquality, isVarblock0, isConblockL);
        n := n + 1;
      }
      Complete(files, inp, N, done, FieldFiles(fld));
    }

    /** The six term files of block `n`. */
    method WriteTermBlock(inp: BlockInput, N: nat, n: nat, fld: TermField, ghost done: set<FileName>,
                          arr: seq<Cell>, isEquality: seq<bool>, isVarblock0: seq<bool>, isConblockL: seq<bool>)
      requires dirs == BlocksBelow(N + 1) && Written(files, inp, N, done, FieldFiles(fld), n, {}) && n <= N
      requires arr == TermArray(inp, fld) && isEquality == IsEquality(inp.termSigns)
      requires isVarblock0 == EqMask(inp.termVarBlocks, 0) && isConblockL == EqMask(inp.termConBlocks, N)
      modifies this
      ensures dirs == old(dirs) && Written(files, inp, N, done, FieldFiles(fld), n + 1, {})
    {
      var isConblockN := EqMask(inp.termConBlocks, n);
      var isVarblockN := EqMask(inp.termVarBlocks, n);
      ghost var e0: set<FileName> := {};
      WriteTermPair(inp, N, n, fld, done, e0, B, D, arr, And(isConblockN, isVarblockN), isEquality);
      ghost var e1 := e0 + {TermFile(B, fld)} + {TermFile(D, fld)};
      WriteTermPair(inp, N, n, fld, done, e1, A, C, arr, And(isConblockN, isVarblock0), isEquality);
      ghost var e2 := e1 + {TermFile(A, fld)} + {TermFile(C, fld)};
      WriteTermPair(inp, N, n, fld, done, e2, BL, DL, arr, And(isConblockL, isVarblockN), isEquality);
      NextBlock(files, inp, N, done, FieldFiles(fld), n, e2 + {TermFile(BL, fld)} + {TermFile(DL, fld)});
    }

    /** `arr[mask & is_equality]` into the equality file and `arr[mask & ~is_equality]`
        into the inequality file of one coupling of block `n`. */
    method WriteTermPair(inp: BlockInput, N: nat, n: nat, fld: TermField, ghost done: set<FileName>,
                         ghost extra: set<FileName>, eqBucket: TermBucket, neBucket: TermBucket,
                         arr: seq<Cell>, mask: seq<bool>, isEquality: seq<bool>)
      requires dirs == BlocksBelow(N + 1) && Written(files, inp, N, done, FieldFiles(fld), n, extra) && n <= N
      requires EqualityBucket(eqBucket) && !EqualityBucket(neBucket)
      requires mask == CouplingMask(inp, N, eqBucket, n) && mask == CouplingMask(inp, N, neBucket, n)
      requires arr == TermArray(inp, fld) && isEquality == IsEquality(inp.termSigns)
      modifies this
      ensures dirs == old(dirs)
      ensures Written(files, inp, N, done, FieldFiles(fld), n, extra + {TermFile(eqBucket, fld)} + {TermFile(neBucket, fld)})
    {
      var eqData := Select(arr, And(mask, isEquality));
      var neData := Select(arr, And(mask, Not(isEquality)));
      TermExpected(inp, N, n, eqBucket, fld);
      TermExpected(inp, N, n, neBucket, fld);
      ghost var f0 := files;
      WriteFile(n, TermFile(eqBucket, fld), eqData);
      WriteOne(f0, inp, N, done, FieldFiles(fld), n, extra, TermFile(eqBucket, fld), eqData);
      ghost var f1 := files;
      WriteFile(n, TermFile(neBucket, fld), neData);
      WriteOne(f1, inp, N, done, FieldFiles(fld), n, extra + {TermFile(eqBucket, fld)}, TermFile(neBucket, fld), neData);
    }

    /** `path.mkdir()` after `shutil.rmtree(path)`, then `block0 .. blockN`. */
    method PrepareDirectory(inp: BlockInput, N: nat)
      requires Aligned(inp)
      modifies this
      ensures Holds(inp, N, {}, {}, 0)
    {
      Reset();
      var n := 0;
      while n <= N
        invariant 0 <= n <= N + 1
        invariant dirs == BlocksBelow(n)
        invariant files == map[]
      {
        MakeBlockDir(n);
        n := n + 1;
      }
    }

    /** The files `x`, `xl` and `xu` of every block. */
    method WriteVariables(inp: BlockInput, N: nat)
      requires Holds(inp, N, {}, {}, 0)
      modifies this
      ensures Holds(inp, N, VariableFiles, {}, 0)
    {
      WriteByBlock(inp, N, VarLabels, Ints(inp.varLabels), {});
      WriteByBlock(inp, N, VarLower, Floats(inp.varLower), {VarLabels});
      WriteByBlock(inp, N, VarUpper, Floats(inp.varUpper), {VarLabels, VarLower});
      assert {VarLabels, VarLower} + {VarUpper} == VariableFiles;
    }

    /** The right-hand side files and the term files of every block. */
    method WriteConstraints(inp: BlockInput, N: nat)
      requires Holds(inp, N, VariableFiles + {ObjCoeffs}, {}, 0)
      modifies this
      ensures Holds(inp, N, AllFiles, {}, 0)
    {
      ghost var done := VariableFiles + {ObjCoeffs};
      WriteRhs(inp, N, done);
      done := done + RhsFiles;
      WriteTermField(inp, N, Row, TermArray(inp, Row), done);
      done := done + FieldFiles(Row);
      WriteTermField(inp, N, Data, TermArray(inp, Data), done);
      done := done + FieldFiles(Data);
      WriteTermField(inp, N, Col, TermArray(inp, Col), done);
      done := done + FieldFiles(Col);
      assert done == AllFiles;
    }

    /** `to_block_files` for the largest block id `N`. When every objective index names
        a variable (or is `-1`), every block directory `0 .. N` holds every file with
        the content the model gives it and nothing else is written; otherwise the
        scatter of the objective fails after the variable files are written. */
    method ToBlockFiles(inp: BlockInput, N: nat) returns (ok: bool)
      requires Aligned(inp)
      modifies this
      ensures ok == ValidIndices(inp.objVars, |inp.varBlocks|)
      ensures ok ==> Holds(inp, N, AllFiles, {}, 0)
      ensures !ok ==> Holds(inp, N, VariableFiles, {}, 0)
    {
      PrepareDirectory(inp, N);
      WriteVariables(inp, N);
      var coeffs := new Float[|inp.varBlocks|](_ => Zero);
      assert coeffs[..] == seq(|inp.varBlocks|, _ => Zero);
      ok := ScatterObjective(coeffs, inp.objVars, inp.objCoeffs);
      if !ok {
        return;
      }
      WriteByBlock(inp, N, ObjCoeffs, Floats(coeffs[..]), VariableFiles);
      WriteConstraints(inp, N);
    }
  }
}
