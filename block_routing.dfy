/** What the block files mean: each file of block `n` is the in-order selection of
    the cells whose block ids put them there; the files of a routing together hold
    every cell exactly once; the first and the last block deliberately repeat the
    diagonal files; and the objective scatter lets the last assignment win. */
module BlockRouting {
  import opened Wrappers
  import opened Values
  import opened Masks
  import opened BlockFiles

  // ---------------------------------------------------------------- variables

  /** Cell `k` of a per-variable file of block `n` is the value of the `k`-th
      variable of block `n`, in the order of the input, and nothing else is in it. */
  lemma VariableFileAt(inp: BlockInput, N: nat, n: int, f: FileName, k: nat)
    requires Aligned(inp) && f in VariableFiles + {ObjCoeffs}
    requires k < Count(EqMask(inp.varBlocks, n))
    ensures |Expected(inp, N, n, f)| == Count(EqMask(inp.varBlocks, n))
    ensures Positions(EqMask(inp.varBlocks, n))[k] < |inp.varBlocks|
    ensures inp.varBlocks[Positions(EqMask(inp.varBlocks, n))[k]] == n
    ensures Expected(inp, N, n, f)[k] == VariableArray(inp, f)[Positions(EqMask(inp.varBlocks, n))[k]]
    ensures forall l :: k < l < Count(EqMask(inp.varBlocks, n)) ==>
              Positions(EqMask(inp.varBlocks, n))[k] < Positions(EqMask(inp.varBlocks, n))[l]
  {
    SelectAt(VariableArray(inp, f), EqMask(inp.varBlocks, n), k);
    forall l | k < l < Count(EqMask(inp.varBlocks, n))
      ensures Positions(EqMask(inp.varBlocks, n))[k] < Positions(EqMask(inp.varBlocks, n))[l]
    {
      PositionsIncrease(EqMask(inp.varBlocks, n), k, l);
    }
  }

  /** The cells of file `f` over the blocks `0 .. k-1`. */
  function FileUnion(inp: BlockInput, N: nat, f: FileName, k: nat): multiset<Cell>
    requires Aligned(inp)
  {
    if k == 0 then multiset{} else FileUnion(inp, N, f, k - 1) + multiset(Expected(inp, N, k - 1, f))
  }

  lemma VariableExpected(inp: BlockInput, N: nat, n: int, f: FileName)
    requires Aligned(inp) && f in VariableFiles + {ObjCoeffs}
    ensures Expected(inp, N, n, f) == Select(VariableArray(inp, f), EqMask(inp.varBlocks, n))
  {
  }

  /** Adding block `n` to the union adds the in-order selection of its variables. */
  lemma FileUnionStep(inp: BlockInput, N: nat, f: FileName, n: nat)
    requires Aligned(inp) && f in VariableFiles + {ObjCoeffs}
    ensures FileUnion(inp, N, f, n + 1) ==
              FileUnion(inp, N, f, n) + multiset(Select(VariableArray(inp, f), EqMask(inp.varBlocks, n)))
  {
    VariableExpected(inp, N, n, f);
  }

  lemma {:induction false} FileUnionRouted(inp: BlockInput, N: nat, f: FileName, k: nat)
    requires Aligned(inp) && f in VariableFiles + {ObjCoeffs}
    ensures FileUnion(inp, N, f, k) == RoutedUnion(VariableArray(inp, f), inp.varBlocks, k)
  {
    if k > 0 {
      var n: nat := k - 1;
      var xs, ids := VariableArray(inp, f), inp.varBlocks;
      FileUnionRouted(inp, N, f, n);
      FileUnionStep(inp, N, f, n);
      assert RoutedUnion(xs, ids, n + 1) == RoutedUnion(xs, ids, n) + multiset(Select(xs, EqMask(ids, n)));
    }
  }

  /** When every variable's block lies in `0 .. N`, the files `f` of the blocks
      `0 .. N` together hold every value of the per-variable array exactly once. */
  lemma VariablesPartitioned(inp: BlockInput, N: nat, f: FileName)
    requires Aligned(inp) && f in VariableFiles + {ObjCoeffs}
    requires forall i :: 0 <= i < |inp.varBlocks| ==> 0 <= inp.varBlocks[i] <= N
    ensures FileUnion(inp, N, f, N + 1) == multiset(VariableArray(inp, f))
  {
    FileUnionRouted(inp, N, f, N + 1);
    RoutingCovers(VariableArray(inp, f), inp.varBlocks, N);
  }

  // ---------------------------------------------------------------- right-hand sides

  /** Every constraint of block `n` goes either to `b` or to both `dl` and `du`. */
  lemma RhsRowsSplit(inp: BlockInput, N: nat, n: int)
    requires Aligned(inp)
    ensures |Expected(inp, N, n, IneqLower)| == Count(InequalityRows(inp, n))
    ensures |Expected(inp, N, n, IneqUpper)| == Count(InequalityRows(inp, n))
    ensures |Expected(inp, N, n, EqRhs)| + Count(InequalityRows(inp, n)) == Count(EqMask(inp.conBlocks, n))
  {
    SelectSplit(inp.conRhs, EqMask(inp.conBlocks, n), IsEquality(inp.conSigns));
  }

  /** Cell `k` of `b` is the right-hand side of the `k`-th equality of block `n`. */
  lemma EqualityRhsAt(inp: BlockInput, N: nat, n: int, k: nat)
    requires Aligned(inp)
    requires k < Count(And(EqMask(inp.conBlocks, n), IsEquality(inp.conSigns)))
    ensures |Expected(inp, N, n, EqRhs)| == Count(And(EqMask(inp.conBlocks, n), IsEquality(inp.conSigns)))
    ensures Positions(And(EqMask(inp.conBlocks, n), IsEquality(inp.conSigns)))[k] < |inp.conBlocks|
    ensures inp.conBlocks[Positions(And(EqMask(inp.conBlocks, n), IsEquality(inp.conSigns)))[k]] == n
    ensures inp.conSigns[Positions(And(EqMask(inp.conBlocks, n), IsEquality(inp.conSigns)))[k]] == Some(Eq)
    ensures Expected(inp, N, n, EqRhs)[k] ==
              FloatCell(inp.conRhs[Positions(And(EqMask(inp.conBlocks, n), IsEquality(inp.conSigns)))[k]])
  {
    SelectAt(inp.conRhs, And(EqMask(inp.conBlocks, n), IsEquality(inp.conSigns)), k);
  }

  /** Cell `k` of `dl` and of `du` belongs to the `k`-th inequality of block `n`: a
      `>=` row has its right-hand side as lower and `+inf` as upper bound; any other
      row (`<=`, another spelling, or a null sign) `-inf` as lower and its right-hand
      side as upper bound. */
  lemma InequalityRhsAt(inp: BlockInput, N: nat, n: int, k: nat)
    requires Aligned(inp) && k < Count(InequalityRows(inp, n))
    ensures |Expected(inp, N, n, IneqLower)| == Count(InequalityRows(inp, n))
    ensures |Expected(inp, N, n, IneqUpper)| == Count(InequalityRows(inp, n))
    ensures Positions(InequalityRows(inp, n))[k] < |inp.conBlocks|
    ensures inp.conBlocks[Positions(InequalityRows(inp, n))[k]] == n
    ensures inp.conSigns[Positions(InequalityRows(inp, n))[k]] != Some(Eq)
    ensures Expected(inp, N, n, IneqLower)[k] ==
              FloatCell(if inp.conSigns[Positions(InequalityRows(inp, n))[k]] == Some(Ge)
                        then inp.conRhs[Positions(InequalityRows(inp, n))[k]] else NegInf)
    ensures Expected(inp, N, n, IneqUpper)[k] ==
              FloatCell(if inp.conSigns[Positions(InequalityRows(inp, n))[k]] == Some(Ge)
                        then PosInf else inp.conRhs[Positions(InequalityRows(inp, n))[k]])
  {
    SelectAt(inp.conRhs, InequalityRows(inp, n), k);
    SelectAt(IsLowerBound(inp.conSigns), InequalityRows(inp, n), k);
  }

  /** The signs are compared literally: in a block with one row signed `"="` and one
      with a null sign, neither is an equality, so `b` is empty and both rows are
      written to `dl`/`du` as upper bounds. */
  lemma LiteralSignsRouted(r1: Float, r2: Float)
    ensures var inp := BlockInput([], [], [], [], [], [], [0, 0], [r1, r2], [Some("="), None], [], [], [], [], [], []);
      && Expected(inp, 0, 0, EqRhs) == []
      && Expected(inp, 0, 0, IneqLower) == [FloatCell(NegInf), FloatCell(NegInf)]
      && Expected(inp, 0, 0, IneqUpper) == [FloatCell(r1), FloatCell(r2)]
  {
    var inp := BlockInput([], [], [], [], [], [], [0, 0], [r1, r2], [Some("="), None], [], [], [], [], [], []);
    assert Some("=") != Some(Eq) && Some("=") != Some(Ge);
    var eq := And(EqMask(inp.conBlocks, 0), IsEquality(inp.conSigns));
    assert eq == [false, false];
    SelectNone(inp.conRhs, eq);
    var ne := InequalityRows(inp, 0);
    assert ne == [true, true];
    SelectAll(inp.conRhs, ne);
    SelectAll(IsLowerBound(inp.conSigns), ne);
    assert IsLowerBound(inp.conSigns) == [false, false];
  }

  // ---------------------------------------------------------------- terms

  /** Which terms belong in bucket `b` of block `n`, stated on the term's own block
      ids and sign. */
  predicate InBucket(inp: BlockInput, N: nat, b: TermBucket, n: int, i: int)
    requires Aligned(inp) && 0 <= i < |inp.termConBlocks|
  {
    var con := inp.termConBlocks[i];
    var v := inp.termVarBlocks[i];
    var eq := inp.termSigns[i] == Some(Eq);
    match b
    case B => con == n && v == n && eq
    case D => con == n && v == n && !eq
    case A => con == n && v == 0 && eq
    case C => con == n && v == 0 && !eq
    case BL => con == N && v == n && eq
    case DL => con == N && v == n && !eq
  }

  /** The mask of a term file selects exactly the terms of its bucket. */
  lemma BucketMaskMeans(inp: BlockInput, N: nat, b: TermBucket, n: int, i: int)
    requires Aligned(inp) && 0 <= i < |inp.termConBlocks|
    ensures BucketMask(inp, N, b, n)[i] <==> InBucket(inp, N, b, n, i)
  {
  }

  /** Cell `k` of term file `b` of block `n` is the field of the `k`-th term of that
      bucket, in input order. */
  lemma TermFileAt(inp: BlockInput, N: nat, n: int, b: TermBucket, fld: TermField, k: nat)
    requires Aligned(inp) && k < Count(BucketMask(inp, N, b, n))
    ensures |Expected(inp, N, n, TermFile(b, fld))| == Count(BucketMask(inp, N, b, n))
    ensures Positions(BucketMask(inp, N, b, n))[k] < |inp.termConBlocks|
    ensures InBucket(inp, N, b, n, Positions(BucketMask(inp, N, b, n))[k])
    ensures Expected(inp, N, n, TermFile(b, fld))[k] == TermArray(inp, fld)[Positions(BucketMask(inp, N, b, n))[k]]
  {
    SelectAt(TermArray(inp, fld), BucketMask(inp, N, b, n), k);
    BucketMaskMeans(inp, N, b, n, Positions(BucketMask(inp, N, b, n))[k]);
  }

  /** The inequality bucket paired with an equality bucket. */
  function Partner(b: TermBucket): (r: TermBucket)
    requires EqualityBucket(b)
    ensures !EqualityBucket(r)
  {
    match b
    case B => D
    case A => C
    case BL => DL
  }

  lemma PartnerMasks(inp: BlockInput, N: nat, n: int, b: TermBucket)
    requires Aligned(inp) && EqualityBucket(b)
    ensures BucketMask(inp, N, b, n) == And(CouplingMask(inp, N, b, n), IsEquality(inp.termSigns))
    ensures BucketMask(inp, N, Partner(b), n) == And(CouplingMask(inp, N, b, n), Not(IsEquality(inp.termSigns)))
  {
    assert CouplingMask(inp, N, Partner(b), n) == CouplingMask(inp, N, b, n);
  }

  /** The equality and the inequality file of a coupling together hold the masked
      terms exactly once: `|B| + |D|` is the size of the diagonal mask, and likewise
      for `A`/`C` and `BL`/`DL`. */
  lemma CouplingSplit(inp: BlockInput, N: nat, n: int, fld: TermField, b: TermBucket)
    requires Aligned(inp) && EqualityBucket(b)
    ensures |Expected(inp, N, n, TermFile(b, fld))| + |Expected(inp, N, n, TermFile(Partner(b), fld))|
            == Count(CouplingMask(inp, N, b, n))
    ensures multiset(Expected(inp, N, n, TermFile(b, fld))) + multiset(Expected(inp, N, n, TermFile(Partner(b), fld)))
            == multiset(Select(TermArray(inp, fld), CouplingMask(inp, N, b, n)))
  {
    PartnerMasks(inp, N, n, b);
    TermExpected(inp, N, n, b, fld);
    TermExpected(inp, N, n, Partner(b), fld);
    SelectSplit(TermArray(inp, fld), CouplingMask(inp, N, b, n), IsEquality(inp.termSigns));
  }

  /** In block `0` the first-stage coupling is the diagonal one: `A` repeats `B` and
      `C` repeats `D`. */
  lemma FirstBlockRepeatsDiagonal(inp: BlockInput, N: nat, fld: TermField)
    requires Aligned(inp)
    ensures Expected(inp, N, 0, TermFile(A, fld)) == Expected(inp, N, 0, TermFile(B, fld))
    ensures Expected(inp, N, 0, TermFile(C, fld)) == Expected(inp, N, 0, TermFile(D, fld))
  {
    assert CouplingMask(inp, N, A, 0) == CouplingMask(inp, N, B, 0);
  }

  /** In block `N` the last-stage coupling is the diagonal one: `BL` repeats `B` and
      `DL` repeats `D`. */
  lemma LastBlockRepeatsDiagonal(inp: BlockInput, N: nat, fld: TermField)
    requires Aligned(inp)
    ensures Expected(inp, N, N, TermFile(BL, fld)) == Expected(inp, N, N, TermFile(B, fld))
    ensures Expected(inp, N, N, TermFile(DL, fld)) == Expected(inp, N, N, TermFile(D, fld))
  {
    assert CouplingMask(inp, N, BL, N) == CouplingMask(inp, N, B, N);
  }

  // ---------------------------------------------------------------- file names

  /** No two files of a block share a name. */
  lemma SuffixInjective(f: FileName, g: FileName)
    requires Suffix(f) == Suffix(g)
    ensures f == g
  {
    SuffixLength(f);
    SuffixLength(g);
    if f.TermFile? && g.TermFile? {
      TermSuffixInjective(f.bucket, f.field, g.bucket, g.field);
    }
  }

  /** Term file names are at least four characters long, the others at most two. */
  lemma SuffixLength(f: FileName)
    ensures f.TermFile? <==> |Suffix(f)| >= 4
  {
    if f.TermFile? {
      BucketNameShape(f.bucket);
      FieldNameInjective(f.field, f.field);
    }
  }

  lemma BucketNameShape(b: TermBucket)
    ensures 1 <= |BucketName(b)| <= 2
    ensures forall i :: 0 <= i < |BucketName(b)| ==> BucketName(b)[i] != '_'
  {
  }

  lemma BucketNameInjective(b1: TermBucket, b2: TermBucket)
    requires BucketName(b1) == BucketName(b2)
    ensures b1 == b2
  {
  }

  lemma FieldNameInjective(f1: TermField, f2: TermField)
    requires FieldName(f1) == FieldName(f2)
    ensures f1 == f2 && |FieldName(f1)| >= 3
  {
  }

  /** The bucket ends at the first '_', so the bucket and field can be read back. */
  lemma TermSuffixInjective(b1: TermBucket, f1: TermField, b2: TermBucket, f2: TermField)
    requires BucketName(b1) + "_" + FieldName(f1) == BucketName(b2) + "_" + FieldName(f2)
    ensures b1 == b2 && f1 == f2
  {
    BucketNameShape(b1);
    BucketNameShape(b2);
    SplitAtUnderscore(BucketName(b1), FieldName(f1), BucketName(b2), FieldName(f2));
    BucketNameInjective(b1, b2);
    FieldNameInjective(f1, f2);
  }

  /** A word free of '_' followed by '_' and a rest: the word and the rest are determined. */
  lemma SplitAtUnderscore(s1: string, r1: string, s2: string, r2: string)
    requires s1 + "_" + r1 == s2 + "_" + r2
    requires forall i :: 0 <= i < |s1| ==> s1[i] != '_'
    requires forall i :: 0 <= i < |s2| ==> s2[i] != '_'
    ensures s1 == s2 && r1 == r2
  {
    var t := s1 + "_" + r1;
    assert t[|s1|] == '_' && t[|s2|] == '_';
    assert forall i :: 0 <= i < |s1| ==> t[i] == s1[i];
    assert forall i :: 0 <= i < |s2| ==> t[i] == s2[i];
    assert s1 == t[..|s1|] && s2 == t[..|s2|];
    assert r1 == t[|s1| + 1..] && r2 == t[|s2| + 1..];
  }

  // ---------------------------------------------------------------- the objective scatter

  /** The last assignment to a cell decides its value. */
  lemma {:induction false} ScatteredLastWrite(base: seq<Float>, idx: seq<int>, vals: seq<Float>, k: nat)
    requires |idx| == |vals| && k < |idx| && 0 <= idx[k] < |base|
    requires forall l :: k < l < |idx| ==> idx[l] != idx[k]
    ensures Scattered(base, idx, vals)[idx[k]] == vals[k]
    decreases |idx|
  {
    var last := |idx| - 1;
    if k < last {
      assert forall l :: k < l < last ==> idx[..last][l] == idx[l];
      ScatteredLastWrite(base, idx[..last], vals[..last], k);
    }
  }

  /** A cell no index names keeps its value. */
  lemma {:induction false} ScatteredUntouched(base: seq<Float>, idx: seq<int>, vals: seq<Float>, j: int)
    requires |idx| == |vals| && 0 <= j < |base|
    requires forall l :: 0 <= l < |idx| ==> idx[l] != j
    ensures Scattered(base, idx, vals)[j] == base[j]
    decreases |idx|
  {
    if idx != [] {
      var last := |idx| - 1;
      assert forall l :: 0 <= l < last ==> idx[..last][l] == idx[l];
      ScatteredUntouched(base, idx[..last], vals[..last], j);
    }
  }

  /** Without missing terms the corrected scatter is numpy's. */
  lemma {:induction false} ScatteredAgrees(base: seq<Float>, idx: seq<int>, vals: seq<Float>)
    requires |idx| == |vals|
    requires forall i :: 0 <= i < |idx| ==> 0 <= idx[i] < |base|
    ensures ScatteredAsWritten(base, idx, vals) == Some(Scattered(base, idx, vals))
    decreases |idx|
  {
    if idx != [] {
      var last := |idx| - 1;
      assert forall i :: 0 <= i < last ==> idx[..last][i] == idx[i];
      ScatteredAgrees(base, idx[..last], vals[..last]);
    }
  }

  /** A missing objective term (variable `-1`) overwrites the last variable's
      coefficient as written; the corrected scatter leaves it `0`. The two indices
      name different cells, so the order of the assignments does not matter. */
  lemma MissingTermOverwritesLast()
    ensures ScatteredAsWritten([Zero, Zero], [0, -1], [Finite(3.0), Finite(5.0)]) == Some([Finite(3.0), Finite(5.0)])
    ensures Scattered([Zero, Zero], [0, -1], [Finite(3.0), Finite(5.0)]) == [Finite(3.0), Zero]
  {
    var base := [Zero, Zero];
    var idx := [0, -1];
    var vals := [Finite(3.0), Finite(5.0)];
    assert idx[..1] == [0] && vals[..1] == [Finite(3.0)];
    assert [0][..0] == [] && [Finite(3.0)][..0] == [];
    assert ScatteredAsWritten(base, [], []) == Some(base);
    assert base[0 := Finite(3.0)] == [Finite(3.0), Zero];
    assert ScatteredAsWritten(base, [0], [Finite(3.0)]) == Some([Finite(3.0), Zero]);
    assert Wrap(-1, 2) == 1;
    assert [Finite(3.0), Zero][1 := Finite(5.0)] == [Finite(3.0), Finite(5.0)];
    assert Scattered(base, [0], [Finite(3.0)]) == [Finite(3.0), Zero];
  }

  /** A coefficient that is not a whole number, assigned last to its variable, is
      kept by the corrected scatter but stored as a different, whole number as
      written. */
  lemma FractionalCoefficientTruncated(inp: BlockInput, k: nat)
    requires Aligned(inp) && k < |inp.objVars|
    requires forall i :: 0 <= i < |inp.objVars| ==> 0 <= inp.objVars[i] < |inp.varBlocks|
    requires forall l :: k < l < |inp.objVars| ==> inp.objVars[l] != inp.objVars[k]
    requires inp.objCoeffs[k].Finite? && inp.objCoeffs[k].r.Floor as real != inp.objCoeffs[k].r
    ensures ObjectiveCoeffs(inp)[inp.objVars[k]] == inp.objCoeffs[k]
    ensures ObjectiveCoeffsAsWritten(inp).Some?
    ensures ObjectiveCoeffsAsWritten(inp).value[inp.objVars[k]].Some?
    ensures ObjectiveCoeffsAsWritten(inp).value[inp.objVars[k]].value as real != inp.objCoeffs[k].r
  {
    var base := seq(|inp.varBlocks|, _ => Zero);
    ScatteredAgrees(base, inp.objVars, inp.objCoeffs);
    ScatteredLastWrite(base, inp.objVars, inp.objCoeffs, k);
  }
}
