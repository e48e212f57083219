/** The text of an LP problem file, section by section, as `objective_to_file`,
    `constraints_to_file`, `bounds_to_file` and `binaries_to_file` build it: token
    arrays joined cell by cell, inactive cells blanked by a mask, and the cells
    written out in order. */
module LpSections {
  import opened Wrappers
  import opened Values
  import opened Masks
  import opened TextCodec
  import opened StrArrays

  /** One cell of a linear expression: a coefficient (null = absent) and the label
      of the variable it multiplies (-1 = absent). */
  datatype Term = Term(coeff: Option<Float>, variable: int)

  /** One cell of a constraint array: its label (-1 = inactive), its terms along the
      term axis, its sign and its right-hand side (both possibly null). */
  datatype Constraint = Constraint(id: int, terms: seq<Term>, sign: Option<Sign>, rhs: Option<Float>)

  /** One cell of a variable array; `binary` says whether it belongs to a binary
      variable group. */
  datatype Variable = Variable(id: int, lower: Option<Float>, upper: Option<Float>, binary: bool)

  /** The flattened model the writer reads. */
  datatype LpModel = LpModel(objective: seq<Term>, constraints: seq<Constraint>, variables: seq<Variable>)

  const ObjectiveHeader := "min\nobj:\n"
  const ConstraintsHeader := "\n\ns.t.\n\n"
  const BoundsHeader := "\nbounds\n"
  const BinariesHeader := "\nbinary\n"
  const EndMarker := "end\n"

  // ---------------------------------------------------------------- terms

  /** A term is written when its coefficient is present and it names a variable. */
  predicate ValidTerm(t: Term)
  {
    t.coeff.Some? && t.variable != -1
  }

  /** The line of one term. */
  function TermLine(floatTok: Float -> string, t: Term): string
  {
    floatTok(t.coeff.GetOr(Zero)) + " x" + IntStr(t.variable) + "\n"
  }

  function Coeffs(ts: seq<Term>): (r: seq<Option<Float>>)
    ensures |r| == |ts|
  {
    seq(|ts|, i requires 0 <= i < |ts| => ts[i].coeff)
  }

  function Vars(ts: seq<Term>): (r: seq<int>)
    ensures |r| == |ts|
  {
    seq(|ts|, i requires 0 <= i < |ts| => ts[i].variable)
  }

  /** `coeffs.notnull() & (vars != -1)` */
  function TermMask(ts: seq<Term>): (r: seq<bool>)
    ensures |r| == |ts|
  {
    seq(|ts|, i requires 0 <= i < |ts| => ts[i].coeff.Some? && ts[i].variable != -1)
  }

  /** The term lines of a term array (the objective, or the terms of one constraint):
      a valid term gives `<coefficient> x<label>\n`, any other term the empty string,
      and the array keeps its shape. */
  function TermLines(floatTok: Float -> string, ts: seq<Term>): (r: seq<string>)
    ensures |r| == |ts|
    ensures forall i :: 0 <= i < |ts| ==>
      r[i] == if ValidTerm(ts[i]) then floatTok(ts[i].coeff.value) + " x" + IntStr(ts[i].variable) + "\n" else ""
  {
    TermJoin(floatTok, ts);
    Where(JoinStrArrays(TermFrags(floatTok, ts), |ts|).cells, TermMask(ts))
  }

  /** `[to_float_str(coeffs), " x", to_int_str(vars), "\n"]` */
  function TermFrags(floatTok: Float -> string, ts: seq<Term>): (r: seq<Fragment>)
    ensures AllConform(r, |ts|)
  {
    [Cells(ToFloatStr(floatTok, Coeffs(ts))), Scalar(" x"), Cells(ToIntStr(Vars(ts))), Scalar("\n")]
  }

  lemma TermJoin(floatTok: Float -> string, ts: seq<Term>)
    ensures JoinStrArrays(TermFrags(floatTok, ts), |ts|).Cells?
    ensures forall i :: 0 <= i < |ts| ==> JoinStrArrays(TermFrags(floatTok, ts), |ts|).cells[i] == TermLine(floatTok, ts[i])
  {
    assert TermFrags(floatTok, ts)[0].Cells?;
    forall i | 0 <= i < |ts| ensures JoinStrArrays(TermFrags(floatTok, ts), |ts|).cells[i] == TermLine(floatTok, ts[i]) {
      TermJoinAt(floatTok, ts, i);
    }
  }

  lemma TermJoinAt(floatTok: Float -> string, ts: seq<Term>, i: nat)
    requires i < |ts|
    ensures Pieces(TermFrags(floatTok, ts), i) == TermLine(floatTok, ts[i])
  {
    var frags := TermFrags(floatTok, ts);
    Pieces4(frags, i);
    assert At(frags[0], i) == floatTok(ts[i].coeff.GetOr(Zero));
    assert At(frags[2], i) == IntStr(ts[i].variable);
  }

  lemma Pieces4(frags: seq<Fragment>, i: nat)
    requires |frags| == 4
    ensures Pieces(frags, i) == At(frags[0], i) + At(frags[1], i) + At(frags[2], i) + At(frags[3], i)
  {
    assert frags[0..] == frags;
    PiecesStep(frags, 0, i);
    PiecesStep(frags, 1, i);
    PiecesStep(frags, 2, i);
    PiecesStep(frags, 3, i);
  }

  /** The valid terms, in term order. */
  function ValidTerms(ts: seq<Term>): (r: seq<Term>)
    ensures forall t :: t in r <==> t in ts && ValidTerm(t)
  {
    Filter(ts, ValidTerm)
  }

  function TermLineOf(floatTok: Float -> string): Term -> string
  {
    t => TermLine(floatTok, t)
  }

  /** The lines of the given terms, concatenated in order. */
  function TermsText(floatTok: Float -> string, ts: seq<Term>): string
  {
    ConcatMap(TermLineOf(floatTok), ts)
  }

  /** Blanking and concatenating the term lines gives the lines of the valid terms
      alone, in term order (the `.where(nonnans, "")` and `reduce(np.sum, ...)` of the
      constraint left-hand side, and the body of the objective section). */
  lemma TermLinesText(floatTok: Float -> string, ts: seq<Term>)
    ensures Concat(TermLines(floatTok, ts)) == TermsText(floatTok, ValidTerms(ts))
  {
    ConcatKept(ts, ValidTerm, TermLineOf(floatTok), TermLines(floatTok, ts));
  }

  // ---------------------------------------------------------------- constraints

  /** `nonnans.any(term_names)` */
  predicate AnyTrue(m: seq<bool>)
  {
    exists j :: 0 <= j < |m| && m[j]
  }

  predicate HasValidTerm(c: Constraint)
  {
    exists j :: 0 <= j < |c.terms| && ValidTerm(c.terms[j])
  }

  /** A constraint is written when it has a valid term, an active label, a sign and a
      right-hand side. */
  predicate Emitted(c: Constraint)
  {
    HasValidTerm(c) && c.id != -1 && c.sign.Some? && c.rhs.Some?
  }

  function ConLabels(cs: seq<Constraint>): (r: seq<int>)
    ensures |r| == |cs|
  {
    seq(|cs|, i requires 0 <= i < |cs| => cs[i].id)
  }

  function Rhss(cs: seq<Constraint>): (r: seq<Option<Float>>)
    ensures |r| == |cs|
  {
    seq(|cs|, i requires 0 <= i < |cs| => cs[i].rhs)
  }

  /** The sign token of a constraint in the corrected join: a null sign contributes
      nothing (ConstraintBlocksAsWritten models the raw NaN cell instead). */
  function SignToken(s: Option<Sign>): string
  {
    if s.Some? then s.value else ""
  }

  function SignTokens(cs: seq<Constraint>): (r: seq<string>)
    ensures |r| == |cs|
  {
    seq(|cs|, i requires 0 <= i < |cs| => SignToken(cs[i].sign))
  }

  /** The left-hand side of each constraint in the corrected join: its term lines
      concatenated, the empty string when it has no term (LhsObj models the `0` that
      `np.sum` gives instead). */
  function LhsStrs(floatTok: Float -> string, cs: seq<Constraint>): (r: seq<string>)
    ensures |r| == |cs|
  {
    seq(|cs|, i requires 0 <= i < |cs| => Concat(TermLines(floatTok, cs[i].terms)))
  }

  function EmittedMask(cs: seq<Constraint>): (r: seq<bool>)
    ensures |r| == |cs|
  {
    seq(|cs|, i requires 0 <= i < |cs| =>
      AnyTrue(TermMask(cs[i].terms)) && cs[i].id != -1 && cs[i].sign.Some? && cs[i].rhs.Some?)
  }

  /** The block of one constraint. */
  function ConstraintBlock(floatTok: Float -> string, c: Constraint): string
  {
    "c" + IntStr(c.id) + ": \n" + TermsText(floatTok, ValidTerms(c.terms))
      + SignToken(c.sign) + "\n" + floatTok(c.rhs.GetOr(Zero)) + "\n\n"
  }

  /** The constraint blocks: an emitted constraint gives
      `c<label>: \n` + the lines of its valid terms in term order + `<sign>\n<rhs>\n\n`,
      any other constraint the empty string. */
  function ConstraintBlocks(floatTok: Float -> string, cs: seq<Constraint>): (r: seq<string>)
    ensures |r| == |cs|
    ensures forall i :: 0 <= i < |cs| ==>
      r[i] == if Emitted(cs[i])
              then "c" + IntStr(cs[i].id) + ": \n" + TermsText(floatTok, ValidTerms(cs[i].terms))
                   + cs[i].sign.value + "\n" + floatTok(cs[i].rhs.value) + "\n\n"
              else ""
  {
    ConstraintJoin(floatTok, cs);
    EmittedMaskMeans(cs);
    Where(JoinStrArrays(ConstraintFrags(floatTok, cs), |cs|).cells, EmittedMask(cs))
  }

  /** `["c", to_int_str(labels), ": \n", lhs, sign, "\n", to_float_str(rhs), "\n\n"]` */
  function ConstraintFrags(floatTok: Float -> string, cs: seq<Constraint>): (r: seq<Fragment>)
    ensures AllConform(r, |cs|)
  {
    [Scalar("c"), Cells(ToIntStr(ConLabels(cs))), Scalar(": \n"), Cells(LhsStrs(floatTok, cs)),
     Cells(SignTokens(cs)), Scalar("\n"), Cells(ToFloatStr(floatTok, Rhss(cs))), Scalar("\n\n")]
  }

  lemma ConstraintJoin(floatTok: Float -> string, cs: seq<Constraint>)
    ensures JoinStrArrays(ConstraintFrags(floatTok, cs), |cs|).Cells?
    ensures forall i :: 0 <= i < |cs| ==>
      JoinStrArrays(ConstraintFrags(floatTok, cs), |cs|).cells[i] == ConstraintBlock(floatTok, cs[i])
  {
    assert ConstraintFrags(floatTok, cs)[1].Cells?;
    forall i | 0 <= i < |cs|
      ensures JoinStrArrays(ConstraintFrags(floatTok, cs), |cs|).cells[i] == ConstraintBlock(floatTok, cs[i])
    {
      ConstraintJoinAt(floatTok, cs, i);
    }
  }

  lemma ConstraintJoinAt(floatTok: Float -> string, cs: seq<Constraint>, i: nat)
    requires i < |cs|
    ensures Pieces(ConstraintFrags(floatTok, cs), i) == ConstraintBlock(floatTok, cs[i])
  {
    var frags := ConstraintFrags(floatTok, cs);
    Pieces8(frags, i);
    TermLinesText(floatTok, cs[i].terms);
    assert At(frags[1], i) == IntStr(cs[i].id);
    assert At(frags[3], i) == TermsText(floatTok, ValidTerms(cs[i].terms));
    assert At(frags[4], i) == SignToken(cs[i].sign);
    assert At(frags[6], i) == floatTok(cs[i].rhs.GetOr(Zero));
  }

  lemma EmittedMaskMeans(cs: seq<Constraint>)
    ensures forall i :: 0 <= i < |cs| ==> EmittedMask(cs)[i] == Emitted(cs[i])
  {
    forall i | 0 <= i < |cs| ensures EmittedMask(cs)[i] == Emitted(cs[i]) {
      var tm := TermMask(cs[i].terms);
      if AnyTrue(tm) {
        var j :| 0 <= j < |tm| && tm[j];
        assert ValidTerm(cs[i].terms[j]);
      }
      if HasValidTerm(cs[i]) {
        var j :| 0 <= j < |cs[i].terms| && ValidTerm(cs[i].terms[j]);
        assert tm[j];
      }
    }
  }

  lemma Pieces8(frags: seq<Fragment>, i: nat)
    requires |frags| == 8
    ensures Pieces(frags, i) == At(frags[0], i) + At(frags[1], i) + At(frags[2], i) + At(frags[3], i)
                              + At(frags[4], i) + At(frags[5], i) + At(frags[6], i) + At(frags[7], i)
  {
    assert frags[0..] == frags;
    PiecesStep(frags, 0, i);
    PiecesStep(frags, 1, i);
    PiecesStep(frags, 2, i);
    PiecesStep(frags, 3, i);
    PiecesStep(frags, 4, i);
    PiecesStep(frags, 5, i);
    PiecesStep(frags, 6, i);
    PiecesStep(frags, 7, i);
  }

  // ---------------------------------------------------------------- bounds and binaries

  /** `m.variables[m._non_binary_variables]`, in order. */
  function NonBinary(vs: seq<Variable>): (r: seq<Variable>)
    ensures forall v :: v in r <==> v in vs && !v.binary
  {
    Filter(vs, IsContinuous)
  }

  predicate IsContinuous(v: Variable)
  {
    !v.binary
  }

  predicate IsBinary(v: Variable)
  {
    v.binary
  }

  /** `m.binaries`, in order. */
  function Binaries(vs: seq<Variable>): (r: seq<Variable>)
    ensures forall v :: v in r <==> v in vs && v.binary
  {
    Filter(vs, IsBinary)
  }

  function VarLabels(vs: seq<Variable>): (r: seq<int>)
    ensures |r| == |vs|
  {
    seq(|vs|, i requires 0 <= i < |vs| => vs[i].id)
  }

  function Lowers(vs: seq<Variable>): (r: seq<Option<Float>>)
    ensures |r| == |vs|
  {
    seq(|vs|, i requires 0 <= i < |vs| => vs[i].lower)
  }

  function Uppers(vs: seq<Variable>): (r: seq<Option<Float>>)
    ensures |r| == |vs|
  {
    seq(|vs|, i requires 0 <= i < |vs| => vs[i].upper)
  }

  /** A variable gets a bounds line when both bounds are present and its label is active. */
  predicate Bounded(v: Variable)
  {
    v.lower.Some? && v.upper.Some? && v.id != -1
  }

  function BoundLine(floatTok: Float -> string, v: Variable): string
  {
    floatTok(v.lower.GetOr(Zero)) + " <= x" + IntStr(v.id) + " <= " + floatTok(v.upper.GetOr(Zero)) + "\n"
  }

  /** The bounds lines: `<lower> <= x<label> <= <upper>\n` for a bounded variable, the
      empty string otherwise. */
  function BoundsLines(floatTok: Float -> string, vs: seq<Variable>): (r: seq<string>)
    ensures |r| == |vs|
    ensures forall i :: 0 <= i < |vs| ==>
      r[i] == if Bounded(vs[i])
              then floatTok(vs[i].lower.value) + " <= x" + IntStr(vs[i].id) + " <= " + floatTok(vs[i].upper.value) + "\n"
              else ""
  {
    BoundsJoin(floatTok, vs);
    Where(JoinStrArrays(BoundsFrags(floatTok, vs), |vs|).cells, BoundedMask(vs))
  }

  /** `[to_float_str(lower), " <= x", to_int_str(labels), " <= ", to_float_str(upper), "\n"]` */
  function BoundsFrags(floatTok: Float -> string, vs: seq<Variable>): (r: seq<Fragment>)
    ensures AllConform(r, |vs|)
  {
    [Cells(ToFloatStr(floatTok, Lowers(vs))), Scalar(" <= x"), Cells(ToIntStr(VarLabels(vs))),
     Scalar(" <= "), Cells(ToFloatStr(floatTok, Uppers(vs))), Scalar("\n")]
  }

  /** `lower.notnull() & upper.notnull() & (labels != -1)` */
  function BoundedMask(vs: seq<Variable>): (r: seq<bool>)
    ensures |r| == |vs|
    ensures forall i :: 0 <= i < |vs| ==> r[i] == Bounded(vs[i])
  {
    seq(|vs|, i requires 0 <= i < |vs| => vs[i].lower.Some? && vs[i].upper.Some? && vs[i].id != -1)
  }

  lemma BoundsJoin(floatTok: Float -> string, vs: seq<Variable>)
    ensures JoinStrArrays(BoundsFrags(floatTok, vs), |vs|).Cells?
    ensures forall i :: 0 <= i < |vs| ==> JoinStrArrays(BoundsFrags(floatTok, vs), |vs|).cells[i] == BoundLine(floatTok, vs[i])
  {
    assert BoundsFrags(floatTok, vs)[0].Cells?;
    forall i | 0 <= i < |vs| ensures JoinStrArrays(BoundsFrags(floatTok, vs), |vs|).cells[i] == BoundLine(floatTok, vs[i]) {
      BoundsJoinAt(floatTok, vs, i);
    }
  }

  lemma BoundsJoinAt(floatTok: Float -> string, vs: seq<Variable>, i: nat)
    requires i < |vs|
    ensures Pieces(BoundsFrags(floatTok, vs), i) == BoundLine(floatTok, vs[i])
  {
    var frags := BoundsFrags(floatTok, vs);
    Pieces6(frags, i);
    assert At(frags[0], i) == floatTok(vs[i].lower.GetOr(Zero));
    assert At(frags[2], i) == IntStr(vs[i].id);
    assert At(frags[4], i) == floatTok(vs[i].upper.GetOr(Zero));
  }

  lemma Pieces6(frags: seq<Fragment>, i: nat)
    requires |frags| == 6
    ensures Pieces(frags, i) == At(frags[0], i) + At(frags[1], i) + At(frags[2], i) + At(frags[3], i)
                              + At(frags[4], i) + At(frags[5], i)
  {
    assert frags[0..] == frags;
    PiecesStep(frags, 0, i);
    PiecesStep(frags, 1, i);
    PiecesStep(frags, 2, i);
    PiecesStep(frags, 3, i);
    PiecesStep(frags, 4, i);
    PiecesStep(frags, 5, i);
  }

  /** The binaries lines: `x<label>\n` for an active label, the empty string otherwise. */
  function BinaryLines(vs: seq<Variable>): (r: seq<string>)
    ensures |r| == |vs|
    ensures forall i :: 0 <= i < |vs| ==> r[i] == if vs[i].id != -1 then "x" + IntStr(vs[i].id) + "\n" else ""
  {
    BinaryJoin(vs);
    Where(JoinStrArrays(BinaryFrags(vs), |vs|).cells, ActiveMask(vs))
  }

  /** `["x", to_int_str(labels), "\n"]` */
  function BinaryFrags(vs: seq<Variable>): (r: seq<Fragment>)
    ensures AllConform(r, |vs|)
  {
    [Scalar("x"), Cells(ToIntStr(VarLabels(vs))), Scalar("\n")]
  }

  /** `labels != -1` */
  function ActiveMask(vs: seq<Variable>): (r: seq<bool>)
    ensures |r| == |vs|
    ensures forall i :: 0 <= i < |vs| ==> r[i] == (vs[i].id != -1)
  {
    seq(|vs|, i requires 0 <= i < |vs| => vs[i].id != -1)
  }

  lemma BinaryJoin(vs: seq<Variable>)
    ensures JoinStrArrays(BinaryFrags(vs), |vs|).Cells?
    ensures forall i :: 0 <= i < |vs| ==> JoinStrArrays(BinaryFrags(vs), |vs|).cells[i] == "x" + IntStr(vs[i].id) + "\n"
  {
    assert BinaryFrags(vs)[1].Cells?;
    forall i | 0 <= i < |vs| ensures JoinStrArrays(BinaryFrags(vs), |vs|).cells[i] == "x" + IntStr(vs[i].id) + "\n" {
      BinaryJoinAt(vs, i);
    }
  }

  lemma BinaryJoinAt(vs: seq<Variable>, i: nat)
    requires i < |vs|
    ensures Pieces(BinaryFrags(vs), i) == "x" + IntStr(vs[i].id) + "\n"
  {
    var frags := BinaryFrags(vs);
    assert frags[0..] == frags;
    PiecesStep(frags, 0, i);
    PiecesStep(frags, 1, i);
    PiecesStep(frags, 2, i);
    assert At(frags[1], i) == IntStr(vs[i].id);
  }

  // ---------------------------------------------------------------- the file

  function ObjectiveSection(floatTok: Float -> string, obj: seq<Term>): string
  {
    ObjectiveHeader + Concat(TermLines(floatTok, obj))
  }

  function ConstraintsSection(floatTok: Float -> string, cs: seq<Constraint>): string
  {
    ConstraintsHeader + Concat(ConstraintBlocks(floatTok, cs))
  }

  function BoundsSection(floatTok: Float -> string, vs: seq<Variable>): string
  {
    BoundsHeader + Concat(BoundsLines(floatTok, NonBinary(vs)))
  }

  function BinariesSection(vs: seq<Variable>): string
  {
    BinariesHeader + Concat(BinaryLines(Binaries(vs)))
  }

  /** The whole problem file, its sections in the order `to_file` writes them. */
  function LpText(floatTok: Float -> string, m: LpModel): string
  {
    ObjectiveSection(floatTok, m.objective) + ConstraintsSection(floatTok, m.constraints)
      + BoundsSection(floatTok, m.variables) + BinariesSection(m.variables) + EndMarker
  }

  // ---------------------------------------------------------------- what the sections hold

  function BlockOf(floatTok: Float -> string): Constraint -> string
  {
    c => ConstraintBlock(floatTok, c)
  }

  function BoundLineOf(floatTok: Float -> string): Variable -> string
  {
    v => BoundLine(floatTok, v)
  }

  function BinaryLine(v: Variable): string
  {
    "x" + IntStr(v.id) + "\n"
  }

  predicate Active(v: Variable)
  {
    v.id != -1
  }

  /** The constraints section holds the blocks of the emitted constraints only, in
      array order. */
  lemma ConstraintBlocksText(floatTok: Float -> string, cs: seq<Constraint>)
    ensures Concat(ConstraintBlocks(floatTok, cs)) == ConcatMap(BlockOf(floatTok), Filter(cs, Emitted))
  {
    ConcatKept(cs, Emitted, BlockOf(floatTok), ConstraintBlocks(floatTok, cs));
  }

  /** The bounds lines hold the bounded variables only, in array order. */
  lemma BoundsLinesText(floatTok: Float -> string, vs: seq<Variable>)
    ensures Concat(BoundsLines(floatTok, vs)) == ConcatMap(BoundLineOf(floatTok), Filter(vs, Bounded))
  {
    ConcatKept(vs, Bounded, BoundLineOf(floatTok), BoundsLines(floatTok, vs));
  }

  /** The binaries lines hold the active variables only, in array order. */
  lemma BinaryLinesText(vs: seq<Variable>)
    ensures Concat(BinaryLines(vs)) == ConcatMap(BinaryLine, Filter(vs, Active))
  {
    ConcatKept(vs, Active, BinaryLine, BinaryLines(vs));
  }

  /** The layout of the problem file: five fixed headers in a fixed order, and between
      them the lines of exactly the valid objective terms, the emitted constraints,
      the bounded non-binary variables and the active binary variables, each in
      array order. No binary variable is ever given bounds, and every variable of the
      binaries section is binary. */
  lemma LpTextLayout(floatTok: Float -> string, m: LpModel)
    ensures LpText(floatTok, m) ==
      ObjectiveHeader + TermsText(floatTok, ValidTerms(m.objective))
      + ConstraintsHeader + ConcatMap(BlockOf(floatTok), Filter(m.constraints, Emitted))
      + BoundsHeader + ConcatMap(BoundLineOf(floatTok), Filter(NonBinary(m.variables), Bounded))
      + BinariesHeader + ConcatMap(BinaryLine, Filter(Binaries(m.variables), Active))
      + EndMarker
  {
    ObjectiveSectionText(floatTok, m.objective);
    ConstraintsSectionText(floatTok, m.constraints);
    BoundsSectionText(floatTok, m.variables);
    BinariesSectionText(m.variables);
    Regroup(ObjectiveSection(floatTok, m.objective), ConstraintsSection(floatTok, m.constraints),
            BoundsSection(floatTok, m.variables), BinariesSection(m.variables),
            ObjectiveHeader, TermsText(floatTok, ValidTerms(m.objective)),
            ConstraintsHeader, ConcatMap(BlockOf(floatTok), Filter(m.constraints, Emitted)),
            BoundsHeader, ConcatMap(BoundLineOf(floatTok), Filter(NonBinary(m.variables), Bounded)),
            BinariesHeader, ConcatMap(BinaryLine, Filter(Binaries(m.variables), Active)), EndMarker);
  }

  lemma Regroup(s1: string, s2: string, s3: string, s4: string,
                h1: string, b1: string, h2: string, b2: string, h3: string, b3: string, h4: string, b4: string, e: string)
    requires s1 == h1 + b1 && s2 == h2 + b2 && s3 == h3 + b3 && s4 == h4 + b4
    ensures s1 + s2 + s3 + s4 + e == h1 + b1 + h2 + b2 + h3 + b3 + h4 + b4 + e
  {
  }

  lemma ObjectiveSectionText(floatTok: Float -> string, obj: seq<Term>)
    ensures ObjectiveSection(floatTok, obj) == ObjectiveHeader + TermsText(floatTok, ValidTerms(obj))
  {
    TermLinesText(floatTok, obj);
  }

  lemma ConstraintsSectionText(floatTok: Float -> string, cs: seq<Constraint>)
    ensures ConstraintsSection(floatTok, cs) == ConstraintsHeader + ConcatMap(BlockOf(floatTok), Filter(cs, Emitted))
  {
    ConstraintBlocksText(floatTok, cs);
  }

  lemma BoundsSectionText(floatTok: Float -> string, vs: seq<Variable>)
    ensures BoundsSection(floatTok, vs) == BoundsHeader + ConcatMap(BoundLineOf(floatTok), Filter(NonBinary(vs), Bounded))
  {
    BoundsLinesText(floatTok, NonBinary(vs));
  }

  lemma BinariesSectionText(vs: seq<Variable>)
    ensures BinariesSection(vs) == BinariesHeader + ConcatMap(BinaryLine, Filter(Binaries(vs), Active))
  {
    BinaryLinesText(Binaries(vs));
  }

  /** A model in which nothing is active writes the five headers alone. */
  lemma EmptyModelText(floatTok: Float -> string, m: LpModel)
    requires forall i :: 0 <= i < |m.objective| ==> !ValidTerm(m.objective[i])
    requires forall i :: 0 <= i < |m.constraints| ==> !Emitted(m.constraints[i])
    requires forall i :: 0 <= i < |m.variables| ==> m.variables[i].id == -1
    ensures LpText(floatTok, m) == ObjectiveHeader + ConstraintsHeader + BoundsHeader + BinariesHeader + EndMarker
  {
    LpTextLayout(floatTok, m);
    FilterNone(m.objective, ValidTerm);
    FilterNone(m.constraints, Emitted);
    var nb := NonBinary(m.variables);
    var bs := Binaries(m.variables);
    NoneActive(m.variables);
    DropEmpty(LpText(floatTok, m), ObjectiveHeader, TermsText(floatTok, ValidTerms(m.objective)),
              ConstraintsHeader, ConcatMap(BlockOf(floatTok), Filter(m.constraints, Emitted)),
              BoundsHeader, ConcatMap(BoundLineOf(floatTok), Filter(nb, Bounded)),
              BinariesHeader, ConcatMap(BinaryLine, Filter(bs, Active)), EndMarker);
  }

  lemma NoneActive(vs: seq<Variable>)
    requires forall i :: 0 <= i < |vs| ==> vs[i].id == -1
    ensures Filter(NonBinary(vs), Bounded) == [] && Filter(Binaries(vs), Active) == []
  {
    var nb := NonBinary(vs);
    forall i | 0 <= i < |nb| ensures !Bounded(nb[i]) {
      assert nb[i] in nb;
    }
    FilterNone(nb, Bounded);
    var bs := Binaries(vs);
    forall i | 0 <= i < |bs| ensures !Active(bs[i]) {
      assert bs[i] in bs;
    }
    FilterNone(bs, Active);
  }

  lemma DropEmpty(t: string, h1: string, b1: string, h2: string, b2: string, h3: string, b3: string,
                  h4: string, b4: string, e: string)
    requires t == h1 + b1 + h2 + b2 + h3 + b3 + h4 + b4 + e
    requires b1 == "" && b2 == "" && b3 == "" && b4 == ""
    ensures t == h1 + h2 + h3 + h4 + e
  {
  }

  /** The block of `x0 >= 0` with unit coefficient. */
  lemma UnitLowerBoundBlock(floatTok: Float -> string)
    ensures ConstraintBlocks(floatTok, [Constraint(0, [Term(Some(Finite(1.0)), 0)], Some(Ge), Some(Zero))])
         == ["c0: \n" + floatTok(Finite(1.0)) + " x0\n" + ">=\n" + floatTok(Zero) + "\n\n"]
  {
    var t := Term(Some(Finite(1.0)), 0);
    var c := Constraint(0, [t], Some(Ge), Some(Zero));
    UnitTermText(floatTok, t);
    assert Emitted(c) && IntStr(0) == "0";
    var r := ConstraintBlocks(floatTok, [c]);
    assert r[0] == "c" + "0" + ": \n" + (floatTok(Finite(1.0)) + " x0\n") + ">=" + "\n" + floatTok(Zero) + "\n\n";
    Glue(floatTok(Finite(1.0)), floatTok(Zero));
    assert [r[0]] == r;
  }

  lemma UnitTermText(floatTok: Float -> string, t: Term)
    requires t == Term(Some(Finite(1.0)), 0)
    ensures TermsText(floatTok, ValidTerms([t])) == floatTok(Finite(1.0)) + " x0\n"
  {
    assert ValidTerm(t);
    assert IntStr(0) == "0";
    FilterCons([t], ValidTerm);
    assert ValidTerms([t]) == [t];
    assert [t][1..] == [];
    assert TermsText(floatTok, [t]) == TermLine(floatTok, t) + ConcatMap(TermLineOf(floatTok), []);
  }

  lemma Glue(x: string, y: string)
    ensures "c" + "0" + ": \n" + (x + " x0\n") + ">=" + "\n" + y + "\n\n" == "c0: \n" + x + " x0\n" + ">=\n" + y + "\n\n"
  {
  }

  // ---------------------------------------------------------------- finding: the join raises

  /** `sign` as it enters the join: the sign string, or the NaN of a null cell. */
  function SignObj(s: Option<Sign>): (r: Obj)
    ensures r.Str? <==> s.Some?
    ensures s.Some? ==> r == Str(s.value)
  {
    if s.Some? then Str(s.value) else NaN
  }

  /** `lhs_str` of one constraint as written: `np.sum` over the term axis of its masked
      term lines. With no term at all this is numpy's identity `0`, not a string. */
  function LhsObj(floatTok: Float -> string, c: Constraint): (r: Obj)
    ensures r.Str? <==> c.terms != []
    ensures c.terms != [] ==> r == Str(TermsText(floatTok, ValidTerms(c.terms)))
  {
    var lines := TermLines(floatTok, c.terms);
    TermLinesText(floatTok, c.terms);
    var sum := SumObj(Strs(lines));
    sum.value
  }

  /** What the eight operands of the constraint join give one constraint as written:
      the sign without `fillna`, and the term sum. */
  function ConstraintCellsAsWritten(floatTok: Float -> string, c: Constraint): seq<Obj>
  {
    [Str("c"), Str(IntStr(c.id)), Str(": \n"), LhsObj(floatTok, c), SignObj(c.sign),
     Str("\n"), Str(floatTok(c.rhs.GetOr(Zero))), Str("\n\n")]
  }

  /** The eight cells are all strings exactly when the sign is present and the term
      axis is not empty, and then they concatenate to the constraint's block. */
  lemma ConstraintCellsMeans(floatTok: Float -> string, c: Constraint)
    ensures AllStr(ConstraintCellsAsWritten(floatTok, c)) <==> c.sign.Some? && c.terms != []
    ensures AllStr(ConstraintCellsAsWritten(floatTok, c)) ==>
              Strings(ConstraintCellsAsWritten(floatTok, c)) == ConstraintBlock(floatTok, c)
  {
    var lhs, sign := LhsObj(floatTok, c), SignObj(c.sign);
    var id, rhs := IntStr(c.id), floatTok(c.rhs.GetOr(Zero));
    Strings8(Str("c"), Str(id), Str(": \n"), lhs, sign, Str("\n"), Str(rhs), Str("\n\n"));
  }

  /** `constraints_to_file` as written: the cells of the join are object cells, so a
      null sign (NaN) or an empty term sum (`0`) makes `np.add` raise, for the whole
      array, before the mask can blank the cell. `None` is that error; otherwise the
      masked result is the corrected one. */
  function ConstraintBlocksAsWritten(floatTok: Float -> string, cs: seq<Constraint>): (r: Option<seq<string>>)
    ensures r.None? <==> exists i :: 0 <= i < |cs| && (cs[i].sign.None? || cs[i].terms == [])
    ensures r.Some? ==> r.value == ConstraintBlocks(floatTok, cs)
  {
    var pieces := seq(|cs|, i requires 0 <= i < |cs| => ConstraintCellsAsWritten(floatTok, cs[i]));
    var joined := JoinObjAsWritten(pieces);
    AsWrittenCells(floatTok, cs, pieces);
    if joined.None? then None
    else
      MaskedAsWritten(floatTok, cs, joined.value);
      Some(Where(joined.value, EmittedMask(cs)))
  }

  /** Once every emitted constraint's cell holds its block, the mask gives the
      corrected blocks, whatever the other cells hold. */
  lemma MaskedAsWritten(floatTok: Float -> string, cs: seq<Constraint>, lines: seq<string>)
    requires |lines| == |cs|
    requires forall i :: 0 <= i < |cs| && Emitted(cs[i]) ==> lines[i] == ConstraintBlock(floatTok, cs[i])
    ensures Where(lines, EmittedMask(cs)) == ConstraintBlocks(floatTok, cs)
  {
    EmittedMaskMeans(cs);
    var r, blocks := Where(lines, EmittedMask(cs)), ConstraintBlocks(floatTok, cs);
    forall i | 0 <= i < |cs| ensures r[i] == blocks[i] {
      assert r[i] == if EmittedMask(cs)[i] then lines[i] else "";
      assert EmittedMask(cs)[i] == Emitted(cs[i]);
      if Emitted(cs[i]) {
        EmittedBlock(floatTok, cs[i]);
      }
    }
  }

  lemma EmittedBlock(floatTok: Float -> string, c: Constraint)
    requires Emitted(c)
    ensures ConstraintBlock(floatTok, c) == "c" + IntStr(c.id) + ": \n" + TermsText(floatTok, ValidTerms(c.terms))
                                           + c.sign.value + "\n" + floatTok(c.rhs.value) + "\n\n"
  {
  }

  lemma AsWrittenCells(floatTok: Float -> string, cs: seq<Constraint>, pieces: seq<seq<Obj>>)
    requires |pieces| == |cs| && forall i :: 0 <= i < |cs| ==> pieces[i] == ConstraintCellsAsWritten(floatTok, cs[i])
    ensures forall i :: 0 <= i < |cs| ==> (AllStr(pieces[i]) <==> cs[i].sign.Some? && cs[i].terms != [])
    ensures forall i :: 0 <= i < |cs| && AllStr(pieces[i]) ==> Strings(pieces[i]) == ConstraintBlock(floatTok, cs[i])
  {
    forall i | 0 <= i < |cs|
      ensures AllStr(pieces[i]) <==> cs[i].sign.Some? && cs[i].terms != []
      ensures AllStr(pieces[i]) ==> Strings(pieces[i]) == ConstraintBlock(floatTok, cs[i])
    {
      ConstraintCellsMeans(floatTok, cs[i]);
    }
  }

  /** A single constraint with a null sign: the mask says it is to be left out, yet
      the code as written raises instead of writing nothing. */
  lemma NullSignFails(floatTok: Float -> string)
    ensures ConstraintBlocksAsWritten(floatTok, [Constraint(0, [Term(Some(Finite(1.0)), 0)], None, Some(Zero))]).None?
    ensures ConstraintBlocks(floatTok, [Constraint(0, [Term(Some(Finite(1.0)), 0)], None, Some(Zero))]) == [""]
  {
    var cs := [Constraint(0, [Term(Some(Finite(1.0)), 0)], None, Some(Zero))];
    assert cs[0].sign.None?;
  }

  /** A constraint with an empty term axis: `np.sum` gives `0`, and adding it to a
      string raises, where the mask would have written nothing. */
  lemma EmptyTermsFail(floatTok: Float -> string)
    ensures ConstraintBlocksAsWritten(floatTok, [Constraint(0, [], Some(Eq), Some(Zero))]).None?
    ensures ConstraintBlocks(floatTok, [Constraint(0, [], Some(Eq), Some(Zero))]) == [""]
  {
    var cs := [Constraint(0, [], Some(Eq), Some(Zero))];
    assert cs[0].terms == [];
    assert !HasValidTerm(cs[0]);
  }
}
