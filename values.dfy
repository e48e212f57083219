/** The scalar values that the writers handle. */
module Values {

  /** A float value that is not NaN (NaN is a null cell, modelled by Option.None): a
      real number or one of the two infinities, which are kept apart because the
      block writer emits them. The real is unbounded: rounding to 64 bits is not
      modelled. */
  datatype Float = Finite(r: real) | PosInf | NegInf

  /** The value a null float cell is replaced with before formatting (`fillna(0)`). */
  const Zero: Float := Finite(0.0)

  /** The sign of a constraint: the string held in the model's `sign` array. The
      writers compare it literally and write it out unchanged. */
  type Sign = string

  /** The spellings the block writer's comparisons name. */
  const Le: Sign := "<="
  const Ge: Sign := ">="
  const Eq: Sign := "=="
}
