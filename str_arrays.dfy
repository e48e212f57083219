/** The masked line assembler: elementwise string concatenation of aligned arrays
    (`join_str_arrays`), the `.where(mask, "")` mask, and the final concatenation of
    the cells in order (writing every cell to the file, or `reduce(np.sum, ...)` over
    the term axis). */
module StrArrays {
  import opened Wrappers
  import opened Masks

  /** One operand of `join_str_arrays`: a plain string, broadcast over every cell,
      or an array of strings. */
  datatype Fragment = Scalar(s: string) | Cells(cells: seq<string>)

  /** The string a fragment contributes to cell `i`. */
  function At(f: Fragment, i: nat): string
  {
    match f
    case Scalar(s) => s
    case Cells(c) => if i < |c| then c[i] else ""
  }

  /** Arrays of an aligned join all have the same length `n`. */
  predicate Conforms(f: Fragment, n: nat)
  {
    f.Cells? ==> |f.cells| == n
  }

  predicate AllConform(frags: seq<Fragment>, n: nat)
  {
    forall k :: 0 <= k < |frags| ==> Conforms(frags[k], n)
  }

  predicate AnyCells(frags: seq<Fragment>)
  {
    exists k :: 0 <= k < |frags| && frags[k].Cells?
  }

  /** `np.add(a, b, dtype=object)`, a plain string being broadcast. */
  function Add(a: Fragment, b: Fragment, n: nat): (r: Fragment)
    requires Conforms(a, n) && Conforms(b, n)
    ensures Conforms(r, n)
    ensures r.Cells? <==> a.Cells? || b.Cells?
    ensures forall i :: 0 <= i < n ==> At(r, i) == At(a, i) + At(b, i)
  {
    if a.Scalar? && b.Scalar? then Scalar(a.s + b.s)
    else Cells(seq(n, i requires 0 <= i < n => At(a, i) + At(b, i)))
  }

  /** The pieces of cell `i`, concatenated left to right. */
  function Pieces(frags: seq<Fragment>, i: nat): string
  {
    if frags == [] then "" else At(frags[0], i) + Pieces(frags[1..], i)
  }

  /** Peeling one fragment off the front of a suffix. */
  lemma PiecesStep(frags: seq<Fragment>, k: nat, i: nat)
    requires k < |frags|
    ensures Pieces(frags[k..], i) == At(frags[k], i) + Pieces(frags[k + 1..], i)
  {
    assert frags[k..][1..] == frags[k + 1..];
  }

  /** `reduce(np.add, frags, acc)`: a left fold. */
  function Reduce(acc: Fragment, frags: seq<Fragment>, n: nat): (r: Fragment)
    requires Conforms(acc, n) && AllConform(frags, n)
    ensures Conforms(r, n)
    ensures r.Cells? <==> acc.Cells? || AnyCells(frags)
    ensures forall i :: 0 <= i < n ==> At(r, i) == At(acc, i) + Pieces(frags, i)
    decreases |frags|
  {
    if frags == [] then acc
    else
      var r := Reduce(Add(acc, frags[0], n), frags[1..], n);
      assert AnyCells(frags) <==> frags[0].Cells? || AnyCells(frags[1..]) by {
        if AnyCells(frags[1..]) {
          var k :| 0 <= k < |frags[1..]| && frags[1..][k].Cells?;
          assert frags[k + 1].Cells?;
        }
        if AnyCells(frags) && !frags[0].Cells? {
          var k :| 0 <= k < |frags| && frags[k].Cells?;
          assert frags[1..][k - 1].Cells?;
        }
      }
      r
  }

  /** `join_str_arrays`: cell `i` of the result is the concatenation, left to right,
      of what every fragment contributes to cell `i`. */
  function JoinStrArrays(frags: seq<Fragment>, n: nat): (r: Fragment)
    requires AllConform(frags, n)
    ensures Conforms(r, n)
    ensures r.Cells? <==> AnyCells(frags)
    ensures forall i :: 0 <= i < n ==> At(r, i) == Pieces(frags, i)
  {
    Reduce(Scalar(""), frags, n)
  }

  /** `.where(mask, "")`: a cell whose mask is false becomes empty; the shape is kept. */
  function Where(lines: seq<string>, mask: seq<bool>): (r: seq<string>)
    requires |lines| == |mask|
    ensures |r| == |lines|
    ensures forall i :: 0 <= i < |r| ==> r[i] == if mask[i] then lines[i] else ""
  {
    if lines == [] then [] else [if mask[0] then lines[0] else ""] + Where(lines[1..], mask[1..])
  }

  /** All cells concatenated in order. */
  function Concat(lines: seq<string>): string
  {
    if lines == [] then "" else lines[0] + Concat(lines[1..])
  }

  lemma AppendAssoc(a: string, b: string, c: string)
    ensures a + b + c == a + (b + c)
  {
  }

  lemma {:induction false} ConcatAppend(a: seq<string>, b: seq<string>)
    ensures Concat(a + b) == Concat(a) + Concat(b)
  {
    if a == [] {
      assert a + b == b;
    } else {
      assert (a + b)[1..] == a[1..] + b;
      ConcatAppend(a[1..], b);
    }
  }

  /** The line of every element, concatenated in order. */
  function ConcatMap<T>(f: T -> string, xs: seq<T>): string
  {
    if xs == [] then "" else f(xs[0]) + ConcatMap(f, xs[1..])
  }

  /** An array whose cell `i` is `f(xs[i])` when `xs[i]` qualifies and empty otherwise
      concatenates to the lines of the qualifying elements alone, in order. */
  lemma {:induction false} ConcatKept<T(!new)>(xs: seq<T>, p: T -> bool, f: T -> string, lines: seq<string>)
    requires |lines| == |xs|
    requires forall i :: 0 <= i < |xs| ==> lines[i] == if p(xs[i]) then f(xs[i]) else ""
    ensures Concat(lines) == ConcatMap(f, Filter(xs, p))
  {
    if xs != [] {
      ConcatKept(xs[1..], p, f, lines[1..]);
      FilterCons(xs, p);
      if p(xs[0]) {
        assert ([xs[0]] + Filter(xs[1..], p))[1..] == Filter(xs[1..], p);
      } else {
        assert Filter(xs, p) == Filter(xs[1..], p);
      }
    }
  }

  // ---------------------------------------------------------------- object cells as written

  /** A cell of an object array as numpy holds it: a string, a float NaN (the null
      cell of a string array), or a Python integer. */
  datatype Obj = Str(s: string) | NaN | Int(i: int)

  /** `np.add` on two object cells is Python's `+`: strings concatenate, numbers add
      (NaN absorbing), and a string with anything else raises TypeError (`None`). */
  function AddObj(a: Obj, b: Obj): (r: Option<Obj>)
    ensures r.None? <==> a.Str? != b.Str?
    ensures a.Str? && b.Str? ==> r == Some(Str(a.s + b.s))
  {
    match (a, b)
    case (Str(x), Str(y)) => Some(Str(x + y))
    case (Str(_), _) => None
    case (_, Str(_)) => None
    case (Int(x), Int(y)) => Some(Int(x + y))
    case _ => Some(NaN)
  }

  predicate AllStr(xs: seq<Obj>)
  {
    forall k :: 0 <= k < |xs| ==> xs[k].Str?
  }

  /** The strings of string cells, concatenated in order. */
  function Strings(xs: seq<Obj>): string
    requires AllStr(xs)
  {
    if xs == [] then "" else xs[0].s + Strings(xs[1..])
  }

  /** String cells holding the given lines. */
  function Strs(lines: seq<string>): (r: seq<Obj>)
    ensures |r| == |lines| && AllStr(r)
    ensures forall k :: 0 <= k < |lines| ==> r[k] == Str(lines[k])
    ensures Strings(r) == Concat(lines)
  {
    if lines == [] then []
    else
      var rest := Strs(lines[1..]);
      assert ([Str(lines[0])] + rest)[1..] == rest;
      [Str(lines[0])] + rest
  }

  /** `acc + xs[0] + xs[1] + ...` evaluated left to right; the first `+` that raises
      ends it. Starting from a string, it succeeds exactly when every cell is a
      string, and then concatenates them. */
  function FoldObj(acc: Obj, xs: seq<Obj>): (r: Option<Obj>)
    ensures acc.Str? ==> (r.Some? <==> AllStr(xs))
    ensures acc.Str? && AllStr(xs) ==> r == Some(Str(acc.s + Strings(xs)))
    decreases |xs|
  {
    if xs == [] then
      assert acc.Str? ==> Strings(xs) == "" && acc.s + "" == acc.s;
      Some(acc)
    else
      var rest := xs[1..];
      assert forall k :: 0 <= k < |rest| ==> rest[k] == xs[k + 1];
      assert AllStr(xs) <==> xs[0].Str? && AllStr(rest);
      var step := AddObj(acc, xs[0]);
      if step.None? then None
      else
        assert acc.Str? && AllStr(xs) ==>
          Strings(xs) == xs[0].s + Strings(rest) && acc.s + xs[0].s + Strings(rest) == acc.s + (xs[0].s + Strings(rest));
        FoldObj(step.value, rest)
  }

  /** `np.sum` of object cells along an axis: the left fold from the first cell, and
      numpy's additive identity `0` (an integer) when the axis is empty. */
  function SumObj(xs: seq<Obj>): (r: Option<Obj>)
    ensures AllStr(xs) ==> r.Some?
    ensures xs == [] ==> r == Some(Int(0))
    ensures xs != [] && AllStr(xs) ==> r == Some(Str(Strings(xs)))
  {
    if xs == [] then Some(Int(0)) else FoldObj(xs[0], xs[1..])
  }

  /** `join_str_arrays` on object arrays, as `reduce(np.add, arraylist, "")` runs it:
      `pieces[i]` lists what each operand gives position `i` (a plain string operand
      gives it to every position). A TypeError at any position raises for the whole
      array; otherwise every position holds the concatenation of its pieces. */
  function JoinObjAsWritten(pieces: seq<seq<Obj>>): (r: Option<seq<string>>)
    ensures r.Some? <==> forall i :: 0 <= i < |pieces| ==> AllStr(pieces[i])
    ensures r.Some? ==> |r.value| == |pieces|
    ensures r.Some? ==> forall i :: 0 <= i < |pieces| ==> AllStr(pieces[i]) && r.value[i] == Strings(pieces[i])
  {
    var cells := seq(|pieces|, i requires 0 <= i < |pieces| => FoldObj(Str(""), pieces[i]));
    assert forall i :: 0 <= i < |cells| ==> (cells[i].Some? <==> AllStr(pieces[i]));
    if forall i :: 0 <= i < |cells| ==> cells[i].Some? then
      Some(seq(|cells|, i requires 0 <= i < |cells| => cells[i].value.s))
    else
      None
  }

  lemma StringsCons(x: Obj, xs: seq<Obj>)
    ensures AllStr([x] + xs) <==> x.Str? && AllStr(xs)
    ensures AllStr([x] + xs) ==> Strings([x] + xs) == x.s + Strings(xs)
  {
    var ys := [x] + xs;
    assert ys[0] == x && ys[1..] == xs;
    assert forall k :: 0 <= k < |xs| ==> ys[k + 1] == xs[k];
  }

  lemma Strings4(a: Obj, b: Obj, c: Obj, d: Obj, rest: seq<Obj>)
    ensures AllStr([a, b, c, d] + rest) <==> a.Str? && b.Str? && c.Str? && d.Str? && AllStr(rest)
    ensures AllStr([a, b, c, d] + rest) ==>
              Strings([a, b, c, d] + rest) == a.s + (b.s + (c.s + (d.s + Strings(rest))))
  {
    var s3 := [d] + rest;
    StringsCons(d, rest);
    var s2 := [c] + s3;
    StringsCons(c, s3);
    var s1 := [b] + s2;
    StringsCons(b, s2);
    StringsCons(a, s1);
    assert [a] + s1 == [a, b, c, d] + rest;
  }

  /** Eight operands of a join: all strings exactly when each one is, and then
      their concatenation. */
  lemma Strings8(a: Obj, b: Obj, c: Obj, d: Obj, e: Obj, f: Obj, g: Obj, h: Obj)
    ensures AllStr([a, b, c, d, e, f, g, h]) <==>
              a.Str? && b.Str? && c.Str? && d.Str? && e.Str? && f.Str? && g.Str? && h.Str?
    ensures AllStr([a, b, c, d, e, f, g, h]) ==>
              Strings([a, b, c, d, e, f, g, h]) == a.s + b.s + c.s + d.s + e.s + f.s + g.s + h.s
  {
    Strings4(e, f, g, h, []);
    Strings4(a, b, c, d, [e, f, g, h]);
    assert [e, f, g, h] + [] == [e, f, g, h];
    assert [a, b, c, d] + [e, f, g, h] == [a, b, c, d, e, f, g, h];
  }
}
