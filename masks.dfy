/** Boolean masks over parallel arrays and numpy's boolean indexing `arr[mask]`. */
module Masks {

  /** Number of true cells of a mask. */
  function Count(mask: seq<bool>): (c: nat)
    ensures c <= |mask|
  {
    if mask == [] then 0 else (if mask[0] then 1 else 0) + Count(mask[1..])
  }

  /** `xs[mask]`: the cells of `xs` whose mask is true, in their original order. */
  function Select<T>(xs: seq<T>, mask: seq<bool>): (r: seq<T>)
    requires |xs| == |mask|
    ensures |r| == Count(mask)
  {
    if xs == [] then []
    else (if mask[0] then [xs[0]] else []) + Select(xs[1..], mask[1..])
  }

  /** The positions (counted from `offset`) of the true cells of `mask`, in increasing
      order; PositionsAt and PositionsIncrease state this. */
  function PositionsFrom(mask: seq<bool>, offset: nat): (r: seq<nat>)
    ensures |r| == Count(mask)
  {
    if mask == [] then []
    else (if mask[0] then [offset] else []) + PositionsFrom(mask[1..], offset + 1)
  }

  function Positions(mask: seq<bool>): (r: seq<nat>)
    ensures |r| == Count(mask)
  {
    PositionsFrom(mask, 0)
  }

  lemma {:induction false} PositionsFromAt(mask: seq<bool>, offset: nat, k: nat)
    requires k < Count(mask)
    ensures offset <= PositionsFrom(mask, offset)[k] < offset + |mask|
    ensures mask[PositionsFrom(mask, offset)[k] - offset]
  {
    var tail := PositionsFrom(mask[1..], offset + 1);
    if mask[0] {
      assert PositionsFrom(mask, offset) == [offset] + tail;
      if k > 0 {
        PositionsFromAt(mask[1..], offset + 1, k - 1);
        assert PositionsFrom(mask, offset)[k] == tail[k - 1];
      }
    } else {
      assert PositionsFrom(mask, offset) == tail;
      PositionsFromAt(mask[1..], offset + 1, k);
    }
  }

  /** Every listed position holds a true cell. */
  lemma PositionsAt(mask: seq<bool>, k: nat)
    requires k < Count(mask)
    ensures Positions(mask)[k] < |mask| && mask[Positions(mask)[k]]
  {
    var ps := PositionsFrom(mask, 0);
    PositionsFromAt(mask, 0, k);
    assert Positions(mask) == ps;
    assert ps[k] - 0 == ps[k];
  }

  lemma {:induction false} PositionsFromIncrease(mask: seq<bool>, offset: nat, k: nat, l: nat)
    requires k < l < Count(mask)
    ensures PositionsFrom(mask, offset)[k] < PositionsFrom(mask, offset)[l]
  {
    var ps, tail := PositionsFrom(mask, offset), PositionsFrom(mask[1..], offset + 1);
    if mask[0] {
      assert ps == [offset] + tail;
      assert ps[l] == tail[l - 1];
      if k > 0 {
        assert ps[k] == tail[k - 1];
        PositionsFromIncrease(mask[1..], offset + 1, k - 1, l - 1);
      } else {
        assert ps[k] == offset;
        PositionsFromAt(mask[1..], offset + 1, l - 1);
      }
    } else {
      assert ps == tail;
      PositionsFromIncrease(mask[1..], offset + 1, k, l);
    }
  }

  /** The positions are listed in increasing order. */
  lemma PositionsIncrease(mask: seq<bool>, k: nat, l: nat)
    requires k < l < Count(mask)
    ensures Positions(mask)[k] < Positions(mask)[l]
  {
    PositionsFromIncrease(mask, 0, k, l);
  }

  /** The elements satisfying `p`, in their original order. */
  function Filter<T(!new)>(xs: seq<T>, p: T -> bool): (r: seq<T>)
    ensures forall x :: x in r <==> x in xs && p(x)
  {
    if xs == [] then []
    else
      assert xs == [xs[0]] + xs[1..];
      (if p(xs[0]) then [xs[0]] else []) + Filter(xs[1..], p)
  }

  lemma FilterCons<T(!new)>(xs: seq<T>, p: T -> bool)
    requires xs != []
    ensures Filter(xs, p) == (if p(xs[0]) then [xs[0]] else []) + Filter(xs[1..], p)
  {
  }

  /** Filtering keeps nothing when no element qualifies. */
  lemma {:induction false} FilterNone<T(!new)>(xs: seq<T>, p: T -> bool)
    requires forall i :: 0 <= i < |xs| ==> !p(xs[i])
    ensures Filter(xs, p) == []
  {
    if xs != [] {
      FilterCons(xs, p);
      FilterNone(xs[1..], p);
    }
  }

  function EqMask(ids: seq<int>, n: int): (r: seq<bool>)
    ensures |r| == |ids|
  {
    seq(|ids|, i requires 0 <= i < |ids| => ids[i] == n)
  }

  function And(a: seq<bool>, b: seq<bool>): (r: seq<bool>)
    requires |a| == |b|
    ensures |r| == |a|
  {
    seq(|a|, i requires 0 <= i < |a| => a[i] && b[i])
  }

  function Not(a: seq<bool>): (r: seq<bool>)
    ensures |r| == |a|
  {
    seq(|a|, i requires 0 <= i < |a| => !a[i])
  }

  lemma {:induction false} SelectAtFrom<T>(xs: seq<T>, mask: seq<bool>, offset: nat, k: nat)
    requires |xs| == |mask| && k < Count(mask)
    ensures offset <= PositionsFrom(mask, offset)[k] < offset + |xs|
    ensures Select(xs, mask)[k] == xs[PositionsFrom(mask, offset)[k] - offset]
  {
    PositionsFromAt(mask, offset, k);
    if mask[0] {
      assert Select(xs, mask) == [xs[0]] + Select(xs[1..], mask[1..]);
      if k > 0 {
        SelectAtFrom(xs[1..], mask[1..], offset + 1, k - 1);
      }
    } else {
      assert Select(xs, mask) == Select(xs[1..], mask[1..]);
      SelectAtFrom(xs[1..], mask[1..], offset + 1, k);
    }
  }

  /** The k-th selected cell is the cell at the k-th true position: `arr[mask]` keeps order. */
  lemma SelectAt<T>(xs: seq<T>, mask: seq<bool>, k: nat)
    requires |xs| == |mask| && k < Count(mask)
    ensures Positions(mask)[k] < |xs| && mask[Positions(mask)[k]]
    ensures Select(xs, mask)[k] == xs[Positions(mask)[k]]
  {
    SelectAtFrom(xs, mask, 0, k);
    PositionsAt(mask, k);
  }

  /** Splitting a selection by a second mask: the two halves together hold exactly
      the selected cells, and each half is the subsequence picked out by the second mask. */
  lemma {:induction false} SelectSplit<T>(xs: seq<T>, m: seq<bool>, p: seq<bool>)
    requires |xs| == |m| == |p|
    ensures Count(And(m, p)) + Count(And(m, Not(p))) == Count(m)
    ensures multiset(Select(xs, And(m, p))) + multiset(Select(xs, And(m, Not(p)))) == multiset(Select(xs, m))
  {
    if xs != [] {
      assert And(m, p)[1..] == And(m[1..], p[1..]);
      assert Not(p)[1..] == Not(p[1..]);
      assert And(m, Not(p))[1..] == And(m[1..], Not(p[1..]));
      SelectSplit(xs[1..], m[1..], p[1..]);
    }
  }

  /** The cells routed to the groups `0 .. k-1` by the group ids `ids`, as a multiset. */
  function RoutedUnion<T>(xs: seq<T>, ids: seq<int>, k: nat): multiset<T>
    requires |xs| == |ids|
  {
    if k == 0 then multiset{} else RoutedUnion(xs, ids, k - 1) + multiset(Select(xs, EqMask(ids, k - 1)))
  }

  /** The mask of the cells whose group id lies in `0 .. k-1`. */
  function Below(ids: seq<int>, k: int): (r: seq<bool>)
    ensures |r| == |ids|
  {
    seq(|ids|, i requires 0 <= i < |ids| => 0 <= ids[i] < k)
  }

  lemma {:induction false} RoutedUnionBelow<T>(xs: seq<T>, ids: seq<int>, k: nat)
    requires |xs| == |ids|
    ensures RoutedUnion(xs, ids, k) == multiset(Select(xs, Below(ids, k)))
  {
    if k == 0 {
      SelectNone(xs, Below(ids, 0));
    } else {
      RoutedUnionBelow(xs, ids, k - 1);
      var m, p := Below(ids, k), EqMask(ids, k - 1);
      SelectSplit(xs, m, p);
      BelowSplit(ids, k);
      Step(RoutedUnion(xs, ids, k), RoutedUnion(xs, ids, k - 1), multiset(Select(xs, p)),
           multiset(Select(xs, Below(ids, k - 1))), multiset(Select(xs, m)));
    }
  }

  lemma Step<T>(u: multiset<T>, uPrev: multiset<T>, a: multiset<T>, b: multiset<T>, c: multiset<T>)
    requires u == uPrev + a && uPrev == b && a + b == c
    ensures u == c
  {
  }

  lemma BelowSplit(ids: seq<int>, k: nat)
    requires k > 0
    ensures And(Below(ids, k), EqMask(ids, k - 1)) == EqMask(ids, k - 1)
    ensures And(Below(ids, k), Not(EqMask(ids, k - 1))) == Below(ids, k - 1)
  {
  }

  lemma {:induction false} SelectNone<T>(xs: seq<T>, mask: seq<bool>)
    requires |xs| == |mask|
    requires forall i :: 0 <= i < |mask| ==> !mask[i]
    ensures Select(xs, mask) == []
  {
    if xs != [] {
      SelectNone(xs[1..], mask[1..]);
    }
  }

  lemma {:induction false} SelectAll<T>(xs: seq<T>, mask: seq<bool>)
    requires |xs| == |mask|
    requires forall i :: 0 <= i < |mask| ==> mask[i]
    ensures Select(xs, mask) == xs
  {
    if xs != [] {
      SelectAll(xs[1..], mask[1..]);
    }
  }

  /** When every group id lies in `0..N`, the groups together contain every cell
      exactly once. */
  lemma RoutingCovers<T>(xs: seq<T>, ids: seq<int>, N: nat)
    requires |xs| == |ids|
    requires forall i :: 0 <= i < |ids| ==> 0 <= ids[i] <= N
    ensures RoutedUnion(xs, ids, N + 1) == multiset(xs)
  {
    RoutedUnionBelow(xs, ids, N + 1);
    SelectAll(xs, Below(ids, N + 1));
  }
}
