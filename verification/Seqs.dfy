/** Sequence and set operations shared by the models. */
module Seqs {
  function Filter<T(!new)>(xs: seq<T>, keep: T -> bool): (r: seq<T>)
    ensures forall x {:trigger x in r} :: x in r <==> x in xs && keep(x)
    ensures |r| <= |xs|
  {
    if xs == [] then []
    else if keep(xs[0]) then [xs[0]] + Filter(xs[1..], keep)
    else Filter(xs[1..], keep)
  }

  /** One unfolding of Filter. */
  lemma FilterCons<T(!new)>(x: T, rest: seq<T>, keep: T -> bool)
    ensures Filter([x] + rest, keep) == (if keep(x) then [x] else []) + Filter(rest, keep)
  {
    assert ([x] + rest)[1..] == rest;
  }

  lemma {:induction false} FilterAppend<T(!new)>(xs: seq<T>, ys: seq<T>, keep: T -> bool)
    ensures Filter(xs + ys, keep) == Filter(xs, keep) + Filter(ys, keep)
  {
    if xs == [] {
      assert xs + ys == ys;
    } else {
      var x, rest := xs[0], xs[1..];
      var front := if keep(x) then [x] else [];
      assert xs == [x] + rest;
      calc {
        Filter(xs + ys, keep);
        { assert xs + ys == [x] + (rest + ys); FilterCons(x, rest + ys, keep); }
        front + Filter(rest + ys, keep);
        { FilterAppend(rest, ys, keep); }
        front + (Filter(rest, keep) + Filter(ys, keep));
        (front + Filter(rest, keep)) + Filter(ys, keep);
        { FilterCons(x, rest, keep); }
        Filter(xs, keep) + Filter(ys, keep);
      }
    }
  }

  lemma FilterSnoc<T(!new)>(xs: seq<T>, x: T, keep: T -> bool)
    ensures Filter(xs + [x], keep) == Filter(xs, keep) + if keep(x) then [x] else []
  {
    FilterAppend(xs, [x], keep);
    FilterCons(x, [], keep);
    assert [x] + [] == [x];
  }

  ghost predicate Distinct<T>(xs: seq<T>)
  {
    forall i, j | 0 <= i < j < |xs| :: xs[i] != xs[j]
  }

  /** The elements in order of first occurrence: `[...new Set(xs)]`. */
  function Dedup<T(==,!new)>(xs: seq<T>): (r: seq<T>)
    ensures forall x :: x in r <==> x in xs
    ensures Distinct(r)
  {
    if xs == [] then []
    else
      var k := |xs| - 1;
      var head := Dedup(xs[..k]);
      assert xs == xs[..k] + [xs[k]];
      if xs[k] in head then head else head + [xs[k]]
  }

  lemma {:induction false} SubsetSize<T(!new)>(a: set<T>, b: set<T>)
    requires a <= b
    ensures |a| <= |b|
  {
    if a != {} {
      var x :| x in a;
      SubsetSize(a - {x}, b - {x});
    }
  }
}
