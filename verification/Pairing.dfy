/** Greedy pairing of two lists by equality of a partial key. */
module Pairing {
  import opened Wrappers

  datatype Move<E> = Move(from: E, to: E)

  datatype Paired<E> = Paired(added: seq<E>, removed: seq<E>, moved: seq<Move<E>>)

  predicate Matches<E, K(==)>(from: E, to: E, key: E -> Option<K>)
  {
    key(from).Some? && key(from) == key(to)
  }

  /** The first element of the pool that matches. */
  function FindMatch<E, K(==)>(pool: seq<E>, a: E, key: E -> Option<K>): (r: Option<nat>)
    ensures r.Some? ==> r.value < |pool| && Matches(pool[r.value], a, key)
    ensures r.None? ==> forall i | 0 <= i < |pool| :: !Matches(pool[i], a, key)
  {
    if pool == [] then None
    else if Matches(pool[0], a, key) then Some(0)
    else
      var r := FindMatch(pool[1..], a, key);
      if r.None? then None else Some(r.value + 1)
  }

  function Splice<E>(xs: seq<E>, i: nat): seq<E>
    requires i < |xs|
  {
    xs[..i] + xs[i + 1..]
  }

  function Pair<E, K(==)>(added: seq<E>, removed: seq<E>, key: E -> Option<K>): Paired<E>
  {
    if added == [] then Paired([], removed, [])
    else
      var k := |added| - 1;
      var p := Pair(added[..k], removed, key);
      var i := FindMatch(p.removed, added[k], key);
      if i.None? then p.(added := p.added + [added[k]])
      else Paired(p.added, Splice(p.removed, i.value), p.moved + [Move(p.removed[i.value], added[k])])
  }

  function Froms<E>(ms: seq<Move<E>>): (r: seq<E>)
    ensures |r| == |ms| && forall i | 0 <= i < |ms| :: r[i] == ms[i].from
  {
    seq(|ms|, i requires 0 <= i < |ms| => ms[i].from)
  }

  function Tos<E>(ms: seq<Move<E>>): (r: seq<E>)
    ensures |r| == |ms| && forall i | 0 <= i < |ms| :: r[i] == ms[i].to
  {
    seq(|ms|, i requires 0 <= i < |ms| => ms[i].to)
  }

  lemma MovesAppend<E>(ms: seq<Move<E>>, m: Move<E>)
    ensures Froms(ms + [m]) == Froms(ms) + [m.from] && Tos(ms + [m]) == Tos(ms) + [m.to]
  {
  }

  // ----- nothing lost, nothing used twice -----

  lemma SpliceBag<E>(xs: seq<E>, i: nat)
    requires i < |xs|
    ensures multiset(xs) == multiset(Splice(xs, i)) + multiset{xs[i]}
  {
    assert xs == xs[..i] + [xs[i]] + xs[i + 1..];
  }

  lemma PairStep<E, K>(added: seq<E>, removed: seq<E>, key: E -> Option<K>)
    requires added != []
    ensures var a := added[|added| - 1];
      var p, q := Pair(added[..|added| - 1], removed, key), Pair(added, removed, key);
      var i := FindMatch(p.removed, a, key);
      if i.None? then q == Paired(p.added + [a], p.removed, p.moved)
      else q == Paired(p.added, Splice(p.removed, i.value), p.moved + [Move(p.removed[i.value], a)])
  {
  }

  lemma SnocBag<E>(xs: seq<E>, x: E)
    ensures multiset(xs + [x]) == multiset(xs) + multiset{x}
  {
  }

  lemma Regroup<E>(a: multiset<E>, b: multiset<E>, c: multiset<E>)
    ensures (a + b) + c == (a + c) + b == a + (b + c)
  {
  }

  lemma SplitLast<E>(b: seq<E>) returns (init: seq<E>, e: E)
    requires b != []
    ensures b == init + [e] && |init| < |b|
  {
    init, e := b[..|b| - 1], b[|b| - 1];
  }

  ghost predicate Partitions<E>(added: seq<E>, removed: seq<E>, p: Paired<E>)
  {
    && multiset(added) == multiset(p.added) + multiset(Tos(p.moved))
    && multiset(removed) == multiset(p.removed) + multiset(Froms(p.moved))
  }

  lemma PartitionLeft<E>(added: seq<E>, removed: seq<E>, p: Paired<E>, a: E)
    requires Partitions(added, removed, p)
    ensures Partitions(added + [a], removed, Paired(p.added + [a], p.removed, p.moved))
  {
    SnocBag(added, a);
    SnocBag(p.added, a);
    Regroup(multiset(p.added), multiset(Tos(p.moved)), multiset{a});
  }

  lemma PartitionMoved<E>(added: seq<E>, removed: seq<E>, p: Paired<E>, a: E, i: nat)
    requires Partitions(added, removed, p) && i < |p.removed|
    ensures Partitions(added + [a], removed, Paired(p.added, Splice(p.removed, i), p.moved + [Move(p.removed[i], a)]))
  {
    var from := p.removed[i];
    MovesAppend(p.moved, Move(from, a));
    calc {
      multiset(added + [a]);
      { SnocBag(added, a); }
      (multiset(p.added) + multiset(Tos(p.moved))) + multiset{a};
      { Regroup(multiset(p.added), multiset(Tos(p.moved)), multiset{a}); }
      multiset(p.added) + (multiset(Tos(p.moved)) + multiset{a});
      { SnocBag(Tos(p.moved), a); }
      multiset(p.added) + multiset(Tos(p.moved) + [a]);
    }
    calc {
      multiset(removed);
      { SpliceBag(p.removed, i); }
      (multiset(Splice(p.removed, i)) + multiset{from}) + multiset(Froms(p.moved));
      { Regroup(multiset(Splice(p.removed, i)), multiset(Froms(p.moved)), multiset{from}); }
      multiset(Splice(p.removed, i)) + (multiset(Froms(p.moved)) + multiset{from});
      { SnocBag(Froms(p.moved), from); }
      multiset(Splice(p.removed, i)) + multiset(Froms(p.moved) + [from]);
    }
  }

  /** What stays added and what is moved to partition the added list, and what stays removed and
      what is moved from partition the removed list. */
  lemma {:induction false} PairPartitions<E, K>(added: seq<E>, removed: seq<E>, key: E -> Option<K>)
    ensures Partitions(added, removed, Pair(added, removed, key))
  {
    if added != [] {
      var init, a := SplitLast(added);
      assert added[..|added| - 1] == init;
      PairPartitions(init, removed, key);
      PairStep(added, removed, key);
      var p := Pair(init, removed, key);
      var i := FindMatch(p.removed, a, key);
      if i.None? {
        PartitionLeft(init, removed, p, a);
      } else {
        PartitionMoved(init, removed, p, a, i.value);
      }
    }
  }

  lemma {:induction false} PairMatches<E, K>(added: seq<E>, removed: seq<E>, key: E -> Option<K>)
    ensures forall i | 0 <= i < |Pair(added, removed, key).moved| ::
              Matches(Pair(added, removed, key).moved[i].from, Pair(added, removed, key).moved[i].to, key)
  {
    if added != [] {
      PairMatches(added[..|added| - 1], removed, key);
      PairStep(added, removed, key);
    }
  }

  // ----- counting by key -----

  ghost function Single<K>(k: Option<K>): multiset<K>
  {
    if k.Some? then multiset{k.value} else multiset{}
  }

  /** The keys of a list, with multiplicity. */
  ghost function Bag<E, K>(es: seq<E>, key: E -> Option<K>): multiset<K>
  {
    if es == [] then multiset{} else Bag(es[..|es| - 1], key) + Single(key(es[|es| - 1]))
  }

  lemma BagAppend<E, K>(es: seq<E>, e: E, key: E -> Option<K>)
    ensures Bag(es + [e], key) == Bag(es, key) + Single(key(e))
  {
    assert (es + [e])[..|es|] == es;
  }

  lemma {:induction false} BagConcatStep<E, K>(a: seq<E>, init: seq<E>, e: E, key: E -> Option<K>)
    requires Bag(a + init, key) == Bag(a, key) + Bag(init, key)
    ensures Bag(a + (init + [e]), key) == Bag(a, key) + Bag(init + [e], key)
  {
    assert a + (init + [e]) == (a + init) + [e];
    calc {
      Bag(a + (init + [e]), key);
      { BagAppend(a + init, e, key); }
      Bag(a + init, key) + Single(key(e));
      { Regroup(Bag(a, key), Bag(init, key), Single(key(e))); }
      Bag(a, key) + (Bag(init, key) + Single(key(e)));
      { BagAppend(init, e, key); }
      Bag(a, key) + Bag(init + [e], key);
    }
  }

  lemma {:induction false} BagConcat<E, K>(a: seq<E>, b: seq<E>, key: E -> Option<K>)
    ensures Bag(a + b, key) == Bag(a, key) + Bag(b, key)
    decreases |b|
  {
    if b == [] {
      assert a + b == a;
    } else {
      var init, e := SplitLast(b);
      BagConcat(a, init, key);
      BagConcatStep(a, init, e, key);
    }
  }

  lemma {:induction false} BagMiddle<E, K>(front: seq<E>, x: E, back: seq<E>, key: E -> Option<K>)
    ensures Bag((front + [x]) + back, key) == Bag(front + back, key) + Single(key(x))
  {
    BagConcat(front + [x], back, key);
    BagAppend(front, x, key);
    BagConcat(front, back, key);
    Regroup(Bag(front, key), Bag(back, key), Single(key(x)));
  }

  lemma {:induction false} BagSplice<E, K>(es: seq<E>, i: nat, key: E -> Option<K>)
    requires i < |es|
    ensures Bag(es, key) == Bag(Splice(es, i), key) + Single(key(es[i]))
  {
    assert es == (es[..i] + [es[i]]) + es[i + 1..];
    BagMiddle(es[..i], es[i], es[i + 1..], key);
  }

  lemma {:induction false} BagHas<E, K>(es: seq<E>, k: K, key: E -> Option<K>)
    requires k in Bag(es, key)
    ensures exists i | 0 <= i < |es| :: key(es[i]) == Some(k)
  {
    var n := |es| - 1;
    if key(es[n]) != Some(k) {
      BagHas(es[..n], k, key);
      var i :| 0 <= i < n && key(es[..n][i]) == Some(k);
      assert es[i] == es[..n][i];
    }
  }

  /** The pairing splits both bags into what moved and leftovers that share no key. */
  ghost predicate Split<E, K(!new)>(added: seq<E>, removed: seq<E>, p: Paired<E>, key: E -> Option<K>)
  {
    && Bag(added, key) == Bag(p.added, key) + Bag(Tos(p.moved), key)
    && Bag(removed, key) == Bag(p.removed, key) + Bag(Froms(p.moved), key)
    && Bag(Tos(p.moved), key) == Bag(Froms(p.moved), key)
    && |Bag(Tos(p.moved), key)| == |p.moved|
    && (forall k :: Bag(p.added, key)[k] == 0 || Bag(p.removed, key)[k] == 0)
  }

  lemma {:induction false} PairSplits<E, K(!new)>(added: seq<E>, removed: seq<E>, key: E -> Option<K>)
    ensures Split(added, removed, Pair(added, removed, key), key)
  {
    if added != [] {
      var init, a := SplitLast(added);
      assert added[..|added| - 1] == init;
      PairSplits(init, removed, key);
      PairStep(added, removed, key);
      var p := Pair(init, removed, key);
      if FindMatch(p.removed, a, key).None? {
        SplitLeft(init, removed, p, a, key);
      } else {
        SplitMoved(init, removed, p, a, key);
      }
    }
  }

  lemma {:induction false} SplitLeft<E, K(!new)>(
    added: seq<E>, removed: seq<E>, p: Paired<E>, a: E, key: E -> Option<K>)
    requires Split(added, removed, p, key) && FindMatch(p.removed, a, key).None?
    ensures Split(added + [a], removed, Paired(p.added + [a], p.removed, p.moved), key)
  {
    BagAppend(added, a, key);
    BagAppend(p.added, a, key);
    if key(a).Some? && key(a).value in Bag(p.removed, key) {
      BagHas(p.removed, key(a).value, key);
      assert false;
    }
  }

  lemma MovedBags<K(!new)>(
    added: multiset<K>, removed: multiset<K>, left: multiset<K>, pool: multiset<K>,
    rest: multiset<K>, moved: multiset<K>, one: multiset<K>)
    requires added == left + moved && removed == pool + moved && pool == rest + one
    requires forall k :: left[k] == 0 || pool[k] == 0
    ensures added + one == left + (moved + one) && removed == rest + (moved + one)
    ensures |moved + one| == |moved| + |one|
    ensures forall k :: left[k] == 0 || rest[k] == 0
  {
    Regroup(left, moved, one);
    Regroup(rest, moved, one);
  }

  lemma {:induction false} SplitMoved<E, K(!new)>(
    added: seq<E>, removed: seq<E>, p: Paired<E>, a: E, key: E -> Option<K>)
    requires Split(added, removed, p, key) && FindMatch(p.removed, a, key).Some?
    ensures var i := FindMatch(p.removed, a, key).value;
      Split(added + [a], removed, Paired(p.added, Splice(p.removed, i), p.moved + [Move(p.removed[i], a)]), key)
  {
    var i := FindMatch(p.removed, a, key).value;
    BagAppend(added, a, key);
    MovesAppend(p.moved, Move(p.removed[i], a));
    BagAppend(Tos(p.moved), a, key);
    BagAppend(Froms(p.moved), p.removed[i], key);
    BagSplice(p.removed, i, key);
    MovedBags(Bag(added, key), Bag(removed, key), Bag(p.added, key), Bag(p.removed, key),
              Bag(Splice(p.removed, i), key), Bag(Tos(p.moved), key), Single(key(a)));
  }

  /** The pairing moves, for every key, the smaller of the two counts (the intersection of the
      bags), so how many move does not depend on the order of either list. */
  lemma MovedIsIntersection<E, K(!new)>(added: seq<E>, removed: seq<E>, key: E -> Option<K>)
    ensures var p := Pair(added, removed, key);
      && Bag(Tos(p.moved), key) == Bag(added, key) * Bag(removed, key)
      && |p.moved| == |Bag(added, key) * Bag(removed, key)|
  {
    PairSplits(added, removed, key);
    var p := Pair(added, removed, key);
    Excess(Bag(p.added, key), Bag(p.removed, key), Bag(Tos(p.moved), key));
  }

  lemma Excess<K(!new)>(x: multiset<K>, y: multiset<K>, common: multiset<K>)
    requires forall k :: x[k] == 0 || y[k] == 0
    ensures (x + common) * (y + common) == common
  {
    var m := (x + common) * (y + common);
    assert forall k :: m[k] == common[k];
  }

  lemma Cancel<E(!new)>(a: multiset<E>, b: multiset<E>, x: E)
    requires a + multiset{x} <= b + multiset{x}
    ensures a <= b
  {
    forall y ensures a[y] <= b[y] {
      assert (a + multiset{x})[y] <= (b + multiset{x})[y];
    }
  }

  lemma {:induction false} BagMonotone<E(!new), K>(xs: seq<E>, ys: seq<E>, key: E -> Option<K>)
    requires multiset(xs) <= multiset(ys)
    ensures Bag(xs, key) <= Bag(ys, key)
    decreases |xs|
  {
    if xs != [] {
      var k := |xs| - 1;
      var x := xs[k];
      assert xs == xs[..k] + [x];
      assert x in multiset(xs);
      assert x in ys;
      var i :| 0 <= i < |ys| && ys[i] == x;
      BagSplice(ys, i, key);
      SpliceBag(ys, i);
      SnocBag(xs[..k], x);
      Cancel(multiset(xs[..k]), multiset(Splice(ys, i)), x);
      BagMonotone(xs[..k], Splice(ys, i), key);
    }
  }

  /** A set of moves that uses each added and each removed element at most once. */
  ghost predicate IsMatching<E, K>(ms: seq<Move<E>>, added: seq<E>, removed: seq<E>, key: E -> Option<K>)
  {
    && (forall i | 0 <= i < |ms| :: Matches(ms[i].from, ms[i].to, key))
    && multiset(Tos(ms)) <= multiset(added) && multiset(Froms(ms)) <= multiset(removed)
  }

  lemma {:induction false} MatchingBag<E, K>(ms: seq<Move<E>>, key: E -> Option<K>)
    requires forall i | 0 <= i < |ms| :: Matches(ms[i].from, ms[i].to, key)
    ensures |Bag(Tos(ms), key)| == |ms| && Bag(Tos(ms), key) == Bag(Froms(ms), key)
  {
    if ms != [] {
      var k := |ms| - 1;
      MatchingBag(ms[..k], key);
      assert ms == ms[..k] + [ms[k]];
      assert Matches(ms[k].from, ms[k].to, key);
      MovesAppend(ms[..k], ms[k]);
      BagAppend(Tos(ms[..k]), ms[k].to, key);
      BagAppend(Froms(ms[..k]), ms[k].from, key);
    }
  }

  lemma BagSize<K>(a: multiset<K>, b: multiset<K>)
    requires a <= b
    ensures |a| <= |b|
  {
    assert b == a + (b - a);
  }

  /** The greedy pairing is a maximum matching. */
  lemma PairingIsMaximum<E(!new), K(!new)>(added: seq<E>, removed: seq<E>, key: E -> Option<K>, ms: seq<Move<E>>)
    requires IsMatching(ms, added, removed, key)
    ensures IsMatching(Pair(added, removed, key).moved, added, removed, key)
    ensures |ms| <= |Pair(added, removed, key).moved|
  {
    PairPartitions(added, removed, key);
    PairMatches(added, removed, key);
    MovedIsIntersection(added, removed, key);
    MatchingBag(ms, key);
    BagMonotone(Tos(ms), added, key);
    BagMonotone(Froms(ms), removed, key);
    var both := Bag(added, key) * Bag(removed, key);
    assert Bag(Tos(ms), key) <= both;
    BagSize(Bag(Tos(ms), key), both);
  }
}
