/** Exactly which changes the ratchet (scripts/complexity-baseline/scan.ts) lets through, said over
    the two lists alone: what it refuses, and that it refuses nothing else. */
module RatchetExact {
  import opened Wrappers
  import opened Seqs
  import opened Pairing
  import opened Ratchet

  /** The entry a list claims for its identity: the last one with it. */
  ghost predicate Current(es: seq<Entry>, e: Entry, v: View)
  {
    exists i | 0 <= i < |es| :: es[i] == e && forall j | i < j < |es| :: v.id(es[j]) != v.id(e)
  }

  ghost predicate Names(es: seq<Entry>, key: string, v: View)
  {
    exists e | e in es :: v.id(e) == key
  }

  lemma {:induction false} LookupIsCurrent(es: seq<Entry>, e: Entry, v: View)
    ensures Lookup(es, v.id(e), v) == Some(e) <==> Current(es, e, v)
  {
    if es != [] {
      var k := |es| - 1;
      LookupIsCurrent(es[..k], e, v);
      if v.id(es[k]) == v.id(e) {
        if Current(es, e, v) {
          var i :| 0 <= i < |es| && es[i] == e && forall j | i < j < |es| :: v.id(es[j]) != v.id(e);
          assert i == k;
        }
        if es[k] == e { assert Current(es, e, v); }
      } else {
        CurrentInit(es, e, v);
      }
    }
  }

  lemma {:induction false} CurrentInit(es: seq<Entry>, e: Entry, v: View)
    requires es != [] && v.id(es[|es| - 1]) != v.id(e)
    ensures Current(es, e, v) <==> Current(es[..|es| - 1], e, v)
  {
    var init := es[..|es| - 1];
    if i :| 0 <= i < |es| && es[i] == e && forall j | i < j < |es| :: v.id(es[j]) != v.id(e) {
      assert init[i] == e;
    }
    if i :| 0 <= i < |init| && init[i] == e && forall j | i < j < |init| :: v.id(init[j]) != v.id(e) {
      assert es[i] == e;
      forall j | i < j < |es| ensures v.id(es[j]) != v.id(e) {
        if j < |init| { assert init[j] == es[j]; }
      }
    }
  }

  lemma LookupNames(es: seq<Entry>, key: string, v: View)
    ensures Lookup(es, key, v).Some? <==> Names(es, key, v)
  {
  }

  /** No entry both lists claim has a higher stamp in the head. */
  ghost predicate NoneRaised(base: seq<Entry>, head: seq<Entry>, v: View)
  {
    forall b, e | Current(base, b, v) && Current(head, e, v) && v.id(b) == v.id(e) :: e.accepted <= b.accepted
  }

  /** Every identity of the head is one of the base's. */
  ghost predicate NoneAdded(base: seq<Entry>, head: seq<Entry>, v: View)
  {
    forall e | e in head :: Names(base, v.id(e), v)
  }

  /** The entries the head claims under identities the base does not have. */
  ghost function NewEntries(base: seq<Entry>, head: seq<Entry>, v: View): set<Entry>
  {
    set e | e in head && Current(head, e, v) && !Names(base, v.id(e), v)
  }

  /** The same rule, stamp, sentence and declared name, under whatever path and line. */
  predicate SameDeclaration(b: Entry, e: Entry, v: View)
  {
    && b.rule == e.rule && b.accepted == e.accepted && b.sentence == e.sentence
    && v.naming(b.anchor).Some? && v.naming(b.anchor) == v.naming(e.anchor)
  }

  /** Each new entry continues a dropped one, and no dropped entry is continued twice. */
  ghost predicate Continued(base: seq<Entry>, head: seq<Entry>, v: View, from: map<Entry, Entry>)
  {
    && from.Keys == NewEntries(base, head, v)
    && (forall e | e in from ::
          SameDeclaration(from[e], e, v) && Current(base, from[e], v) && !Names(head, v.id(from[e]), v))
    && (forall e, f | e in from && f in from && e != f :: from[e] != from[f])
  }

  // ----- reading the diff -----

  lemma {:induction false} ViolationsExact(d: Diff, approved: bool)
    ensures RatchetViolations(d, approved) == [] <==>
            d.added == [] && (forall x | x in d.restamped :: x.to <= x.from) && (approved || d.moved == [])
  {
    if RatchetViolations(d, approved) == [] { NoViolations(d, approved); }
  }

  lemma {:induction false} RestampedFrom(es: seq<Entry>, base: seq<Entry>, v: View, x: Restamp)
    requires x in Restamped(es, base, v)
    ensures exists e | e in es ::
      Lookup(base, v.id(e), v).Some? && x == Restamp(v.id(e), Lookup(base, v.id(e), v).value.accepted, e.accepted)
  {
    var k := |es| - 1;
    if x in Restamped(es[..k], base, v) {
      RestampedFrom(es[..k], base, v, x);
      assert forall e | e in es[..k] :: e in es;
    } else {
      assert es[k] in es;
    }
  }

  /** The diff reports no raised stamp exactly when none is raised. */
  lemma {:induction false} RaisedExact(base: seq<Entry>, head: seq<Entry>, v: View)
    ensures (forall x | x in DiffOf(base, head, v).restamped :: x.to <= x.from) <==> NoneRaised(base, head, v)
  {
    var seen := Uniq(head, v);
    if NoneRaised(base, head, v) {
      forall x | x in Restamped(seen, base, v) ensures x.to <= x.from {
        RestampedFrom(seen, base, v, x);
        var e :| e in seen && Lookup(base, v.id(e), v).Some? &&
          x == Restamp(v.id(e), Lookup(base, v.id(e), v).value.accepted, e.accepted);
        UniqMembers(head, e, v);
        LookupIsCurrent(head, e, v);
        LookupIsCurrent(base, Lookup(base, v.id(e), v).value, v);
      }
    }
    if forall x | x in Restamped(seen, base, v) :: x.to <= x.from {
      forall b, e | Current(base, b, v) && Current(head, e, v) && v.id(b) == v.id(e) ensures e.accepted <= b.accepted {
        LookupIsCurrent(base, b, v);
        LookupIsCurrent(head, e, v);
        UniqMembers(head, e, v);
        if b.accepted != e.accepted { RestampedHas(seen, base, e, v); }
      }
    }
  }

  /** The entries of one list that the other does not know. */
  lemma OnlyInMembers(es: seq<Entry>, other: seq<Entry>, v: View, e: Entry)
    ensures e in OnlyIn(Uniq(es, v), other, v) <==> Current(es, e, v) && !Names(other, v.id(e), v)
  {
    UniqMembers(es, e, v);
    LookupIsCurrent(es, e, v);
    LookupNames(other, v.id(e), v);
  }

  lemma OnlyInDistinct(es: seq<Entry>, other: seq<Entry>, v: View)
    ensures DistinctKeys(OnlyIn(Uniq(es, v), other, v), v)
  {
    FilterDistinct(Uniq(es, v), (e: Entry) => Lookup(other, v.id(e), v).None?, v);
  }

  // ----- without approved moves -----

  /** Nothing new: neither an addition nor a move is left when every identity was there. */
  lemma {:induction false} NothingNewExact(base: seq<Entry>, head: seq<Entry>, v: View)
    ensures DiffOf(base, head, v).added == [] && DiffOf(base, head, v).moved == [] <==> NoneAdded(base, head, v)
  {
    var added, removed := OnlyIn(Uniq(head, v), base, v), OnlyIn(Uniq(base, v), head, v);
    PairPartitions(added, removed, KeyOf(v.naming));
    var p := Pair(added, removed, KeyOf(v.naming));
    PartSizes(added, removed, p);
    if NoneAdded(base, head, v) {
      if added != [] {
        OnlyInMembers(head, base, v, added[0]);
      }
    }
    if added == [] {
      forall e | e in head ensures Names(base, v.id(e), v) {
        LookupNames(head, v.id(e), v);
        var last := Lookup(head, v.id(e), v).value;
        LookupIsCurrent(head, last, v);
        OnlyInMembers(head, base, v, last);
      }
    }
  }

  lemma PartSizes<E>(added: seq<E>, removed: seq<E>, p: Paired<E>)
    requires Partitions(added, removed, p)
    ensures |added| == |p.added| + |p.moved|
  {
    assert |multiset(added)| == |multiset(p.added)| + |multiset(Tos(p.moved))|;
  }

  /** Without approved moves a change passes exactly when every identity of the head is one of the
      base's and no stamp rose. Removals always pass. */
  lemma {:induction false} PassesExactly(base: seq<Entry>, head: seq<Entry>, v: View)
    ensures RatchetViolations(DiffOf(base, head, v), false) == [] <==>
            NoneAdded(base, head, v) && NoneRaised(base, head, v)
  {
    ViolationsExact(DiffOf(base, head, v), false);
    RaisedExact(base, head, v);
    NothingNewExact(base, head, v);
  }

  // ----- with approved moves -----

  lemma {:induction false} DistinctWithin(xs: seq<Entry>, ys: seq<Entry>)
    requires forall i, j | 0 <= i < j < |xs| :: xs[i] != xs[j]
    requires forall x | x in xs :: x in ys
    ensures multiset(xs) <= multiset(ys)
  {
    if xs != [] {
      var k := |xs| - 1;
      assert xs == xs[..k] + [xs[k]];
      DistinctWithin(xs[..k], ys);
      assert xs[k] !in xs[..k];
      assert xs[k] in ys;
    }
  }

  /** The moves a continuation proposes. */
  ghost function Proposed(added: seq<Entry>, from: map<Entry, Entry>): (ms: seq<Move<Entry>>)
    requires forall e | e in added :: e in from
    ensures Tos(ms) == added
    ensures |ms| == |added| && forall i | 0 <= i < |ms| :: ms[i] == Move(from[added[i]], added[i])
  {
    seq(|added|, i requires 0 <= i < |added| => Move(from[added[i]], added[i]))
  }

  /** A continuation is a matching of every new entry. */
  lemma {:induction false} ContinuationMatches(base: seq<Entry>, head: seq<Entry>, v: View, from: map<Entry, Entry>)
    requires Continued(base, head, v, from)
    ensures var added, removed := OnlyIn(Uniq(head, v), base, v), OnlyIn(Uniq(base, v), head, v);
      (forall e | e in added :: e in from) && IsMatching(Proposed(added, from), added, removed, KeyOf(v.naming))
  {
    var added, removed := OnlyIn(Uniq(head, v), base, v), OnlyIn(Uniq(base, v), head, v);
    forall e | e in added ensures e in from { OnlyInMembers(head, base, v, e); }
    OnlyInDistinct(head, base, v);
    OriginsWithin(base, head, v, from, added);
    var ms := Proposed(added, from);
    forall i | 0 <= i < |ms| ensures Matches(ms[i].from, ms[i].to, KeyOf(v.naming)) {
      assert added[i] in from;
      MoveIsKeyEquality(ms[i].from, ms[i].to, v.naming);
    }
  }

  lemma {:induction false} OriginsWithin(
    base: seq<Entry>, head: seq<Entry>, v: View, from: map<Entry, Entry>, added: seq<Entry>)
    requires Continued(base, head, v, from) && DistinctKeys(added, v) && forall e | e in added :: e in from
    ensures multiset(Froms(Proposed(added, from))) <= multiset(OnlyIn(Uniq(base, v), head, v))
  {
    var froms, removed := Froms(Proposed(added, from)), OnlyIn(Uniq(base, v), head, v);
    assert forall i | 0 <= i < |froms| :: froms[i] == from[added[i]] && added[i] in from;
    forall x | x in froms ensures x in removed { OnlyInMembers(base, head, v, x); }
    DistinctWithin(froms, removed);
  }

  lemma {:induction false} ContinuationPairs(base: seq<Entry>, head: seq<Entry>, v: View, from: map<Entry, Entry>)
    requires Continued(base, head, v, from)
    ensures DiffOf(base, head, v).added == []
  {
    var added, removed := OnlyIn(Uniq(head, v), base, v), OnlyIn(Uniq(base, v), head, v);
    ContinuationMatches(base, head, v, from);
    PairingIsMaximum(added, removed, KeyOf(v.naming), Proposed(added, from));
    PairPartitions(added, removed, KeyOf(v.naming));
    PartSizes(added, removed, Pair(added, removed, KeyOf(v.naming)));
  }

  lemma {:induction false} MoveReads(base: seq<Entry>, head: seq<Entry>, v: View, m: Move<Entry>)
    requires m in DiffOf(base, head, v).moved
    ensures SameDeclaration(m.from, m.to, v) && Current(base, m.from, v) && !Names(head, v.id(m.from), v)
  {
    var added, removed := OnlyIn(Uniq(head, v), base, v), OnlyIn(Uniq(base, v), head, v);
    var p := Pair(added, removed, KeyOf(v.naming));
    PairMatches(added, removed, KeyOf(v.naming));
    MoveIsKeyEquality(m.from, m.to, v.naming);
    var i :| 0 <= i < |p.moved| && p.moved[i] == m;
    MoveFacts(base, head, v, i);
    LookupIsCurrent(base, m.from, v);
    LookupNames(head, v.id(m.from), v);
  }

  /** Every new entry the pairing leaves unreported was moved. */
  lemma {:induction false} NewEntryMoved(base: seq<Entry>, head: seq<Entry>, v: View, e: Entry) returns (b: Entry)
    requires DiffOf(base, head, v).added == [] && e in NewEntries(base, head, v)
    ensures Move(b, e) in DiffOf(base, head, v).moved
  {
    var added, removed := OnlyIn(Uniq(head, v), base, v), OnlyIn(Uniq(base, v), head, v);
    var p := Pair(added, removed, KeyOf(v.naming));
    PairPartitions(added, removed, KeyOf(v.naming));
    OnlyInMembers(head, base, v, e);
    assert e in multiset(added);
    assert e in multiset(Tos(p.moved));
    var i :| 0 <= i < |Tos(p.moved)| && Tos(p.moved)[i] == e;
    b := p.moved[i].from;
    assert p.moved[i] == Move(b, e);
  }

  /** The continuation the pairing found. */
  lemma {:induction false} FoundContinuation(base: seq<Entry>, head: seq<Entry>, v: View)
    returns (from: map<Entry, Entry>)
    requires DiffOf(base, head, v).added == []
    ensures Continued(base, head, v, from)
  {
    var moved := DiffOf(base, head, v).moved;
    forall e | e in NewEntries(base, head, v) ensures exists b :: Move(b, e) in moved {
      var b := NewEntryMoved(base, head, v, e);
    }
    from := map e | e in NewEntries(base, head, v) :: var b :| Move(b, e) in moved; b;
    forall e | e in from
      ensures SameDeclaration(from[e], e, v) && Current(base, from[e], v) && !Names(head, v.id(from[e]), v)
    {
      MoveReads(base, head, v, Move(from[e], e));
    }
    forall e, f | e in from && f in from && e != f ensures from[e] != from[f] {
      MovedApart(base, head, v, e, from[e], f, from[f]);
    }
  }

  /** With moves approved a change passes exactly when no stamp rose and the new entries continue
      dropped ones, one to one. */
  lemma {:induction false} PassesWithMovesExactly(base: seq<Entry>, head: seq<Entry>, v: View)
    ensures RatchetViolations(DiffOf(base, head, v), true) == [] <==>
            NoneRaised(base, head, v) && exists from :: Continued(base, head, v, from)
  {
    ViolationsExact(DiffOf(base, head, v), true);
    RaisedExact(base, head, v);
    if DiffOf(base, head, v).added == [] {
      var from := FoundContinuation(base, head, v);
    }
    if from :| Continued(base, head, v, from) { ContinuationPairs(base, head, v, from); }
  }
}
