/** The complexity-baseline ratchet (scripts/complexity-baseline/scan.ts): the diff of two
    acceptance lists, the pairing of moves, and what a change may never do. */
module Ratchet {
  import opened Wrappers
  import opened Text
  import opened Seqs
  import opened Pairing

  datatype Rule = CognitiveComplexity | LinesPerFunction

  function RuleName(r: Rule): string
  {
    if r.CognitiveComplexity? then "noExcessiveCognitiveComplexity" else "noExcessiveLinesPerFunction"
  }

  /** `declarationName`: which name, if any, a declaration line binds. Any function will do. */
  type Naming = string -> Option<string>

  /** How the diff reads an entry: its identity, the rule an identity belongs to, and the name a
      declaration line binds. */
  datatype View = View(id: Entry -> string, ruleOf: string -> Rule, naming: Naming)

  datatype Entry = Entry(file: string, rule: Rule, anchor: string, accepted: int, sentence: string)

  const DASH := '\U{2014}'

  const SEPARATOR: string := [' ', DASH, ' ']

  function EntryKey(e: Entry): string { RuleName(e.rule) + " " + e.file + SEPARATOR + e.anchor }

  // ----- lists as maps keyed by identity -----

  /** The entry a map built from the list holds for a key: the last one. */
  function Lookup(es: seq<Entry>, key: string, v: View): (r: Option<Entry>)
    ensures r.Some? ==> r.value in es && v.id(r.value) == key
    ensures r.None? ==> forall e | e in es :: v.id(e) != key
  {
    if es == [] then None
    else
      var k := |es| - 1;
      assert es == es[..k] + [es[k]];
      if v.id(es[k]) == key then Some(es[k]) else Lookup(es[..k], key, v)
  }

  predicate DistinctKeys(es: seq<Entry>, v: View)
  {
    forall i, j | 0 <= i < j < |es| :: v.id(es[i]) != v.id(es[j])
  }

  function IndexOfKey(es: seq<Entry>, key: string, v: View): (r: Option<nat>)
    ensures r.Some? ==> r.value < |es| && v.id(es[r.value]) == key
    ensures r.None? ==> forall i | 0 <= i < |es| :: v.id(es[i]) != key
  {
    if es == [] then None
    else if v.id(es[|es| - 1]) == key then Some(|es| - 1)
    else IndexOfKey(es[..|es| - 1], key, v)
  }

  /** The map's entries, in order of first occurrence of their keys. */
  function Uniq(es: seq<Entry>, v: View): (r: seq<Entry>)
    ensures DistinctKeys(r, v)
  {
    if es == [] then []
    else
      var e := es[|es| - 1];
      var head := Uniq(es[..|es| - 1], v);
      var i := IndexOfKey(head, v.id(e), v);
      if i.Some? then head[i.value := e] else head + [e]
  }

  lemma LookupOfDistinct(es: seq<Entry>, e: Entry, v: View)
    requires DistinctKeys(es, v) && e in es
    ensures Lookup(es, v.id(e), v) == Some(e)
  {
    var f := Lookup(es, v.id(e), v).value;
    var i :| 0 <= i < |es| && es[i] == e;
    var j :| 0 <= j < |es| && es[j] == f;
    assert i == j;
  }

  /** The map's entries are exactly what it looks up. */
  lemma {:induction false} UniqMembers(es: seq<Entry>, e: Entry, v: View)
    ensures e in Uniq(es, v) <==> Lookup(es, v.id(e), v) == Some(e)
  {
    if es != [] {
      var k := |es| - 1;
      var last, head := es[k], Uniq(es[..k], v);
      UniqMembers(es[..k], e, v);
      var i := IndexOfKey(head, v.id(last), v);
      if i.Some? {
        UpdateMembers(head, i.value, last, e, v);
      }
    }
  }

  lemma UpdateMembers(xs: seq<Entry>, i: nat, x: Entry, e: Entry, v: View)
    requires i < |xs| && DistinctKeys(xs, v) && v.id(xs[i]) == v.id(x)
    ensures e in xs[i := x] <==> if v.id(e) == v.id(x) then e == x else e in xs
  {
    var ys := xs[i := x];
    if e in ys {
      var j :| 0 <= j < |ys| && ys[j] == e;
      if j != i { assert xs[j] == e; }
    }
    if e in xs && v.id(e) != v.id(x) {
      var j :| 0 <= j < |xs| && xs[j] == e;
      assert ys[j] == e;
    }
    assert ys[i] == x;
  }

  // ----- moves -----

  datatype MoveKey = MoveKey(rule: Rule, accepted: int, sentence: string, name: string)

  predicate IsMoveOf(from: Entry, to: Entry, naming: Naming)
  {
    from.rule == to.rule && from.accepted == to.accepted && from.sentence == to.sentence &&
    naming(from.anchor).Some? && naming(from.anchor) == naming(to.anchor)
  }

  /** What continues across a move; None where the declaration has no name. */
  function KeyOf(naming: Naming): Entry -> Option<MoveKey>
  {
    (e: Entry) =>
      var name := naming(e.anchor);
      if name.None? then None else Some(MoveKey(e.rule, e.accepted, e.sentence, name.value))
  }

  lemma MoveIsKeyEquality(from: Entry, to: Entry, naming: Naming)
    ensures IsMoveOf(from, to, naming) <==> Matches(from, to, KeyOf(naming))
  {
  }

  /** `pairMoves`: greedy, splicing each match out of the pool. */
  method PairMoves(added: seq<Entry>, removed: seq<Entry>, v: View) returns (r: Paired<Entry>)
    ensures r == Pair(added, removed, KeyOf(v.naming))
  {
    var pool, moved, unpaired := removed, [], [];
    for n := 0 to |added|
      invariant Pair(added[..n], removed, KeyOf(v.naming)) == Paired(unpaired, pool, moved)
    {
      assert added[..n + 1][..n] == added[..n];
      var i := FindMatch(pool, added[n], KeyOf(v.naming));
      if i.None? {
        unpaired := unpaired + [added[n]];
      } else {
        moved := moved + [Move(pool[i.value], added[n])];
        pool := Splice(pool, i.value);
      }
    }
    assert added[..|added|] == added;
    return Paired(unpaired, pool, moved);
  }

  // ----- the diff -----

  datatype Restamp = Restamp(key: string, from: int, to: int)

  datatype Diff = Diff(
    added: seq<Entry>, removed: seq<Entry>, moved: seq<Move<Entry>>, restamped: seq<Restamp>, reworded: seq<string>)

  function OnlyIn(es: seq<Entry>, other: seq<Entry>, v: View): seq<Entry>
  {
    Filter(es, (e: Entry) => Lookup(other, v.id(e), v).None?)
  }

  function Restamped(es: seq<Entry>, base: seq<Entry>, v: View): seq<Restamp>
  {
    if es == [] then []
    else
      var e, was := es[|es| - 1], Lookup(base, v.id(es[|es| - 1]), v);
      Restamped(es[..|es| - 1], base, v) +
      if was.Some? && was.value.accepted != e.accepted then [Restamp(v.id(e), was.value.accepted, e.accepted)] else []
  }

  function Reworded(es: seq<Entry>, base: seq<Entry>, v: View): seq<string>
  {
    if es == [] then []
    else
      var e, was := es[|es| - 1], Lookup(base, v.id(es[|es| - 1]), v);
      Reworded(es[..|es| - 1], base, v) +
      if was.Some? && was.value.accepted == e.accepted && was.value.sentence != e.sentence then [v.id(e)] else []
  }

  lemma {:induction false} DiffSnoc(es: seq<Entry>, e: Entry, base: seq<Entry>, v: View)
    ensures var was := Lookup(base, v.id(e), v);
      && OnlyIn(es + [e], base, v) == OnlyIn(es, base, v) + (if was.None? then [e] else [])
      && Restamped(es + [e], base, v) == Restamped(es, base, v) +
           (if was.Some? && was.value.accepted != e.accepted
            then [Restamp(v.id(e), was.value.accepted, e.accepted)] else [])
      && Reworded(es + [e], base, v) == Reworded(es, base, v) +
           (if was.Some? && was.value.accepted == e.accepted && was.value.sentence != e.sentence then [v.id(e)] else [])
  {
    FilterSnoc(es, e, (x: Entry) => Lookup(base, v.id(x), v).None?);
    assert (es + [e])[..|es|] == es;
  }

  function DiffOf(base: seq<Entry>, head: seq<Entry>, v: View): Diff
  {
    var pinned, seen := Uniq(base, v), Uniq(head, v);
    var p := Pair(OnlyIn(seen, base, v), OnlyIn(pinned, head, v), KeyOf(v.naming));
    Diff(p.added, p.removed, p.moved, Restamped(seen, base, v), Reworded(seen, base, v))
  }

  /** `diffEntries`: one pass over the head's entries, then the removed ones, then the moves. */
  method DiffEntries(base: seq<Entry>, head: seq<Entry>, v: View) returns (d: Diff)
    ensures d == DiffOf(base, head, v)
  {
    var pinned, seen := Uniq(base, v), Uniq(head, v);
    var added: seq<Entry> := [];
    var restamped: seq<Restamp> := [];
    var reworded: seq<string> := [];
    for n := 0 to |seen|
      invariant added == OnlyIn(seen[..n], base, v)
      invariant restamped == Restamped(seen[..n], base, v)
      invariant reworded == Reworded(seen[..n], base, v)
    {
      var e := seen[n];
      assert seen[..n + 1] == seen[..n] + [e];
      DiffSnoc(seen[..n], e, base, v);
      var was := Lookup(base, v.id(e), v);
      if was.None? {
        added := added + [e];
      } else if was.value.accepted != e.accepted {
        restamped := restamped + [Restamp(v.id(e), was.value.accepted, e.accepted)];
      } else if was.value.sentence != e.sentence {
        reworded := reworded + [v.id(e)];
      }
    }
    assert seen[..|seen|] == seen;
    var removed := OnlyIn(pinned, head, v);
    var p := PairMoves(added, removed, v);
    return Diff(p.added, p.removed, p.moved, restamped, reworded);
  }

  // ----- the ratchet -----

  datatype Violation = Added(e: Entry) | Raised(r: Restamp) | Moved(m: Move<Entry>)

  function AddedViolations(es: seq<Entry>): (r: seq<Violation>)
    ensures |r| == |es|
  {
    seq(|es|, i requires 0 <= i < |es| => Added(es[i]))
  }

  function RaisedViolations(rs: seq<Restamp>): (r: seq<Violation>)
    ensures r == [] <==> forall x | x in rs :: x.to <= x.from
  {
    if rs == [] then []
    else
      var k := |rs| - 1;
      assert rs == rs[..k] + [rs[k]];
      RaisedViolations(rs[..k]) + if rs[k].to > rs[k].from then [Raised(rs[k])] else []
  }

  function MovedViolations(ms: seq<Move<Entry>>): (r: seq<Violation>)
    ensures |r| == |ms|
  {
    seq(|ms|, i requires 0 <= i < |ms| => Moved(ms[i]))
  }

  function RatchetViolations(d: Diff, movesApproved: bool): seq<Violation>
  {
    AddedViolations(d.added) + RaisedViolations(d.restamped) + if movesApproved then [] else MovedViolations(d.moved)
  }

  lemma NoViolations(d: Diff, movesApproved: bool)
    requires RatchetViolations(d, movesApproved) == []
    ensures d.added == [] && (forall x | x in d.restamped :: x.to <= x.from) && (movesApproved || d.moved == [])
  {
    assert |RatchetViolations(d, movesApproved)| ==
      |AddedViolations(d.added)| + |RaisedViolations(d.restamped)| +
      |if movesApproved then [] else MovedViolations(d.moved)|;
  }

  lemma {:induction false} RestampedHas(es: seq<Entry>, base: seq<Entry>, e: Entry, v: View)
    requires e in es && Lookup(base, v.id(e), v).Some? && Lookup(base, v.id(e), v).value.accepted != e.accepted
    ensures Restamp(v.id(e), Lookup(base, v.id(e), v).value.accepted, e.accepted) in Restamped(es, base, v)
  {
    var k := |es| - 1;
    if e != es[k] {
      assert es == es[..k] + [es[k]];
      RestampedHas(es[..k], base, e, v);
    }
  }

  /** Head entry e is covered by base entry b: same rule, stamp no higher. */
  predicate Covers(b: Entry, e: Entry) { b.rule == e.rule && e.accepted <= b.accepted }

  /** Identities determine rules. */
  ghost predicate KeepsRule(v: View)
  {
    forall e :: v.ruleOf(v.id(e)) == e.rule
  }

  lemma KeptEntryCovered(base: seq<Entry>, head: seq<Entry>, v: View, approved: bool, e: Entry)
    requires KeepsRule(v)
    requires RatchetViolations(DiffOf(base, head, v), approved) == []
    requires e in Uniq(head, v) && Lookup(base, v.id(e), v).Some?
    ensures Covers(Lookup(base, v.id(e), v).value, e)
  {
    NoViolations(DiffOf(base, head, v), approved);
    var was := Lookup(base, v.id(e), v).value;
    if was.accepted != e.accepted {
      RestampedHas(Uniq(head, v), base, e, v);
    }
  }

  // ----- with approved moves -----

  /** The head's new entries are exactly those the pairing moved. */
  lemma EveryNewEntryMoved(base: seq<Entry>, head: seq<Entry>, v: View, e: Entry) returns (i: nat)
    requires RatchetViolations(DiffOf(base, head, v), true) == []
    requires e in Uniq(head, v) && Lookup(base, v.id(e), v).None?
    ensures i < |DiffOf(base, head, v).moved| && DiffOf(base, head, v).moved[i].to == e
  {
    NoViolations(DiffOf(base, head, v), true);
    var added, removed := OnlyIn(Uniq(head, v), base, v), OnlyIn(Uniq(base, v), head, v);
    var p := Pair(added, removed, KeyOf(v.naming));
    PairPartitions(added, removed, KeyOf(v.naming));
    assert e in added;
    assert e in multiset(added);
    assert e in multiset(Tos(p.moved));
    assert e in Tos(p.moved);
    i :| 0 <= i < |Tos(p.moved)| && Tos(p.moved)[i] == e;
  }

  lemma ApprovalIsWeaker(d: Diff)
    requires RatchetViolations(d, false) == []
    ensures RatchetViolations(d, true) == []
  {
    NoViolations(d, false);
    assert AddedViolations(d.added) == [] && RaisedViolations(d.restamped) == [];
  }

  /** Without approved moves the ratchet only shrinks: every head identity is a base identity, with
      the same rule and a stamp no higher. */
  lemma ShrinksWithoutMoves(base: seq<Entry>, head: seq<Entry>, v: View, e: Entry)
    requires KeepsRule(v)
    requires RatchetViolations(DiffOf(base, head, v), false) == [] && e in Uniq(head, v)
    ensures Lookup(base, v.id(e), v).Some? && Covers(Lookup(base, v.id(e), v).value, e)
  {
    NoViolations(DiffOf(base, head, v), false);
    ApprovalIsWeaker(DiffOf(base, head, v));
    if Lookup(base, v.id(e), v).None? {
      var i := EveryNewEntryMoved(base, head, v, e);
    } else {
      KeptEntryCovered(base, head, v, false, e);
    }
  }

  lemma MoveFacts(base: seq<Entry>, head: seq<Entry>, v: View, i: nat)
    requires i < |DiffOf(base, head, v).moved|
    ensures var m := DiffOf(base, head, v).moved[i];
      && Lookup(base, v.id(m.from), v) == Some(m.from) && Lookup(head, v.id(m.from), v).None? && Covers(m.from, m.to)
  {
    var added, removed := OnlyIn(Uniq(head, v), base, v), OnlyIn(Uniq(base, v), head, v);
    var p := Pair(added, removed, KeyOf(v.naming));
    PairPartitions(added, removed, KeyOf(v.naming));
    PairMatches(added, removed, KeyOf(v.naming));
    var m := p.moved[i];
    assert Froms(p.moved)[i] == m.from;
    assert m.from in multiset(Froms(p.moved));
    assert m.from in multiset(removed);
    assert m.from in removed;
    UniqMembers(base, m.from, v);
    MoveIsKeyEquality(m.from, m.to, v.naming);
  }

  lemma {:induction false} OnceInDistinct(es: seq<Entry>, x: Entry, v: View)
    requires DistinctKeys(es, v)
    ensures multiset(es)[x] <= 1
  {
    if es != [] {
      var k := |es| - 1;
      assert es == es[..k] + [es[k]];
      OnceInDistinct(es[..k], x, v);
      assert x in es[..k] ==> exists i | 0 <= i < k :: es[i] == x;
    }
  }

  lemma TwiceInBag(xs: seq<Entry>, i: nat, j: nat)
    requires i < j < |xs| && xs[i] == xs[j]
    ensures multiset(xs)[xs[i]] >= 2
  {
    assert xs == xs[..j] + [xs[j]] + xs[j + 1..];
    assert xs[..j][i] == xs[i];
    assert xs[i] in multiset(xs[..j]);
  }

  lemma {:induction false} FilterDistinct(es: seq<Entry>, keep: Entry -> bool, v: View)
    requires DistinctKeys(es, v)
    ensures DistinctKeys(Filter(es, keep), v)
  {
    if es != [] {
      assert forall i | 0 <= i < |es| - 1 :: es[1..][i] == es[i + 1];
      FilterDistinct(es[1..], keep, v);
      var rest := Filter(es[1..], keep);
      forall i | 0 <= i < |rest| ensures v.id(rest[i]) != v.id(es[0]) {
        assert rest[i] in rest;
        var j :| 0 <= j < |es[1..]| && es[1..][j] == rest[i];
        assert es[j + 1] == rest[i];
      }
    }
  }

  /** No base entry is the origin of two moves. */
  lemma MovesUseDistinctOrigins(base: seq<Entry>, head: seq<Entry>, v: View, i: nat, j: nat)
    requires i < j < |DiffOf(base, head, v).moved|
    ensures var ms := DiffOf(base, head, v).moved; v.id(ms[i].from) != v.id(ms[j].from)
  {
    var added, removed := OnlyIn(Uniq(head, v), base, v), OnlyIn(Uniq(base, v), head, v);
    var p := Pair(added, removed, KeyOf(v.naming));
    PairPartitions(added, removed, KeyOf(v.naming));
    var froms := Froms(p.moved);
    MoveFacts(base, head, v, i);
    MoveFacts(base, head, v, j);
    if v.id(froms[i]) == v.id(froms[j]) {
      TwiceInBag(froms, i, j);
      FilterDistinct(Uniq(base, v), (e: Entry) => Lookup(head, v.id(e), v).None?, v);
      OnceInDistinct(removed, froms[i], v);
      assert false;
    }
  }

  ghost function HeadKeys(es: seq<Entry>, v: View): set<string>
  {
    set e | e in es :: v.id(e)
  }

  ghost predicate Injective(f: map<string, string>)
  {
    forall a, b | a in f && b in f && a != b :: f[a] != f[b]
  }

  /** Every head identity goes back to a base identity of the same rule with a stamp no lower, and
      no two go back to the same one. */
  ghost predicate Dominated(base: seq<Entry>, head: seq<Entry>, f: map<string, string>, v: View)
  {
    && f.Keys == HeadKeys(head, v) && Injective(f)
    && forall k | k in f :: Lookup(base, f[k], v).Some? && Lookup(head, k, v).Some? &&
                            Covers(Lookup(base, f[k], v).value, Lookup(head, k, v).value)
  }

  /** The base entry a head entry continues. */
  ghost predicate Continues(base: seq<Entry>, d: Diff, e: Entry, b: Entry, v: View)
  {
    Lookup(base, v.id(e), v) == Some(b) ||
    (Lookup(base, v.id(e), v).None? && exists i | 0 <= i < |d.moved| :: d.moved[i] == Move(b, e))
  }

  lemma OriginOf(base: seq<Entry>, head: seq<Entry>, v: View, e: Entry) returns (b: Entry)
    requires KeepsRule(v)
    requires RatchetViolations(DiffOf(base, head, v), true) == [] && e in Uniq(head, v)
    ensures Continues(base, DiffOf(base, head, v), e, b, v)
    ensures Lookup(base, v.id(b), v) == Some(b) && Covers(b, e)
  {
    var d := DiffOf(base, head, v);
    if Lookup(base, v.id(e), v).Some? {
      b := Lookup(base, v.id(e), v).value;
      KeptEntryCovered(base, head, v, true, e);
    } else {
      var i := EveryNewEntryMoved(base, head, v, e);
      MoveFacts(base, head, v, i);
      b := d.moved[i].from;
      assert d.moved[i] == Move(b, e);
    }
  }

  lemma {:induction false} MovedApart(
    base: seq<Entry>, head: seq<Entry>, v: View, e1: Entry, b1: Entry, e2: Entry, b2: Entry)
    requires Move(b1, e1) in DiffOf(base, head, v).moved && Move(b2, e2) in DiffOf(base, head, v).moved && e1 != e2
    ensures v.id(b1) != v.id(b2)
  {
    var ms := DiffOf(base, head, v).moved;
    var i :| 0 <= i < |ms| && ms[i] == Move(b1, e1);
    var j :| 0 <= j < |ms| && ms[j] == Move(b2, e2);
    if i < j { MovesUseDistinctOrigins(base, head, v, i, j); } else { MovesUseDistinctOrigins(base, head, v, j, i); }
  }

  lemma MovedAway(base: seq<Entry>, head: seq<Entry>, v: View, e: Entry, b: Entry)
    requires Move(b, e) in DiffOf(base, head, v).moved
    ensures Lookup(head, v.id(b), v).None?
  {
    var ms := DiffOf(base, head, v).moved;
    var i :| 0 <= i < |ms| && ms[i] == Move(b, e);
    MoveFacts(base, head, v, i);
  }

  lemma {:induction false} OriginsDiffer(
    base: seq<Entry>, head: seq<Entry>, v: View, e1: Entry, b1: Entry, e2: Entry, b2: Entry)
    requires e1 in Uniq(head, v) && e2 in Uniq(head, v) && v.id(e1) != v.id(e2)
    requires Continues(base, DiffOf(base, head, v), e1, b1, v) && Continues(base, DiffOf(base, head, v), e2, b2, v)
    ensures v.id(b1) != v.id(b2)
  {
    UniqMembers(head, e1, v);
    UniqMembers(head, e2, v);
    var new1, new2 := Lookup(base, v.id(e1), v).None?, Lookup(base, v.id(e2), v).None?;
    if new1 && new2 {
      MovedApart(base, head, v, e1, b1, e2, b2);
    } else if new1 {
      MovedAway(base, head, v, e1, b1);
    } else if new2 {
      MovedAway(base, head, v, e2, b2);
    }
  }

  /** With approved moves there is still a rule-preserving, stamp-dominating injection from the
      head's identities into the base's. */
  lemma ShrinksWithMoves(base: seq<Entry>, head: seq<Entry>, v: View) returns (f: map<string, string>)
    requires KeepsRule(v)
    requires RatchetViolations(DiffOf(base, head, v), true) == []
    ensures Dominated(base, head, f, v)
  {
    f := Trace(base, head, v, Uniq(head, v));
    assert f.Keys == HeadKeys(head, v) by {
      forall e | e in head ensures v.id(e) in f {
        var last := Lookup(head, v.id(e), v).value;
        UniqMembers(head, last, v);
      }
      forall k | k in f ensures k in HeadKeys(head, v) {
        var e, b :| e in Uniq(head, v) && v.id(e) == k && IsOrigin(base, head, v, e, b, f[k]);
        UniqMembers(head, e, v);
      }
    }
    forall k | k in f
      ensures Lookup(base, f[k], v).Some? && Lookup(head, k, v).Some?
      ensures Covers(Lookup(base, f[k], v).value, Lookup(head, k, v).value)
    {
      var e, b :| e in Uniq(head, v) && v.id(e) == k && IsOrigin(base, head, v, e, b, f[k]);
      UniqMembers(head, e, v);
    }
    forall k, l | k in f && l in f && k != l ensures f[k] != f[l] {
      var e1, b1 :| e1 in Uniq(head, v) && v.id(e1) == k && IsOrigin(base, head, v, e1, b1, f[k]);
      var e2, b2 :| e2 in Uniq(head, v) && v.id(e2) == l && IsOrigin(base, head, v, e2, b2, f[l]);
      OriginsDiffer(base, head, v, e1, b1, e2, b2);
    }
  }

  ghost predicate IsOrigin(base: seq<Entry>, head: seq<Entry>, v: View, e: Entry, b: Entry, key: string)
  {
    && Continues(base, DiffOf(base, head, v), e, b, v)
    && Lookup(base, v.id(b), v) == Some(b) && Covers(b, e) && key == v.id(b)
  }

  lemma {:induction false} Trace(base: seq<Entry>, head: seq<Entry>, v: View, es: seq<Entry>)
    returns (f: map<string, string>)
    requires KeepsRule(v)
    requires RatchetViolations(DiffOf(base, head, v), true) == []
    requires forall e | e in es :: e in Uniq(head, v)
    ensures forall e | e in es :: v.id(e) in f
    ensures forall k | k in f :: exists e, b :: e in es && v.id(e) == k && IsOrigin(base, head, v, e, b, f[k])
    decreases |es|
  {
    if es == [] {
      f := map[];
    } else {
      var k := |es| - 1;
      var e := es[k];
      assert es == es[..k] + [e];
      var g := Trace(base, head, v, es[..k]);
      var b := OriginOf(base, head, v, e);
      f := g[v.id(e) := v.id(b)];
      forall key | key in f ensures exists x, y :: x in es && v.id(x) == key && IsOrigin(base, head, v, x, y, f[key]) {
        if key == v.id(e) {
          assert e in es && IsOrigin(base, head, v, e, b, f[key]);
        } else {
          var x, y :| x in es[..k] && v.id(x) == key && IsOrigin(base, head, v, x, y, g[key]);
          assert x in es;
        }
      }
    }
  }

  // ----- counts per rule -----

  function CountRule(es: seq<Entry>, r: Rule): nat
  {
    if es == [] then 0 else CountRule(es[..|es| - 1], r) + if es[|es| - 1].rule == r then 1 else 0
  }

  ghost function RuleKeys(es: seq<Entry>, r: Rule, v: View): set<string>
  {
    set e | e in es && e.rule == r :: v.id(e)
  }

  lemma RuleKeysSnoc(init: seq<Entry>, e: Entry, r: Rule, v: View)
    ensures RuleKeys(init + [e], r, v) == RuleKeys(init, r, v) + if e.rule == r then {v.id(e)} else {}
  {
    assert forall x :: x in init + [e] <==> x in init || x == e;
  }

  lemma KeyIsNew(init: seq<Entry>, e: Entry, r: Rule, v: View)
    requires DistinctKeys(init + [e], v)
    ensures v.id(e) !in RuleKeys(init, r, v)
  {
    var es := init + [e];
    forall x | x in init ensures v.id(x) != v.id(e) {
      var i :| 0 <= i < |init| && init[i] == x;
      assert es[i] == x && es[|init|] == e;
    }
  }

  lemma {:induction false} CountIsKeys(es: seq<Entry>, r: Rule, v: View)
    ensures |RuleKeys(es, r, v)| <= CountRule(es, r)
    ensures DistinctKeys(es, v) ==> |RuleKeys(es, r, v)| == CountRule(es, r)
  {
    if es != [] {
      var init, e := SplitLast(es);
      assert es[..|es| - 1] == init;
      CountIsKeys(init, r, v);
      RuleKeysSnoc(init, e, r, v);
      if DistinctKeys(es, v) {
        KeyIsNew(init, e, r, v);
        assert DistinctKeys(init, v) by {
          assert forall i | 0 <= i < |init| :: init[i] == es[i];
        }
      }
    }
  }

  lemma {:induction false} InjectionSize(a: set<string>, b: set<string>, f: map<string, string>)
    requires a <= f.Keys && Injective(f) && forall k | k in a :: f[k] in b
    ensures |a| <= |b|
    decreases |a|
  {
    if a != {} {
      var x :| x in a;
      InjectionSize(a - {x}, b - {f[x]}, f);
    }
  }

  /** A violation-free change, moves approved or not, never raises a rule's count. */
  lemma {:induction false} CountsNeverGrow(base: seq<Entry>, head: seq<Entry>, v: View, approved: bool, r: Rule)
    requires KeepsRule(v) && DistinctKeys(head, v)
    requires RatchetViolations(DiffOf(base, head, v), approved) == []
    ensures CountRule(head, r) <= CountRule(base, r)
  {
    if !approved { ApprovalIsWeaker(DiffOf(base, head, v)); }
    var f := ShrinksWithMoves(base, head, v);
    var a, b := RuleKeys(head, r, v), RuleKeys(base, r, v);
    forall k | k in a ensures k in f && f[k] in b {
      var e :| e in head && e.rule == r && v.id(e) == k;
      LookupOfDistinct(head, e, v);
      var origin := Lookup(base, f[k], v).value;
      assert origin in base && origin.rule == r;
    }
    InjectionSize(a, b, f);
    CountIsKeys(head, r, v);
    CountIsKeys(base, r, v);
  }

  /** One accepted change between duplicate-free manifests. */
  ghost predicate Passes(base: seq<Entry>, head: seq<Entry>, approved: bool, v: View)
  {
    DistinctKeys(base, v) && DistinctKeys(head, v) && RatchetViolations(DiffOf(base, head, v), approved) == []
  }

  /** A chain of accepted changes: each manifest passes the ratchet against the one before. */
  ghost predicate Chain(manifests: seq<seq<Entry>>, approved: seq<bool>, v: View)
  {
    Linked(manifests, approved, Step(v))
  }

  ghost function Step(v: View): (seq<Entry>, seq<Entry>, bool) -> bool
  {
    (base: seq<Entry>, head: seq<Entry>, approved: bool) => Passes(base, head, approved, v)
  }

  ghost predicate Linked<M(!new)>(ms: seq<M>, flags: seq<bool>, step: (M, M, bool) -> bool)
  {
    |ms| == |flags| + 1 && forall i {:trigger flags[i]} | 0 <= i < |flags| :: step(ms[i], ms[i + 1], flags[i])
  }

  lemma LinkedInit<M(!new)>(ms: seq<M>, flags: seq<bool>, step: (M, M, bool) -> bool)
    requires Linked(ms, flags, step) && |flags| > 0
    ensures Linked(ms[..|flags|], flags[..|flags| - 1], step)
  {
    var init := flags[..|flags| - 1];
    forall i | 0 <= i < |init| ensures step(ms[i], ms[i + 1], init[i]) {
      assert init[i] == flags[i];
    }
  }

  lemma LinkedAt<M(!new)>(ms: seq<M>, flags: seq<bool>, step: (M, M, bool) -> bool, i: nat)
    requires Linked(ms, flags, step) && 0 < i < |ms|
    ensures step(ms[i - 1], ms[i], flags[i - 1])
  {
  }

  lemma StepShrinksCounts(base: seq<Entry>, head: seq<Entry>, v: View, approved: bool, r: Rule)
    requires KeepsRule(v) && Passes(base, head, approved, v)
    ensures CountRule(head, r) <= CountRule(base, r)
  {
    CountsNeverGrow(base, head, v, approved, r);
  }

  lemma {:induction false} NonIncreasing<M>(ms: seq<M>, size: M -> nat, n: nat)
    requires n < |ms| && forall i {:trigger ms[i]} | 0 < i < |ms| :: size(ms[i]) <= size(ms[i - 1])
    ensures size(ms[n]) <= size(ms[0])
  {
    if n > 0 { NonIncreasing(ms, size, n - 1); }
  }

  lemma {:induction false} ChainStep(manifests: seq<seq<Entry>>, approved: seq<bool>, v: View, r: Rule, i: nat)
    requires KeepsRule(v) && Chain(manifests, approved, v) && 0 < i < |manifests|
    ensures CountRule(manifests[i], r) <= CountRule(manifests[i - 1], r)
  {
    LinkedAt(manifests, approved, Step(v), i);
    StepShrinksCounts(manifests[i - 1], manifests[i], v, approved[i - 1], r);
  }

  /** Across any chain of accepted changes per-rule counts only shrink. */
  lemma {:induction false} ChainShrinksCounts(manifests: seq<seq<Entry>>, approved: seq<bool>, v: View, r: Rule)
    requires KeepsRule(v) && Chain(manifests, approved, v)
    ensures CountRule(manifests[|approved|], r) <= CountRule(manifests[0], r)
  {
    var size := (m: seq<Entry>) => CountRule(m, r);
    forall i | 0 < i < |manifests| ensures size(manifests[i]) <= size(manifests[i - 1]) {
      ChainStep(manifests, approved, v, r, i);
    }
    NonIncreasing(manifests, size, |approved|);
  }

  /** An identity of a later manifest, traced to its entry in the earlier one. */
  ghost predicate Traced(base: seq<Entry>, e: Entry, v: View)
  {
    Lookup(base, v.id(e), v).Some? && Covers(Lookup(base, v.id(e), v).value, e)
  }

  lemma StepShrinksIdentities(base: seq<Entry>, head: seq<Entry>, v: View, e: Entry) returns (b: Entry)
    requires KeepsRule(v) && Passes(base, head, false, v) && e in head
    ensures b in base && v.id(b) == v.id(e) && Covers(b, e) && Traced(base, e, v)
  {
    LookupOfDistinct(head, e, v);
    UniqMembers(head, e, v);
    ShrinksWithoutMoves(base, head, v, e);
    b := Lookup(base, v.id(e), v).value;
  }

  /** No step of the chain had its moves approved. */
  predicate NoneApproved(approved: seq<bool>)
  {
    forall i | 0 <= i < |approved| :: !approved[i]
  }

  /** A chain is a shorter chain and one more change. */
  lemma {:induction false} ChainParts(manifests: seq<seq<Entry>>, approved: seq<bool>, v: View)
    returns (earlier: seq<seq<Entry>>, flags: seq<bool>, last: bool)
    requires Chain(manifests, approved, v) && |approved| > 0
    ensures |flags| == |approved| - 1 && Chain(earlier, flags, v)
    ensures earlier[0] == manifests[0]
    ensures Passes(earlier[|flags|], manifests[|approved|], last, v)
    ensures NoneApproved(approved) ==> NoneApproved(flags) && !last
  {
    var n := |approved|;
    earlier, flags, last := manifests[..n], approved[..n - 1], approved[n - 1];
    LinkedAt(manifests, approved, Step(v), n);
    LinkedInit(manifests, approved, Step(v));
  }

  ghost function Identity(es: seq<Entry>, v: View): map<string, string>
  {
    map k | k in HeadKeys(es, v) :: k
  }

  lemma {:induction false} DominatesItself(es: seq<Entry>, v: View)
    ensures Dominated(es, es, Identity(es, v), v)
  {
  }

  /** The step's injection, whether its moves were approved or not. */
  lemma {:induction false} StepInjects(base: seq<Entry>, head: seq<Entry>, v: View, approved: bool)
    returns (f: map<string, string>)
    requires KeepsRule(v) && Passes(base, head, approved, v)
    ensures Dominated(base, head, f, v)
  {
    if !approved { ApprovalIsWeaker(DiffOf(base, head, v)); }
    f := ShrinksWithMoves(base, head, v);
  }

  /** First to the middle list, then on to the base. */
  ghost function Composed(g: map<string, string>, f: map<string, string>): map<string, string>
    requires forall k | k in f :: f[k] in g
  {
    map k | k in f :: g[f[k]]
  }

  lemma {:induction false} DominationComposes(
    base: seq<Entry>, mid: seq<Entry>, head: seq<Entry>, g: map<string, string>, f: map<string, string>, v: View)
    requires Dominated(base, mid, g, v) && Dominated(mid, head, f, v)
    ensures forall k | k in f :: f[k] in g
    ensures Dominated(base, head, Composed(g, f), v)
  {
    forall k | k in f ensures f[k] in g {
      var e := Lookup(mid, f[k], v).value;
      assert e in mid && v.id(e) == f[k];
    }
    var h := Composed(g, f);
    forall k | k in h
      ensures Lookup(base, h[k], v).Some? && Lookup(head, k, v).Some?
      ensures Covers(Lookup(base, h[k], v).value, Lookup(head, k, v).value)
    {
      assert h[k] == g[f[k]];
    }
  }

  lemma {:induction false} OneMoreStep(
    base: seq<Entry>, mid: seq<Entry>, head: seq<Entry>, g: map<string, string>, approved: bool, v: View)
    returns (f: map<string, string>)
    requires KeepsRule(v) && Dominated(base, mid, g, v) && Passes(mid, head, approved, v)
    ensures Dominated(base, head, f, v)
  {
    var h := StepInjects(mid, head, v, approved);
    DominationComposes(base, mid, head, g, h, v);
    f := Composed(g, h);
  }

  /** Over any chain of accepted changes, moves approved or not, the last manifest goes back into the
      first: one injection of identities that keeps every rule and raises no stamp. */
  lemma {:induction false} ChainInjects(manifests: seq<seq<Entry>>, approved: seq<bool>, v: View)
    returns (f: map<string, string>)
    requires KeepsRule(v) && Chain(manifests, approved, v)
    ensures Dominated(manifests[0], manifests[|approved|], f, v)
    decreases |approved|
  {
    if |approved| == 0 {
      f := Identity(manifests[0], v);
      DominatesItself(manifests[0], v);
    } else {
      var earlier, flags, last := ChainParts(manifests, approved, v);
      var g := ChainInjects(earlier, flags, v);
      f := OneMoreStep(earlier[0], earlier[|flags|], manifests[|approved|], g, last, v);
    }
  }

  /** Across any chain without approved moves each identity was there from the start, with the same
      rule and a stamp no lower. */
  lemma {:induction false} ChainShrinksIdentities(manifests: seq<seq<Entry>>, approved: seq<bool>, v: View, e: Entry)
    requires KeepsRule(v) && Chain(manifests, approved, v) && |approved| > 0
    requires NoneApproved(approved) && e in manifests[|approved|]
    ensures Traced(manifests[0], e, v)
    decreases |approved|
  {
    var earlier, flags, _ := ChainParts(manifests, approved, v);
    var b := StepShrinksIdentities(earlier[|flags|], manifests[|approved|], v, e);
    if |flags| > 0 {
      ChainShrinksIdentities(earlier, flags, v, b);
    }
  }

  // ----- the empty diff -----

  predicate IsEmpty(d: Diff)
  {
    d.added == [] && d.removed == [] && d.moved == [] && d.restamped == [] && d.reworded == []
  }

  /** Two entries the diff cannot tell apart. */
  predicate SameClaim(a: Entry, b: Entry, v: View)
  {
    v.id(a) == v.id(b) && a.accepted == b.accepted && a.sentence == b.sentence
  }

  ghost predicate ClaimsWithin(a: seq<Entry>, b: seq<Entry>, v: View)
  {
    forall e | e in a :: Lookup(b, v.id(e), v).Some? && SameClaim(Lookup(b, v.id(e), v).value, e, v)
  }

  lemma {:induction false} NoRestamps(es: seq<Entry>, base: seq<Entry>, v: View)
    ensures (Restamped(es, base, v) == [] && Reworded(es, base, v) == []) <==>
            forall e | e in es && Lookup(base, v.id(e), v).Some? :: SameClaim(Lookup(base, v.id(e), v).value, e, v)
  {
    if es != [] {
      var k := |es| - 1;
      assert es == es[..k] + [es[k]];
      NoRestamps(es[..k], base, v);
    }
  }

  lemma OnlyInEmpty(es: seq<Entry>, other: seq<Entry>, v: View)
    ensures OnlyIn(es, other, v) == [] <==> forall e | e in es :: Lookup(other, v.id(e), v).Some?
  {
    var only := OnlyIn(es, other, v);
    if only != [] {
      assert only[0] in only;
    } else {
      forall e | e in es ensures Lookup(other, v.id(e), v).Some? {
        assert e !in only;
      }
    }
  }

  lemma EmptyParts(base: seq<Entry>, head: seq<Entry>, v: View)
    ensures IsEmpty(DiffOf(base, head, v)) <==>
      && OnlyIn(Uniq(head, v), base, v) == [] && OnlyIn(Uniq(base, v), head, v) == []
      && Restamped(Uniq(head, v), base, v) == [] && Reworded(Uniq(head, v), base, v) == []
  {
    var added, removed := OnlyIn(Uniq(head, v), base, v), OnlyIn(Uniq(base, v), head, v);
    PairPartitions(added, removed, KeyOf(v.naming));
    BothEmpty(added, removed, Pair(added, removed, KeyOf(v.naming)));
  }

  /** Agreement on shared identities reads the same from either side. */
  lemma ClaimsBack(base: seq<Entry>, head: seq<Entry>, v: View, e: Entry)
    requires DistinctKeys(base, v) && ClaimsWithin(head, base, v)
    requires e in base && Lookup(head, v.id(e), v).Some?
    ensures SameClaim(Lookup(head, v.id(e), v).value, e, v)
  {
    var h := Lookup(head, v.id(e), v).value;
    LookupOfDistinct(base, e, v);
    assert SameClaim(Lookup(base, v.id(h), v).value, h, v);
  }

  /** The diff of two lists is empty in every bucket exactly when each claims what the other does:
      the same identities, stamps and sentences. */
  lemma {:induction false} EmptyDiffExact(base: seq<Entry>, head: seq<Entry>, v: View)
    requires DistinctKeys(base, v) && DistinctKeys(head, v)
    ensures IsEmpty(DiffOf(base, head, v)) <==> ClaimsWithin(head, base, v) && ClaimsWithin(base, head, v)
  {
    EmptyParts(base, head, v);
    DistinctIsUniq(base, v);
    DistinctIsUniq(head, v);
    OnlyInEmpty(Uniq(head, v), base, v);
    OnlyInEmpty(Uniq(base, v), head, v);
    NoRestamps(Uniq(head, v), base, v);
    if IsEmpty(DiffOf(base, head, v)) {
      assert ClaimsWithin(head, base, v);
      forall e | e in base ensures Lookup(head, v.id(e), v).Some? && SameClaim(Lookup(head, v.id(e), v).value, e, v) {
        ClaimsBack(base, head, v, e);
      }
    }
  }

  lemma BothEmpty(added: seq<Entry>, removed: seq<Entry>, p: Paired<Entry>)
    requires multiset(added) == multiset(p.added) + multiset(Tos(p.moved))
    requires multiset(removed) == multiset(p.removed) + multiset(Froms(p.moved))
    ensures (p.added == [] && p.removed == [] && p.moved == []) <==> (added == [] && removed == [])
  {
    assert |added| == |multiset(added)| == |p.added| + |p.moved|;
    assert |removed| == |multiset(removed)| == |p.removed| + |p.moved|;
  }

  lemma DistinctIsUniq(es: seq<Entry>, v: View)
    requires DistinctKeys(es, v)
    ensures forall e :: e in Uniq(es, v) <==> e in es
  {
    forall e ensures e in Uniq(es, v) <==> e in es {
      UniqMembers(es, e, v);
      if e in es { LookupOfDistinct(es, e, v); }
    }
  }

  // ----- duplicates -----

  lemma LookupInUniq(es: seq<Entry>, key: string, v: View)
    ensures Lookup(Uniq(es, v), key, v) == Lookup(es, key, v)
  {
    var inList, inUniq := Lookup(es, key, v), Lookup(Uniq(es, v), key, v);
    if inList.Some? {
      UniqMembers(es, inList.value, v);
      LookupOfDistinct(Uniq(es, v), inList.value, v);
    } else if inUniq.Some? {
      UniqMembers(es, inUniq.value, v);
    }
  }

  lemma EmptyHasNoViolations(d: Diff)
    requires IsEmpty(d)
    ensures RatchetViolations(d, false) == []
  {
  }

  /** A list always passes against its own duplicate-free form. */
  lemma {:induction false} PassesAgainstUniq(head: seq<Entry>, v: View)
    ensures RatchetViolations(DiffOf(Uniq(head, v), head, v), false) == []
  {
    var base := Uniq(head, v);
    EmptyParts(base, head, v);
    forall e ensures e in Uniq(base, v) <==> e in base {
      UniqMembers(head, e, v);
      UniqMembers(base, e, v);
      LookupInUniq(head, v.id(e), v);
    }
    forall e | e in base ensures Lookup(head, v.id(e), v) == Some(e) && Lookup(base, v.id(e), v) == Some(e) {
      UniqMembers(head, e, v);
      LookupInUniq(head, v.id(e), v);
    }
    OnlyInEmpty(base, base, v);
    OnlyInEmpty(Uniq(base, v), head, v);
    NoRestamps(base, base, v);
    EmptyHasNoViolations(DiffOf(base, head, v));
  }

  lemma UniqKeepsRuleKeys(es: seq<Entry>, r: Rule, v: View)
    requires KeepsRule(v)
    ensures RuleKeys(Uniq(es, v), r, v) == RuleKeys(es, r, v)
  {
    forall e | e in Uniq(es, v) ensures e in es { UniqMembers(es, e, v); }
    forall e | e in es ensures exists x :: x in Uniq(es, v) && v.id(x) == v.id(e) && x.rule == e.rule {
      var last := Lookup(es, v.id(e), v).value;
      UniqMembers(es, last, v);
      assert v.ruleOf(v.id(last)) == last.rule && v.ruleOf(v.id(e)) == e.rule;
    }
  }

  lemma {:induction false} DuplicateCounts(es: seq<Entry>, v: View, i: nat, j: nat)
    requires KeepsRule(v) && i < j < |es| && v.id(es[i]) == v.id(es[j])
    ensures |RuleKeys(es, es[i].rule, v)| < CountRule(es, es[i].rule)
    decreases |es|
  {
    var r := es[i].rule;
    var init, e := SplitLast(es);
    assert es[..|es| - 1] == init && init[i] == es[i];
    RuleKeysSnoc(init, e, r, v);
    if j == |es| - 1 {
      assert v.ruleOf(v.id(e)) == e.rule && v.ruleOf(v.id(init[i])) == r;
      assert v.id(e) in RuleKeys(init, r, v);
      CountIsKeys(init, r, v);
    } else {
      assert init[j] == es[j];
      DuplicateCounts(init, v, i, j);
    }
  }

  /** A duplicated identity always escapes: the list passes against its own duplicate-free form,
      moves approved or not, and still counts more of the duplicate's rule. */
  lemma {:induction false} DuplicatesEscape(head: seq<Entry>, v: View) returns (r: Rule)
    requires KeepsRule(v) && !DistinctKeys(head, v)
    ensures RatchetViolations(DiffOf(Uniq(head, v), head, v), false) == []
    ensures CountRule(head, r) > CountRule(Uniq(head, v), r)
  {
    PassesAgainstUniq(head, v);
    var i, j :| 0 <= i < j < |head| && v.id(head[i]) == v.id(head[j]);
    r := head[i].rule;
    DuplicateCounts(head, v, i, j);
    UniqKeepsRuleKeys(head, r, v);
    CountIsKeys(Uniq(head, v), r, v);
  }

  /** No list that passes the ratchet in front of `head` has a smaller count of any rule. */
  ghost predicate NeverGrowsInto(head: seq<Entry>, v: View)
  {
    forall base, approved, r {:trigger RatchetViolations(DiffOf(base, head, v), approved), CountRule(base, r)} |
      RatchetViolations(DiffOf(base, head, v), approved) == [] :: CountRule(head, r) <= CountRule(base, r)
  }

  /** The ratchet protects the counts exactly of duplicate-free lists. */
  lemma {:induction false} CountsNeverGrowExactly(head: seq<Entry>, v: View)
    requires KeepsRule(v)
    ensures NeverGrowsInto(head, v) <==> DistinctKeys(head, v)
  {
    if DistinctKeys(head, v) {
      forall base, approved, r | RatchetViolations(DiffOf(base, head, v), approved) == []
        ensures CountRule(head, r) <= CountRule(base, r)
      {
        CountsNeverGrow(base, head, v, approved, r);
      }
    } else {
      var r := DuplicatesEscape(head, v);
    }
  }

  // ----- the identity string -----

  function RuleOfKey(key: string): Rule
  {
    if |key| > 11 && key[11] == 'C' then CognitiveComplexity else LinesPerFunction
  }

  function EntryView(naming: Naming): View { View(EntryKey, RuleOfKey, naming) }

  lemma RuleOfEntryKey(e: Entry)
    ensures RuleOfKey(EntryKey(e)) == e.rule
  {
    assert EntryKey(e)[11] == RuleName(e.rule)[11];
    assert RuleName(CognitiveComplexity)[11] == 'C' && RuleName(LinesPerFunction)[11] == 'L';
  }

  /** The rule is readable off the identity. */
  lemma EntryKeyKeepsRule(naming: Naming)
    ensures KeepsRule(EntryView(naming))
  {
    forall e ensures RuleOfKey(EntryKey(e)) == e.rule { RuleOfEntryKey(e); }
  }

  function Located(file: string, anchor: string): string { file + SEPARATOR + anchor }

  lemma KeyTail(e: Entry)
    ensures EntryKey(e) == RuleName(e.rule) + " " + Located(e.file, e.anchor)
  {
    assert RuleName(e.rule) + " " + e.file + SEPARATOR + e.anchor == RuleName(e.rule) + " " + Located(e.file, e.anchor);
  }

  /** The longer path continues the shorter one with the separator, or with all of it but its last
      space. */
  predicate Extends(f: string, g: string)
  {
    g == f + SEPARATOR[..2] || f + SEPARATOR <= g
  }

  /** Two paths whose entries can share an identity. */
  predicate Confusable(f: string, g: string) { Extends(f, g) || Extends(g, f) }

  lemma ShorterExtends(f: string, x: string, g: string, y: string)
    requires Located(f, x) == Located(g, y) && |f| < |g|
    ensures Extends(f, g)
  {
    var s, n := Located(f, x), |f|;
    assert s[..n] == f && s[n] == ' ' && s[n + 1] == DASH && s[n + 2] == ' ';
    assert s[..|g|] == g && s[|g|] == ' ' && s[|g| + 1] == DASH;
    assert |g| != n + 1;
    if |g| == n + 2 {
      assert g == s[..n + 2] == f + SEPARATOR[..2];
    } else {
      assert g[..n + 3] == s[..n + 3] == f + SEPARATOR;
    }
  }

  lemma SameLength(f: string, x: string, g: string, y: string)
    requires Located(f, x) == Located(g, y) && |f| == |g|
    ensures f == g && x == y
  {
    var s := Located(f, x);
    assert s[..|f|] == f && s[..|g|] == g;
    assert s[|f| + 3..] == x && s[|g| + 3..] == y;
  }

  lemma ExtendsCollides(f: string, g: string) returns (x: string, y: string)
    requires Extends(f, g)
    ensures Located(f, x) == Located(g, y)
  {
    y := "";
    if g == f + SEPARATOR[..2] {
      x := [DASH, ' '];
      assert Located(f, x) == f + [' ', DASH, ' ', DASH, ' '] == Located(g, y);
    } else {
      var rest := g[|f| + 3..];
      x := rest + SEPARATOR;
      assert g == f + SEPARATOR + rest;
      assert Located(f, x) == f + SEPARATOR + rest + SEPARATOR == Located(g, y);
    }
  }

  /** Some entry of f and some entry of g, for one rule, share an identity. */
  ghost predicate Collides(f: string, g: string)
  {
    exists x, y :: Located(f, x) == Located(g, y)
  }

  /** Two different paths can share an identity exactly when one continues the other with the
      separator. */
  lemma CollidesExactly(f: string, g: string)
    ensures Collides(f, g) <==> f == g || Confusable(f, g)
  {
    if Collides(f, g) {
      var x, y :| Located(f, x) == Located(g, y);
      if |f| < |g| {
        ShorterExtends(f, x, g, y);
      } else if |g| < |f| {
        ShorterExtends(g, y, f, x);
      } else {
        SameLength(f, x, g, y);
      }
    }
    if f == g { assert Located(f, "") == Located(g, ""); }
    if Extends(f, g) { var x, y := ExtendsCollides(f, g); }
    if Extends(g, f) { var y, x := ExtendsCollides(g, f); assert Located(f, x) == Located(g, y); }
  }

  /** An anchor as the scan takes it from a source line: not empty, no white space at either end. */
  predicate Trimmed(anchor: string)
  {
    anchor != "" && !IsSpace(anchor[0]) && !IsSpace(anchor[|anchor| - 1])
  }

  /** As `Extends`, where what follows a whole separator does not open with white space. */
  predicate ExtendsTrimmed(f: string, g: string)
  {
    g == f + SEPARATOR[..2] || (f + SEPARATOR < g && !IsSpace(g[|f| + 3]))
  }

  ghost predicate CollidesTrimmed(f: string, g: string)
  {
    exists x, y :: Trimmed(x) && Trimmed(y) && Located(f, x) == Located(g, y)
  }

  lemma {:induction false} ShorterExtendsTrimmed(f: string, x: string, g: string, y: string)
    requires Located(f, x) == Located(g, y) && |f| < |g| && Trimmed(x)
    ensures ExtendsTrimmed(f, g)
  {
    ShorterExtends(f, x, g, y);
    var s := Located(f, x);
    assert s[|f| + 3] == x[0] && s[|g|] == ' ';
    if |g| > |f| + 3 { assert s[|f| + 3] == g[|f| + 3]; }
  }

  lemma {:induction false} ExtendsTrimmedCollides(f: string, g: string)
    requires ExtendsTrimmed(f, g)
    ensures CollidesTrimmed(f, g)
  {
    var y := "z";
    var x := if g == f + SEPARATOR[..2] then [DASH, ' '] + y else g[|f| + 3..] + SEPARATOR + y;
    if g == f + SEPARATOR[..2] {
      assert Located(f, x) == f + [' ', DASH, ' ', DASH, ' '] + y == Located(g, y);
    } else {
      assert g == f + SEPARATOR + g[|f| + 3..];
      assert Located(f, x) == f + SEPARATOR + g[|f| + 3..] + SEPARATOR + y == Located(g, y);
    }
    assert Trimmed(x) && Trimmed(y);
  }

  /** With anchors the scan yields, two different paths can share an identity exactly when one
      continues the other with the separator and no further white space. */
  lemma {:induction false} TrimmedCollidesExactly(f: string, g: string)
    requires f != g
    ensures CollidesTrimmed(f, g) <==> ExtendsTrimmed(f, g) || ExtendsTrimmed(g, f)
  {
    if CollidesTrimmed(f, g) {
      var x, y :| Trimmed(x) && Trimmed(y) && Located(f, x) == Located(g, y);
      if |f| < |g| {
        ShorterExtendsTrimmed(f, x, g, y);
      } else if |g| < |f| {
        ShorterExtendsTrimmed(g, y, f, x);
      } else {
        SameLength(f, x, g, y);
      }
    }
    if ExtendsTrimmed(f, g) { ExtendsTrimmedCollides(f, g); }
    if ExtendsTrimmed(g, f) {
      ExtendsTrimmedCollides(g, f);
      var y, x :| Trimmed(y) && Trimmed(x) && Located(g, y) == Located(f, x);
      assert Located(f, x) == Located(g, y);
    }
  }

  /** Between paths of which neither continues the other, the identity string determines file, rule
      and anchor. */
  lemma IdentityIsInjective(a: Entry, b: Entry)
    requires !Confusable(a.file, b.file) && EntryKey(a) == EntryKey(b)
    ensures a.file == b.file && a.rule == b.rule && a.anchor == b.anchor
  {
    RuleOfEntryKey(a);
    RuleOfEntryKey(b);
    KeyTail(a);
    KeyTail(b);
    var n := |RuleName(a.rule) + " "|;
    assert EntryKey(a)[n..] == Located(a.file, a.anchor) && EntryKey(b)[n..] == Located(b.file, b.anchor);
    CollidesExactly(a.file, b.file);
    SameLength(a.file, a.anchor, b.file, b.anchor);
  }

  /** For duplicate-free lists between which no two paths are confusable, the diff is empty in every
      bucket exactly when the two lists hold the same entries. */
  lemma {:induction false} EmptyIffEqual(base: seq<Entry>, head: seq<Entry>, naming: Naming)
    requires forall a, b | a in base && b in head :: !Confusable(a.file, b.file)
    requires DistinctKeys(base, EntryView(naming)) && DistinctKeys(head, EntryView(naming))
    ensures IsEmpty(DiffOf(base, head, EntryView(naming))) <==> SameEntries(base, head)
  {
    var v := EntryView(naming);
    EmptyDiffExact(base, head, v);
    forall a, b | a in base && b in head && SameClaim(a, b, v) ensures a == b {
      IdentityIsInjective(a, b);
    }
    if SameEntries(base, head) {
      forall e | e in base ensures Lookup(head, v.id(e), v) == Some(e) && Lookup(base, v.id(e), v) == Some(e) {
        LookupOfDistinct(head, e, v);
        LookupOfDistinct(base, e, v);
      }
    }
  }

  ghost predicate SameEntries(a: seq<Entry>, b: seq<Entry>)
  {
    forall e :: e in a <==> e in b
  }

  ghost predicate Over(es: seq<Entry>, paths: set<string>)
  {
    forall e | e in es :: e.file in paths
  }

  /** The diff of the two lists is empty exactly when they hold the same entries. */
  ghost predicate Decides(base: seq<Entry>, head: seq<Entry>, v: View)
  {
    IsEmpty(DiffOf(base, head, v)) <==> SameEntries(base, head)
  }

  /** So it is for all duplicate-free lists over these paths. */
  ghost predicate DiffDecides(paths: set<string>, v: View)
  {
    forall base, head {:trigger Decides(base, head, v)} |
      Over(base, paths) && Over(head, paths) && DistinctKeys(base, v) && DistinctKeys(head, v) ::
      Decides(base, head, v)
  }

  lemma SharedIdentityIsUnseen(a: Entry, b: Entry, v: View)
    requires SameClaim(a, b, v)
    ensures IsEmpty(DiffOf([a], [b], v))
  {
    LookupOfDistinct([a], a, v);
    LookupOfDistinct([b], b, v);
    EmptyDiffExact([a], [b], v);
  }

  lemma SingletonOver(e: Entry, paths: set<string>, v: View)
    requires e.file in paths
    ensures Over([e], paths) && DistinctKeys([e], v)
  {
  }

  lemma {:induction false} SharedIdentityNotDecided(a: Entry, b: Entry, v: View)
    requires SameClaim(a, b, v) && a != b
    ensures !Decides([a], [b], v)
  {
    SharedIdentityIsUnseen(a, b, v);
    assert a in [a] && a !in [b];
  }

  lemma {:induction false} SharedIdentityUndecided(a: Entry, b: Entry, paths: set<string>, v: View)
    requires SameClaim(a, b, v) && a != b && a.file in paths && b.file in paths
    ensures !DiffDecides(paths, v)
  {
    var base, head := [a], [b];
    SharedIdentityNotDecided(a, b, v);
    SingletonOver(a, paths, v);
    SingletonOver(b, paths, v);
    assert !Decides(base, head, v) && Over(base, paths) && Over(head, paths);
  }

  lemma {:induction false} ConfusableIsUndecided(f: string, g: string, paths: set<string>, naming: Naming)
    requires f in paths && g in paths && Confusable(f, g)
    ensures !DiffDecides(paths, EntryView(naming))
  {
    CollidesExactly(f, g);
    var x, y :| Located(f, x) == Located(g, y);
    var a, b := Entry(f, CognitiveComplexity, x, 1, ""), Entry(g, CognitiveComplexity, y, 1, "");
    KeyTail(a);
    KeyTail(b);
    SharedIdentityUndecided(a, b, paths, EntryView(naming));
  }

  /** An empty diff decides equality over a set of paths exactly when no two of them are
      confusable. */
  lemma {:induction false} DiffDecidesExactly(paths: set<string>, naming: Naming)
    ensures DiffDecides(paths, EntryView(naming)) <==> forall f, g | f in paths && g in paths :: !Confusable(f, g)
  {
    var v := EntryView(naming);
    if forall f, g | f in paths && g in paths :: !Confusable(f, g) {
      forall base, head | Over(base, paths) && Over(head, paths) && DistinctKeys(base, v) && DistinctKeys(head, v)
        ensures Decides(base, head, v)
      {
        EmptyIffEqual(base, head, naming);
      }
    } else {
      var f, g :| f in paths && g in paths && Confusable(f, g);
      ConfusableIsUndecided(f, g, paths, naming);
    }
  }

  /** Two paths a manifest may name, one continuing the other: replacing an acceptance in one by an
      acceptance in the other goes unseen. */
  lemma DashCollision(naming: Naming, stamp: int, sentence: string)
    ensures var a := Entry("x.ts", CognitiveComplexity, "y.ts" + SEPARATOR + "function z() {", stamp, sentence);
      var b := Entry("x.ts" + SEPARATOR + "y.ts", CognitiveComplexity, "function z() {", stamp, sentence);
      a != b && Confusable(a.file, b.file) && IsEmpty(DiffOf([a], [b], EntryView(naming)))
  {
    var f, rest, y := "x.ts", "y.ts", "function z() {";
    var a := Entry(f, CognitiveComplexity, rest + SEPARATOR + y, stamp, sentence);
    var b := Entry(f + SEPARATOR + rest, CognitiveComplexity, y, stamp, sentence);
    KeyTail(a);
    KeyTail(b);
    assert Located(f, rest + SEPARATOR + y) == f + SEPARATOR + rest + SEPARATOR + y == Located(f + SEPARATOR + rest, y);
    assert |b.file| > |a.file|;
    SharedIdentityIsUnseen(a, b, EntryView(naming));
  }
}
