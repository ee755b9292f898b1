/** The chunk-cycle guard (apps/extension/scripts/chunk-cycle-guard.ts): trimming chunks that
    import nothing alive, or are imported by nothing alive, until nothing changes. */
module ChunkCycles {
  import opened Text
  import opened Seqs

  type Imports<!T> = map<T, seq<T>>

  predicate Edge<T(==,!new)>(g: Imports<T>, a: T, b: T)
  {
    a in g && b in g[a] && a != b
  }

  predicate ImportsAlive<T(==,!new)>(g: Imports<T>, alive: set<T>, chunk: T)
  {
    chunk in g && exists dep | dep in g[chunk] :: dep != chunk && dep in alive
  }

  predicate ImportedByAlive<T(==,!new)>(g: Imports<T>, alive: set<T>, chunk: T)
  {
    exists other | other in alive :: other != chunk && other in g && chunk in g[other]
  }

  predicate Supported<T(==,!new)>(g: Imports<T>, alive: set<T>, chunk: T)
  {
    ImportsAlive(g, alive, chunk) && ImportedByAlive(g, alive, chunk)
  }

  /** A set whose members each import, and are imported by, another member. */
  ghost predicate SelfSupporting<T(!new)>(g: Imports<T>, s: set<T>)
  {
    s <= g.Keys && forall c {:trigger Supported(g, s, c)} | c in s :: Supported(g, s, c)
  }

  /** Every self-supporting set lies inside `s`. */
  ghost predicate Bounds<T(!new)>(g: Imports<T>, s: set<T>)
  {
    forall t | SelfSupporting(g, t) :: t <= s
  }

  ghost predicate Greatest<T(!new)>(g: Imports<T>, s: set<T>)
  {
    SelfSupporting(g, s) && Bounds(g, s)
  }

  lemma GreatestIsUnique<T(!new)>(g: Imports<T>, s: set<T>, t: set<T>)
    requires Greatest(g, s) && Greatest(g, t)
    ensures s == t
  {
  }

  lemma SupportIsMonotone<T(!new)>(g: Imports<T>, s: set<T>, t: set<T>, c: T)
    requires s <= t && Supported(g, s, c)
    ensures Supported(g, t, c)
  {
  }

  /** A chunk without support is in no self-supporting set, so trimming it loses none. */
  lemma BoundsAfterTrim<T(!new)>(g: Imports<T>, alive: set<T>, chunk: T)
    requires Bounds(g, alive) && !Supported(g, alive, chunk)
    ensures Bounds(g, alive - {chunk})
  {
    forall t | SelfSupporting(g, t) ensures t <= alive - {chunk} {
      if chunk in t { SupportIsMonotone(g, t, alive, chunk); }
    }
  }

  /** One pass over a snapshot of the alive chunks, deleting as it goes. */
  method TrimPass<T(==,!new)>(g: Imports<T>, start: set<T>) returns (alive: set<T>, trimmed: bool)
    requires start <= g.Keys
    requires Bounds(g, start)
    ensures alive <= start
    ensures Bounds(g, alive)
    ensures if trimmed then alive < start
            else alive == start && forall c {:trigger Supported(g, alive, c)} | c in alive :: Supported(g, alive, c)
  {
    alive, trimmed := start, false;
    var todo := start;
    while todo != {}
      invariant todo <= alive <= start
      invariant trimmed ==> alive < start
      invariant !trimmed ==> alive == start
      invariant Bounds(g, alive)
      invariant !trimmed ==>
        forall c {:trigger Supported(g, alive, c)} | c in alive && c !in todo :: Supported(g, alive, c)
      decreases todo
    {
      var chunk :| chunk in todo;
      todo := todo - {chunk};
      if !Supported(g, alive, chunk) {
        BoundsAfterTrim(g, alive, chunk);
        alive, trimmed := alive - {chunk}, true;
      }
    }
  }

  /** `cyclicChunks`: whatever the iteration order, the result lists the greatest self-supporting
      set of chunks, in code-point order and each once. */
  method CyclicChunks(g: Imports<string>) returns (chunks: seq<string>)
    ensures Greatest(g, set c | c in chunks)
    ensures Sorted(chunks) && |chunks| == |set c | c in chunks|
  {
    var alive, trimmed := g.Keys, true;
    while trimmed
      invariant alive <= g.Keys
      invariant Bounds(g, alive)
      invariant !trimmed ==> forall c {:trigger Supported(g, alive, c)} | c in alive :: Supported(g, alive, c)
      decreases |alive|, trimmed
    {
      ghost var before := alive;
      alive, trimmed := TrimPass(g, alive);
      if trimmed { StrictSubset(alive, before); }
    }
    chunks := SortedList(alive);
    assert (set c | c in chunks) == alive;
  }

  lemma StrictSubset<T(!new)>(a: set<T>, b: set<T>)
    requires a < b
    ensures |a| < |b|
  {
    var x :| x in b && x !in a;
    SubsetSize(a, b - {x});
  }

  // ----- sorting the result -----

  function Insert(x: string, xs: seq<string>): seq<string>
  {
    if xs == [] || Leq(x, xs[0]) then [x] + xs else [xs[0]] + Insert(x, xs[1..])
  }

  lemma {:induction false} InsertSorted(x: string, xs: seq<string>)
    requires Sorted(xs)
    ensures Sorted(Insert(x, xs)) && |Insert(x, xs)| == |xs| + 1
    ensures forall y :: y in Insert(x, xs) <==> y == x || y in xs
  {
    if xs == [] {
    } else if Leq(x, xs[0]) {
      forall i | 0 <= i < |xs| ensures Leq(x, xs[i]) {
        if i > 0 { LeqTransitive(x, xs[0], xs[i]); }
      }
    } else {
      LeqTotal(x, xs[0]);
      InsertSorted(x, xs[1..]);
      var rest := Insert(x, xs[1..]);
      assert xs == [xs[0]] + xs[1..];
      forall i | 0 <= i < |rest| ensures Leq(xs[0], rest[i]) {
        assert rest[i] in rest;
        if rest[i] != x {
          var j :| 0 <= j < |xs[1..]| && xs[1..][j] == rest[i];
          assert xs[j + 1] == rest[i];
        }
      }
      assert Sorted(rest);
    }
  }

  method SortedList(s: set<string>) returns (xs: seq<string>)
    ensures Sorted(xs) && |xs| == |s|
    ensures forall x :: x in xs <==> x in s
  {
    xs := [];
    var rest := s;
    while rest != {}
      invariant rest <= s && Sorted(xs) && |xs| + |rest| == |s|
      invariant forall x :: x in xs <==> x in s && x !in rest
      decreases rest
    {
      var x :| x in rest;
      InsertSorted(x, xs);
      xs, rest := Insert(x, xs), rest - {x};
    }
  }

  // ----- cycles -----

  /** A walk along imports between distinct chunks. */
  ghost predicate Walk<T(!new)>(g: Imports<T>, p: seq<T>)
  {
    p != [] && forall i | 0 <= i < |p| - 1 :: Edge(g, p[i], p[i + 1])
  }

  ghost predicate Cycle<T(!new)>(g: Imports<T>, p: seq<T>)
  {
    Walk(g, p) && |p| >= 2 && p[0] == p[|p| - 1]
  }

  ghost predicate Acyclic<T(!new)>(g: Imports<T>)
  {
    forall p :: !Cycle(g, p)
  }

  ghost function Nodes<T(!new)>(p: seq<T>): set<T>
  {
    set i | 0 <= i < |p| :: p[i]
  }

  lemma CycleSupportsItself<T(!new)>(g: Imports<T>, p: seq<T>)
    requires Cycle(g, p)
    ensures SelfSupporting(g, Nodes(p))
  {
    var s := Nodes(p);
    forall c | c in s ensures c in g && Supported(g, s, c) {
      var i :| 0 <= i < |p| && p[i] == c;
      var next := if i < |p| - 1 then i + 1 else 1;
      var prev := if i > 0 then i - 1 else |p| - 2;
      assert Edge(g, c, p[next]) by {
        if i < |p| - 1 { assert Edge(g, p[i], p[i + 1]); } else { assert Edge(g, p[0], p[1]); }
      }
      assert Edge(g, p[prev], c) by {
        if i > 0 { assert Edge(g, p[i - 1], p[i]); } else { assert Edge(g, p[|p| - 2], p[|p| - 1]); }
      }
      assert p[next] in s && p[prev] in s;
    }
  }

  /** Every chunk on a cycle is kept. */
  lemma KeepsCycles<T(!new)>(g: Imports<T>, kept: set<T>, p: seq<T>)
    requires Greatest(g, kept) && Cycle(g, p)
    ensures forall i | 0 <= i < |p| :: p[i] in kept
  {
    CycleSupportsItself(g, p);
    assert Nodes(p) <= kept;
    forall i | 0 <= i < |p| ensures p[i] in kept { assert p[i] in Nodes(p); }
  }

  /** A forward walk of any length stays inside a self-supporting set. */
  lemma {:induction false} ForwardWalk<T(!new)>(g: Imports<T>, s: set<T>, c: T, n: nat) returns (p: seq<T>)
    requires SelfSupporting(g, s) && c in s
    ensures Walk(g, p) && |p| == n + 1 && p[0] == c && forall i | 0 <= i < |p| :: p[i] in s
  {
    if n == 0 {
      p := [c];
    } else {
      var q := ForwardWalk(g, s, c, n - 1);
      var last := q[n - 1];
      assert Supported(g, s, last);
      var dep :| dep in g[last] && dep != last && dep in s;
      p := q + [dep];
    }
  }

  lemma {:induction false} BackwardWalk<T(!new)>(g: Imports<T>, s: set<T>, c: T, n: nat) returns (p: seq<T>)
    requires SelfSupporting(g, s) && c in s
    ensures Walk(g, p) && |p| == n + 1 && p[n] == c && forall i | 0 <= i < |p| :: p[i] in s
  {
    if n == 0 {
      p := [c];
    } else {
      var q := BackwardWalk(g, s, c, n - 1);
      assert Supported(g, s, q[0]);
      var other :| other in s && other != q[0] && other in g && q[0] in g[other];
      p := [other] + q;
      assert Edge(g, p[0], p[1]);
      assert forall i | 0 < i < |p| - 1 :: p[i] == q[i - 1] && p[i + 1] == q[i];
    }
  }

  /** A walk longer than the set it stays in repeats a chunk (pigeonhole). */
  lemma {:induction false} WalkRepeats<T(!new)>(p: seq<T>, s: set<T>) returns (i: nat, j: nat)
    requires |p| > |s| && forall k | 0 <= k < |p| :: p[k] in s
    ensures i < j < |p| && p[i] == p[j]
  {
    var last := p[|p| - 1];
    if k :| 0 <= k < |p| - 1 && p[k] == last {
      i, j := k, |p| - 1;
    } else {
      i, j := WalkRepeats(p[..|p| - 1], s - {last});
    }
  }

  lemma SubWalk<T(!new)>(g: Imports<T>, p: seq<T>, i: nat, j: nat)
    requires Walk(g, p) && i < j <= |p|
    ensures Walk(g, p[i..j])
  {
    assert forall k | 0 <= k < j - i :: p[i..j][k] == p[i + k];
  }

  /** Each kept chunk reaches a cycle and is reached from one, along kept chunks. */
  lemma KeptBetweenCycles<T(!new)>(g: Imports<T>, kept: set<T>, c: T)
    returns (ahead: seq<T>, to: seq<T>, behind: seq<T>, from: seq<T>)
    requires SelfSupporting(g, kept) && c in kept
    ensures Cycle(g, ahead) && Walk(g, to) && to[0] == c && to[|to| - 1] == ahead[0]
    ensures Cycle(g, behind) && Walk(g, from) && from[0] == behind[0] && from[|from| - 1] == c
  {
    var p := ForwardWalk(g, kept, c, |kept|);
    var i, j := WalkRepeats(p, kept);
    ahead, to := p[i..j + 1], p[..i + 1];
    SubWalk(g, p, i, j + 1);
    SubWalk(g, p, 0, i + 1);
    var q := BackwardWalk(g, kept, c, |kept|);
    var k, l := WalkRepeats(q, kept);
    behind, from := q[k..l + 1], q[l..];
    SubWalk(g, q, k, l + 1);
    SubWalk(g, q, l, |q|);
  }

  /** The guard names a chunk exactly when the import graph, self-imports aside, has a cycle. */
  lemma EmptyIffAcyclic<T(!new)>(g: Imports<T>, kept: set<T>)
    requires Greatest(g, kept)
    ensures kept == {} <==> Acyclic(g)
  {
    if kept != {} {
      var c :| c in kept;
      var ahead, _, _, _ := KeptBetweenCycles(g, kept, c);
    } else {
      forall p ensures !Cycle(g, p) {
        if Cycle(g, p) {
          KeepsCycles(g, kept, p);
        }
      }
    }
  }
}
