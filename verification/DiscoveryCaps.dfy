/** The caps of the discovery queue over every interleaving of arrivals and drains: exactly when they
    hold, and how far they can be exceeded. */
module DiscoveryCaps {
  import opened DiscoveryQueue

  // ----- caps -----

  ghost predicate NoDuplicates(q: seq<Entry>)
  {
    forall i, j | 0 <= i < j < |q| :: !SamePair(q[i], q[j])
  }

  ghost predicate WithinCaps(q: seq<Entry>)
  {
    |q| <= GLOBAL_CAP && NoDuplicates(q) && forall origin :: CountOrigin(q, origin) <= PER_ORIGIN_CAP
  }

  lemma {:induction false} CountAppend(a: seq<Entry>, b: seq<Entry>, origin: string)
    ensures CountOrigin(a + b, origin) == CountOrigin(a, origin) + CountOrigin(b, origin)
  {
    if a == [] {
      assert a + b == b;
    } else {
      assert (a + b)[1..] == a[1..] + b;
      CountAppend(a[1..], b, origin);
    }
  }

  lemma AdmitKeepsCaps(q: seq<Entry>, e: Entry)
    requires WithinCaps(q)
    ensures WithinCaps(Admit(q, e))
  {
    if Accepts(q, e) {
      forall origin ensures CountOrigin(q + [e], origin) <= PER_ORIGIN_CAP {
        CountAppend(q, [e], origin);
        assert [e][1..] == [];
      }
      assert forall i | 0 <= i < |q| :: q[i] in q;
    }
  }

  /** Admission drops nothing the caps have room for: a request is queued exactly when the queue with
      it holds at most 32 entries, no pair of origin and chain twice, and at most 4 of any origin. */
  lemma {:induction false} AdmitsExactly(q: seq<Entry>, e: Entry)
    requires WithinCaps(q)
    ensures Accepts(q, e) <==>
      |q + [e]| <= 32 && NoDuplicates(q + [e]) && forall origin :: CountOrigin(q + [e], origin) <= 4
  {
    forall origin ensures CountOrigin(q + [e], origin) == CountOrigin(q, origin) + if e.origin == origin then 1 else 0 {
      CountAppend(q, [e], origin);
      assert [e][1..] == [];
    }
    assert forall d | d in q :: d in q + [e];
    if NoDuplicates(q + [e]) {
      forall d | d in q ensures !SamePair(d, e) {
        var i :| 0 <= i < |q| && q[i] == d;
        assert (q + [e])[i] == d && (q + [e])[|q|] == e;
      }
    }
    assert CountOrigin(q + [e], e.origin) == CountOrigin(q, e.origin) + 1;
    if Accepts(q, e) { AdmitKeepsCaps(q, e); }
  }

  lemma SuffixKeepsCaps(q: seq<Entry>, k: nat)
    requires WithinCaps(q) && k <= |q|
    ensures WithinCaps(q[k..])
  {
    forall origin ensures CountOrigin(q[k..], origin) <= PER_ORIGIN_CAP {
      CountAppend(q[..k], q[k..], origin);
      assert q[..k] + q[k..] == q;
    }
    assert forall i | 0 <= i < |q| - k :: q[k..][i] == q[k + i];
  }

  /** Two lists that keep the caps side by side. */
  ghost predicate FitTogether(a: seq<Entry>, b: seq<Entry>)
  {
    && |a| + |b| <= GLOBAL_CAP
    && (forall origin :: CountOrigin(a, origin) + CountOrigin(b, origin) <= PER_ORIGIN_CAP)
    && (forall x, y | x in a && y in b :: !SamePair(x, y))
  }

  lemma {:induction false} ConcatKeepsCaps(a: seq<Entry>, b: seq<Entry>)
    requires WithinCaps(a) && WithinCaps(b)
    ensures WithinCaps(a + b) <==> FitTogether(a, b)
  {
    var c := a + b;
    forall origin ensures CountOrigin(c, origin) == CountOrigin(a, origin) + CountOrigin(b, origin) {
      CountAppend(a, b, origin);
    }
    if NoDuplicates(c) {
      forall x, y | x in a && y in b ensures !SamePair(x, y) {
        var i :| 0 <= i < |a| && a[i] == x;
        var j :| 0 <= j < |b| && b[j] == y;
        assert c[i] == x && c[|a| + j] == y;
      }
    }
    if forall x, y | x in a && y in b :: !SamePair(x, y) {
      forall i, j | 0 <= i < j < |c| ensures !SamePair(c[i], c[j]) {
        if i < |a| && |a| <= j { assert a[i] in a && b[j - |a|] in b; }
      }
    }
  }

  // ----- exactly when the caps hold -----

  /** Putting back checks no cap: the operation is harmless when it puts nothing back, or when what
      it puts back fits beside what the queue holds by then. */
  ghost predicate Fits(s: State, op: Op)
  {
    op.Resume? && op.outcome.Locked? && Waits(s, op.d) ==> FitTogether(s.queue, Remaining(s.flights[op.d]))
  }

  /** Every list a drain may still put back is within the caps on its own. */
  ghost predicate Moderate(s: State)
  {
    WithinCaps(s.queue) && Sound(s) && forall d | 0 <= d < |s.flights| :: WithinCaps(Remaining(s.flights[d]))
  }

  lemma {:induction false} AdvancedKeepsCaps(f: Flight, r: Flight)
    requires r.snapshot == f.snapshot && |f.fates| <= |r.fates| <= |r.snapshot| && WithinCaps(Remaining(f))
    ensures WithinCaps(Remaining(r))
  {
    if Live(r) {
      assert Remaining(r) == Remaining(f)[|r.fates| - |f.fates|..];
      SuffixKeepsCaps(Remaining(f), |r.fates| - |f.fates|);
    }
  }

  lemma {:induction false} StepKeepsCaps(s: State, op: Op)
    requires Moderate(s)
    ensures WithinCaps(Step(s, op).queue) <==> Fits(s, op)
    ensures Fits(s, op) ==> Moderate(Step(s, op))
  {
    StepStaysSound(s, op);
    match op
    case Enqueue(e) =>
      AdmitKeepsCaps(s.queue, e);
    case Begin(v) =>
      var f := Flight(s.queue, []);
      assert s.queue != [] ==> Remaining(f) == s.queue;
      if s.queue != [] { AdvancedKeepsCaps(f, Advanced(f, v)); }
    case Resume(d, outcome, v) =>
      if Waits(s, d) {
        var f := s.flights[d];
        ConcatKeepsCaps(s.queue, Remaining(f));
        AdvancedKeepsCaps(f, Step(s, op).flights[d]);
      }
  }

  /** Operation n of the run fits. */
  ghost predicate FitsAt(ops: seq<Op>, n: nat)
    requires n < |ops|
  {
    Fits(After(ops[..n]), ops[n])
  }

  ghost predicate CapsAt(ops: seq<Op>, n: nat)
    requires n <= |ops|
  {
    WithinCaps(After(ops[..n]).queue)
  }

  lemma {:induction false} ModerateUpTo(ops: seq<Op>, n: nat)
    requires n <= |ops|
    requires (forall k | 0 <= k < n :: FitsAt(ops, k)) || (forall k | 0 <= k <= n :: CapsAt(ops, k))
    ensures Moderate(After(ops[..n]))
  {
    if n > 0 {
      ModerateUpTo(ops, n - 1);
      AfterStep(ops, n - 1);
      StepKeepsCaps(After(ops[..n - 1]), ops[n - 1]);
      assert FitsAt(ops, n - 1) || CapsAt(ops, n);
    }
  }

  /** Over every interleaving the queue is within its caps after every operation exactly when every
      list put back fits beside what the queue holds by then. */
  lemma {:induction false} RunsKeepCapsExactly(ops: seq<Op>)
    ensures (forall n | 0 <= n <= |ops| :: CapsAt(ops, n)) <==> (forall n | 0 <= n < |ops| :: FitsAt(ops, n))
  {
    if forall n | 0 <= n <= |ops| :: CapsAt(ops, n) {
      forall n | 0 <= n < |ops| ensures FitsAt(ops, n) {
        ModerateUpTo(ops, n);
        AfterStep(ops, n);
        StepKeepsCaps(After(ops[..n]), ops[n]);
        assert CapsAt(ops, n + 1);
      }
    }
    if forall n | 0 <= n < |ops| :: FitsAt(ops, n) {
      forall n | 0 <= n <= |ops| ensures CapsAt(ops, n) {
        ModerateUpTo(ops, n);
      }
    }
  }

  // ----- how far the caps can be exceeded -----

  function CountPair(q: seq<Entry>, p: Entry): nat
  {
    if q == [] then 0 else (if SamePair(q[0], p) then 1 else 0) + CountPair(q[1..], p)
  }

  lemma {:induction false} PairAppend(a: seq<Entry>, b: seq<Entry>, p: Entry)
    ensures CountPair(a + b, p) == CountPair(a, p) + CountPair(b, p)
  {
    if a == [] {
      assert a + b == b;
    } else {
      assert (a + b)[1..] == a[1..] + b;
      PairAppend(a[1..], b, p);
    }
  }

  lemma {:induction false} NoPair(q: seq<Entry>, p: Entry)
    requires forall d | d in q :: !SamePair(d, p)
    ensures CountPair(q, p) == 0
  {
    if q != [] { NoPair(q[1..], p); }
  }

  lemma {:induction false} HasPair(q: seq<Entry>, i: nat)
    requires i < |q|
    ensures CountPair(q, q[i]) >= 1
  {
    if i > 0 { HasPair(q[1..], i - 1); }
  }

  lemma {:induction false} PairsOnce(q: seq<Entry>)
    requires forall p :: CountPair(q, p) <= 1
    ensures NoDuplicates(q)
  {
    forall i, j | 0 <= i < j < |q| ensures !SamePair(q[i], q[j]) {
      if SamePair(q[i], q[j]) {
        assert q == q[..j] + q[j..] && q[..j][i] == q[i] && q[j..][0] == q[j];
        PairAppend(q[..j], q[j..], q[i]);
        HasPair(q[..j], i);
      }
    }
  }

  lemma SingleCounts(e: Entry, origin: string, p: Entry)
    ensures CountOrigin([e], origin) == if e.origin == origin then 1 else 0
    ensures CountPair([e], p) == if SamePair(e, p) then 1 else 0
  {
    assert [e][0] == e && [e][1..] == [];
  }

  /** A measure that admission keeps at or below c. */
  ghost predicate Capped(g: seq<Entry> -> nat, c: nat)
  {
    Additive(g) &&
    forall q, e {:trigger Accepts(q, e), g([e])} | Accepts(q, e) && g([e]) > 0 :: g(q) + g([e]) <= c
  }

  function Size(): seq<Entry> -> nat { (q: seq<Entry>) => |q| }

  function OfOrigin(origin: string): seq<Entry> -> nat { (q: seq<Entry>) => CountOrigin(q, origin) }

  function OfPair(p: Entry): seq<Entry> -> nat { (q: seq<Entry>) => CountPair(q, p) }

  lemma SizeIsCapped()
    ensures Capped(Size(), GLOBAL_CAP)
  {
  }

  lemma {:induction false} OriginIsCapped(origin: string)
    ensures Capped(OfOrigin(origin), PER_ORIGIN_CAP)
  {
    var g := OfOrigin(origin);
    forall a, b ensures g(a + b) == g(a) + g(b) { CountAppend(a, b, origin); }
    forall q, e | Accepts(q, e) && g([e]) > 0 ensures g(q) + g([e]) <= PER_ORIGIN_CAP {
      SingleCounts(e, origin, e);
    }
  }

  lemma {:induction false} PairIsCapped(p: Entry)
    ensures Capped(OfPair(p), 1)
  {
    var g := OfPair(p);
    forall a, b ensures g(a + b) == g(a) + g(b) { PairAppend(a, b, p); }
    forall q, e | Accepts(q, e) && g([e]) > 0 ensures g(q) + g([e]) <= 1 {
      SingleCounts(e, e.origin, p);
      assert SamePair(e, p) && forall d | d in q :: !SamePair(d, e);
      NoPair(q, p);
    }
  }

  ghost predicate AnyWaits(s: State) { exists d :: Waits(s, d) }

  /** Something is admitted while a drain is suspended. */
  ghost predicate Intrudes(s: State, op: Op)
  {
    op.Enqueue? && Accepts(s.queue, op.e) && AnyWaits(s)
  }

  /** How many drains were begun with an intrusion before the next one began, and whether the latest
      has had none yet. */
  datatype Meter = Meter(noisy: nat, quiet: bool)

  ghost function Tick(m: Meter, s: State, op: Op): Meter
  {
    if op.Begin? && s.queue != [] then m.(quiet := true)
    else if Intrudes(s, op) && m.quiet then Meter(m.noisy + 1, false)
    else m
  }

  ghost function Noise(ops: seq<Op>): Meter
  {
    if ops == [] then Meter(0, false)
    else Tick(Noise(ops[..|ops| - 1]), After(ops[..|ops| - 1]), ops[|ops| - 1])
  }

  /** Queue and suspended drains together hold at most one cap per noisy drain, and one more. */
  ghost predicate Bounded(g: seq<Entry> -> nat, c: nat, s: State, m: Meter)
  {
    var waiting := Total(s.flights, Waiting(g));
    && g(s.queue) + waiting <= Times(c, m.noisy) + c
    && (!m.quiet ==> waiting <= Times(c, m.noisy))
  }

  function Times(c: nat, n: nat): nat { if n == 0 then 0 else Times(c, n - 1) + c }

  lemma {:induction false} TimesIsProduct(c: nat, n: nat)
    ensures Times(c, n) == c * n
  {
    if n > 0 { TimesIsProduct(c, n - 1); }
  }

  lemma {:induction false} NothingWaits(g: seq<Entry> -> nat, fs: seq<Flight>)
    requires Additive(g) && forall d | 0 <= d < |fs| :: !Live(fs[d])
    ensures Total(fs, Waiting(g)) == 0
  {
    if fs != [] {
      var k := |fs| - 1;
      NothingWaits(g, fs[..k]);
      assert !Live(fs[k]);
      assert Remaining(fs[k]) == [];
    }
  }

  lemma AdmissionMeasure(g: seq<Entry> -> nat, c: nat, q: seq<Entry>, e: Entry)
    requires Capped(g, c) && Accepts(q, e)
    ensures g(q + [e]) == g(q) || (g(q + [e]) > g(q) && g(q + [e]) <= c)
  {
  }

  lemma {:induction false} AdmissionBounded(g: seq<Entry> -> nat, c: nat, s: State, m: Meter, e: Entry)
    requires Capped(g, c) && Bounded(g, c, s, m) && Accepts(s.queue, e)
    ensures Bounded(g, c, Step(s, Enqueue(e)), Tick(m, s, Enqueue(e)))
  {
    AdmissionMeasure(g, c, s.queue, e);
    if !AnyWaits(s) {
      assert forall d | 0 <= d < |s.flights| :: Waits(s, d) <==> Live(s.flights[d]);
      NothingWaits(g, s.flights);
    }
  }

  lemma {:induction false} StepBounded(g: seq<Entry> -> nat, c: nat, s: State, m: Meter, op: Op)
    requires Capped(g, c) && Sound(s) && Bounded(g, c, s, m)
    ensures Bounded(g, c, Step(s, op), Tick(m, s, op))
  {
    match op
    case Enqueue(e) =>
      if Accepts(s.queue, e) { AdmissionBounded(g, c, s, m, e); }
    case Begin(v) =>
      if s.queue != [] {
        var f := Flight(s.queue, []);
        assert Remaining(f) == s.queue;
        AdvancedLeaves(g, f, Advanced(f, v));
        TotalAppend(s.flights, Advanced(f, v), Waiting(g));
      }
    case Resume(d, outcome, v) =>
      if Waits(s, d) { ResumeWaits(g, s, d, outcome, v); }
  }

  /** A drain that goes on adds nothing to queue and suspended drains together. */
  lemma {:induction false} ResumeWaits(g: seq<Entry> -> nat, s: State, d: nat, outcome: Outcome, v: View)
    requires Additive(g) && Sound(s) && Waits(s, d)
    ensures var t := Step(s, Resume(d, outcome, v));
      && Total(t.flights, Waiting(g)) <= Total(s.flights, Waiting(g))
      && g(t.queue) + Total(t.flights, Waiting(g)) <= g(s.queue) + Total(s.flights, Waiting(g))
  {
    var f, t := s.flights[d], Step(s, Resume(d, outcome, v));
    AdvancedLeaves(g, f, t.flights[d]);
    TotalUpdate(s.flights, d, t.flights[d], Waiting(g));
    if outcome.Locked? { assert Remaining(t.flights[d]) == [] && t.queue == s.queue + Remaining(f); }
  }

  lemma {:induction false} NoiseBound(g: seq<Entry> -> nat, c: nat, ops: seq<Op>)
    requires Capped(g, c)
    ensures Sound(After(ops)) && Bounded(g, c, After(ops), Noise(ops))
  {
    if ops != [] {
      var init, op := ops[..|ops| - 1], ops[|ops| - 1];
      NoiseBound(g, c, init);
      StepStaysSound(After(init), op);
      StepBounded(g, c, After(init), Noise(init), op);
    }
  }

  lemma {:induction false} MeasureBound(g: seq<Entry> -> nat, c: nat, ops: seq<Op>)
    requires Capped(g, c)
    ensures g(After(ops).queue) <= Times(c, Noise(ops).noisy) + c
  {
    NoiseBound(g, c, ops);
  }

  /** Over every interleaving each noisy drain can add at most one more cap's worth, in total, per
      origin and per pair. */
  lemma {:induction false} InterleavedBound(ops: seq<Op>, origin: string, p: Entry)
    ensures |After(ops).queue| <= GLOBAL_CAP * (1 + Noise(ops).noisy)
    ensures CountOrigin(After(ops).queue, origin) <= PER_ORIGIN_CAP * (1 + Noise(ops).noisy)
    ensures CountPair(After(ops).queue, p) <= 1 + Noise(ops).noisy
  {
    var n := Noise(ops).noisy;
    SizeIsCapped();
    MeasureBound(Size(), GLOBAL_CAP, ops);
    TimesIsProduct(GLOBAL_CAP, n);
    OriginIsCapped(origin);
    MeasureBound(OfOrigin(origin), PER_ORIGIN_CAP, ops);
    TimesIsProduct(PER_ORIGIN_CAP, n);
    PairIsCapped(p);
    MeasureBound(OfPair(p), 1, ops);
    TimesIsProduct(1, n);
  }

  lemma {:induction false} QuietIsNoiseless(ops: seq<Op>, n: nat)
    requires n <= |ops| && forall k | 0 <= k < |ops| :: !Intrudes(After(ops[..k]), ops[k])
    ensures Noise(ops[..n]).noisy == 0
  {
    if n > 0 {
      QuietIsNoiseless(ops, n - 1);
      assert ops[..n][..n - 1] == ops[..n - 1];
    }
  }

  /** In runs where nothing is admitted while a drain is suspended the queue keeps all three caps,
      however the drains overlap. */
  lemma {:induction false} QuietRunsKeepCaps(ops: seq<Op>)
    requires forall k | 0 <= k < |ops| :: !Intrudes(After(ops[..k]), ops[k])
    ensures WithinCaps(After(ops).queue)
  {
    QuietIsNoiseless(ops, |ops|);
    assert ops[..|ops|] == ops;
    var q := After(ops).queue;
    InterleavedBound(ops, "", Entry("", "", ""));
    forall p ensures CountPair(q, p) <= 1 { InterleavedBound(ops, "", p); }
    forall origin ensures CountOrigin(q, origin) <= PER_ORIGIN_CAP { InterleavedBound(ops, origin, Entry("", "", "")); }
    PairsOnce(q);
  }

  // ----- the caps really are exceeded -----

  lemma BeginTakesAll(q: seq<Entry>, fs: seq<Flight>, v: View)
    requires q != [] && Suspends(v, 0)
    ensures Step(State(q, fs), Begin(v)) == State([], fs + [Flight(q, [])])
  {
  }

  lemma LockPutsBack(s: State, d: nat, q: seq<Entry>, v: View)
    requires d < |s.flights| && s.flights[d] == Flight(q, []) && q != []
    ensures Step(s, Resume(d, Locked, v)).queue == s.queue + q
    ensures forall i | 0 <= i < |s.flights| && i != d :: Step(s, Resume(d, Locked, v)).flights[i] == s.flights[i]
  {
    assert q[0..] == q;
  }

  /** A full queue whose drain is interrupted by the arrival of a pair it holds, and then locked,
      ends above the global cap with that pair twice. */
  lemma {:induction false} InterruptedDrainOverflows(q: seq<Entry>, v: View)
    requires |q| == GLOBAL_CAP && Suspends(v, 0)
    ensures var a := Step(Step(State(q, []), Begin(v)), Enqueue(q[0]));
      var t := Step(a, Resume(0, Locked, v));
      |t.queue| == GLOBAL_CAP + 1 && !NoDuplicates(t.queue) && !WithinCaps(t.queue)
  {
    BeginTakesAll(q, [], v);
    var a := Step(State([], [Flight(q, [])]), Enqueue(q[0]));
    assert Accepts([], q[0]) && a == State([q[0]], [Flight(q, [])]);
    LockPutsBack(a, 0, q, v);
    var t := Step(a, Resume(0, Locked, v));
    assert t.queue == [q[0]] + q && SamePair(t.queue[0], t.queue[1]);
  }

  /** So does a second drain that takes the arrival and is locked as well: neither sees the other. */
  lemma {:induction false} OverlappingDrainsOverflow(q: seq<Entry>, v: View)
    requires |q| == GLOBAL_CAP && Suspends(v, 0)
    ensures var a := Step(Step(State(q, []), Begin(v)), Enqueue(q[0]));
      var b := Step(a, Begin(v));
      var t := Step(Step(b, Resume(0, Locked, v)), Resume(1, Locked, v));
      b.queue == [] && |t.queue| == GLOBAL_CAP + 1 && !NoDuplicates(t.queue) && !WithinCaps(t.queue)
  {
    BeginTakesAll(q, [], v);
    var a := Step(State([], [Flight(q, [])]), Enqueue(q[0]));
    assert Accepts([], q[0]) && a == State([q[0]], [Flight(q, [])]);
    BeginTakesAll([q[0]], [Flight(q, [])], v);
    var b := Step(a, Begin(v));
    LockPutsBack(b, 0, q, v);
    var c := Step(b, Resume(0, Locked, v));
    LockPutsBack(c, 1, [q[0]], v);
    var t := Step(c, Resume(1, Locked, v));
    assert t.queue == q + [q[0]] && SamePair(t.queue[0], t.queue[GLOBAL_CAP]);
  }
}
