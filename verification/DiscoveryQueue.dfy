/** The locked-wallet discovery queue (packages/wallet-bridge/src/discovery-queue.ts). A drain is
    suspended while a discovery is processed. Meanwhile requests may arrive, and further drains may
    start and be suspended in their turn, since every unlock starts one. */
module DiscoveryQueue {
  import opened Text

  const GLOBAL_CAP: nat := 32
  const PER_ORIGIN_CAP: nat := 4
  const STALE_MS: int := 55 * 1000

  datatype Entry = Entry(requestId: string, origin: string, chainId: string)

  // ----- admission -----

  predicate SamePair(a: Entry, b: Entry) { a.origin == b.origin && a.chainId == b.chainId }

  function CountOrigin(q: seq<Entry>, origin: string): nat
  {
    if q == [] then 0 else (if q[0].origin == origin then 1 else 0) + CountOrigin(q[1..], origin)
  }

  predicate Accepts(q: seq<Entry>, e: Entry)
  {
    && (forall d | d in q :: !SamePair(d, e))
    && CountOrigin(q, e.origin) < PER_ORIGIN_CAP
    && |q| < GLOBAL_CAP
  }

  function Admit(q: seq<Entry>, e: Entry): seq<Entry>
  {
    if Accepts(q, e) then q + [e] else q
  }

  // ----- drains -----

  datatype Status = Gone | NotPending | Pending(timestamp: int)

  /** How processing a discovery ends: it answers true, it answers false, or its promise rejects. */
  datatype Outcome = Handled | Locked | Threw

  datatype Fate = Skipped | RejectedStale | Processed | Requeued | Lost

  /** What one uninterrupted stretch of a drain sees, by snapshot index: what the handler knows of
      the entry when its turn comes, and the clock then. */
  datatype View = View(status: nat -> Status, now: nat -> int)

  /** A drain: the snapshot it took, and the fate of each entry it has dealt with so far. */
  datatype Flight = Flight(snapshot: seq<Entry>, fates: seq<Fate>)

  /** Suspended at the first entry without a fate. */
  predicate Live(f: Flight) { |f.fates| < |f.snapshot| }

  function Remaining(f: Flight): seq<Entry>
  {
    if Live(f) then f.snapshot[|f.fates|..] else []
  }

  predicate Expired(v: View, i: nat)
  {
    v.status(i).Pending? && v.now(i) - v.status(i).timestamp > STALE_MS
  }

  predicate Suspends(v: View, i: nat) { v.status(i).Pending? && !Expired(v, i) }

  /** The drain's loop up to its next suspension, or to its end. */
  function Advanced(f: Flight, v: View): (r: Flight)
    requires |f.fates| <= |f.snapshot|
    ensures r.snapshot == f.snapshot && |f.fates| <= |r.fates| <= |r.snapshot| && r.fates[..|f.fates|] == f.fates
    ensures forall i | |f.fates| <= i < |r.fates| ::
      !Suspends(v, i) && r.fates[i] == if Expired(v, i) then RejectedStale else Skipped
    ensures Live(r) ==> Suspends(v, |r.fates|)
    decreases |f.snapshot| - |f.fates|
  {
    var i := |f.fates|;
    if i == |f.snapshot| || Suspends(v, i) then f
    else Advanced(f.(fates := f.fates + [if Expired(v, i) then RejectedStale else Skipped]), v)
  }

  /** The drain is over: every entry it had left meets this fate. */
  function Ended(f: Flight, fate: Fate): (r: Flight)
    requires |f.fates| <= |f.snapshot|
    ensures r.snapshot == f.snapshot && |r.fates| == |r.snapshot| && r.fates[..|f.fates|] == f.fates
    ensures forall i | |f.fates| <= i < |r.fates| :: r.fates[i] == fate
  {
    f.(fates := f.fates + seq(|f.snapshot| - |f.fates|, _ => fate))
  }

  // ----- the queue and every drain still in flight -----

  datatype State = State(queue: seq<Entry>, flights: seq<Flight>)

  /** What the event loop runs without interruption: an arrival, the start of a drain, or a drain
      going on after its processing ended. */
  datatype Op = Enqueue(e: Entry) | Begin(v: View) | Resume(d: nat, outcome: Outcome, v: View)

  /** The drain exists and is waiting. */
  predicate Waits(s: State, d: nat) { d < |s.flights| && Live(s.flights[d]) }

  function Step(s: State, op: Op): State
  {
    match op
    case Enqueue(e) => s.(queue := Admit(s.queue, e))
    case Begin(v) =>
      if s.queue == [] then s else State([], s.flights + [Advanced(Flight(s.queue, []), v)])
    case Resume(d, outcome, v) =>
      if !Waits(s, d) then s
      else
        var f := s.flights[d];
        match outcome
        case Handled => s.(flights := s.flights[d := Advanced(f.(fates := f.fates + [Processed]), v)])
        case Locked => State(s.queue + Remaining(f), s.flights[d := Ended(f, Requeued)])
        case Threw => s.(flights := s.flights[d := Ended(f, Lost)])
  }

  function After(ops: seq<Op>): State
  {
    if ops == [] then State([], []) else Step(After(ops[..|ops| - 1]), ops[|ops| - 1])
  }

  lemma AfterStep(ops: seq<Op>, n: nat)
    requires n < |ops|
    ensures After(ops[..n + 1]) == Step(After(ops[..n]), ops[n])
  {
    assert ops[..n + 1][..n] == ops[..n];
  }

  /** Empty for an empty queue, the length in decimal otherwise. */
  function BadgeText(n: nat): (text: string)
    ensures text == "" <==> n == 0
    ensures n > 0 ==> AllDigits(text) && NatOf(text) == n
  {
    if n > 0 then Decimal(n) else ""
  }

  class Queue {
    var queue: seq<Entry>
    var badge: string
    var flights: seq<Flight>      // the suspended drains, as the locals they resume with

    /** The badge shows the queue's length whenever control is given up. */
    ghost predicate Valid()
      reads this
    {
      badge == BadgeText(|queue|) && forall i | 0 <= i < |flights| :: |flights[i].fates| <= |flights[i].snapshot|
    }

    ghost function Now(): State reads this { State(queue, flights) }

    constructor ()
      ensures Valid() && Now() == State([], [])
    {
      queue, badge, flights := [], "", [];
    }

    method UpdateBadge()
      modifies this`badge
      ensures badge == BadgeText(|queue|)
    {
      badge := if |queue| > 0 then Decimal(|queue|) else "";
    }

    method EnqueueDiscovery(e: Entry) returns (queued: bool)
      requires Valid()
      modifies this
      ensures Valid() && queued == Accepts(old(queue), e) && Now() == Step(old(Now()), Enqueue(e))
    {
      if exists d | d in queue :: SamePair(d, e) { return false; }
      var sameOrigin := 0;
      for i := 0 to |queue|
        invariant sameOrigin + CountOrigin(queue[i..], e.origin) == CountOrigin(queue, e.origin)
        invariant queue == old(queue) && flights == old(flights) && badge == old(badge)
      {
        assert queue[i..][1..] == queue[i + 1..];
        if queue[i].origin == e.origin { sameOrigin := sameOrigin + 1; }
      }
      assert queue[|queue|..] == [];
      if sameOrigin >= PER_ORIGIN_CAP { return false; }
      if |queue| >= GLOBAL_CAP { return false; }
      queue := queue + [e];
      UpdateBadge();
      return true;
    }

    /** The loop of `drain`, from the next entry to the next `await` or to the end. */
    method Advance(f: Flight, v: View) returns (r: Flight)
      requires |f.fates| <= |f.snapshot|
      ensures r == Advanced(f, v) && r.snapshot == f.snapshot && |f.fates| <= |r.fates| <= |r.snapshot|
      ensures forall i | |f.fates| <= i < |r.fates| ::
        if v.status(i).Pending? then v.now(i) - v.status(i).timestamp > 55_000 && r.fates[i] == RejectedStale
        else r.fates[i] == Skipped
      ensures Live(r) ==>
        var i := |r.fates|; v.status(i).Pending? && v.now(i) - v.status(i).timestamp <= 55_000
    {
      r := f;
      while |r.fates| < |r.snapshot|
        invariant r.snapshot == f.snapshot && |r.fates| <= |r.snapshot|
        invariant Advanced(r, v) == Advanced(f, v)
        decreases |r.snapshot| - |r.fates|
      {
        var i := |r.fates|;
        if !v.status(i).Pending? {
          r := r.(fates := r.fates + [Skipped]);
        } else if v.now(i) - v.status(i).timestamp > STALE_MS {
          r := r.(fates := r.fates + [RejectedStale]);
        } else {
          break;
        }
      }
      assert r == Advanced(f, v);
      forall i | |f.fates| <= i < |r.fates|
        ensures if v.status(i).Pending? then v.now(i) - v.status(i).timestamp > 55_000 && r.fates[i] == RejectedStale
                else r.fates[i] == Skipped
      {
        assert !Suspends(v, i) && r.fates[i] == if Expired(v, i) then RejectedStale else Skipped;
      }
    }

    /** `drain` up to its first `await`. */
    method Drain(v: View)
      requires Valid()
      modifies this
      ensures Valid() && Now() == Step(old(Now()), Begin(v))
    {
      if |queue| == 0 { return; }
      var snapshot := queue;
      queue := [];
      UpdateBadge();
      var f := Advance(Flight(snapshot, []), v);
      flights := flights + [f];
    }

    /** `drain` from the end of an `await` to the next one. A throw leaves the queue as it is, since
        the snapshot was taken off it first. */
    method ResumeDrain(d: nat, outcome: Outcome, v: View)
      requires Valid() && Waits(Now(), d)
      modifies this
      ensures Valid() && Now() == Step(old(Now()), Resume(d, outcome, v))
    {
      var f := flights[d];
      match outcome {
        case Handled =>
          var r := Advance(f.(fates := f.fates + [Processed]), v);
          flights := flights[d := r];
        case Locked =>
          queue := queue + f.snapshot[|f.fates|..];
          UpdateBadge();
          flights := flights[d := Ended(f, Requeued)];
        case Threw =>
          flights := flights[d := Ended(f, Lost)];
      }
    }
  }

  // ----- every drain deals with its snapshot in order -----

  predicate Settled(fate: Fate) { fate in {Skipped, RejectedStale, Processed} }

  /** Entries before k are settled; from k on they have no fate yet, or all are put back, or all are
      lost. */
  predicate SettledUpTo(f: Flight, k: nat)
  {
    && k <= |f.fates| <= |f.snapshot| && (forall i | 0 <= i < k :: Settled(f.fates[i]))
    && (k < |f.fates| ==>
          && !Live(f) && f.fates[k] in {Requeued, Lost}
          && forall i | k <= i < |f.fates| :: f.fates[i] == f.fates[k])
  }

  ghost predicate InOrder(f: Flight) { exists k :: SettledUpTo(f, k) }

  lemma LiveIsSettled(f: Flight)
    requires InOrder(f) && Live(f)
    ensures SettledUpTo(f, |f.fates|)
  {
  }

  lemma AdvancedInOrder(f: Flight, v: View)
    requires SettledUpTo(f, |f.fates|)
    ensures InOrder(Advanced(f, v))
  {
    var r := Advanced(f, v);
    forall i | 0 <= i < |r.fates| ensures Settled(r.fates[i]) {
      if i < |f.fates| { assert r.fates[i] == r.fates[..|f.fates|][i] == f.fates[i]; }
    }
    assert SettledUpTo(r, |r.fates|);
  }

  lemma EndedInOrder(f: Flight, fate: Fate)
    requires SettledUpTo(f, |f.fates|) && fate in {Requeued, Lost}
    ensures InOrder(Ended(f, fate))
  {
    var r := Ended(f, fate);
    forall i | 0 <= i < |f.fates| ensures Settled(r.fates[i]) {
      assert r.fates[i] == r.fates[..|f.fates|][i] == f.fates[i];
    }
    assert SettledUpTo(r, |f.fates|);
  }

  ghost predicate AllInOrder(s: State) { forall d | 0 <= d < |s.flights| :: InOrder(s.flights[d]) }

  lemma {:induction false} StepInOrder(s: State, op: Op)
    requires AllInOrder(s)
    ensures AllInOrder(Step(s, op))
  {
    match op
    case Enqueue(_) =>
    case Begin(v) =>
      assert SettledUpTo(Flight(s.queue, []), 0);
      AdvancedInOrder(Flight(s.queue, []), v);
    case Resume(d, outcome, v) =>
      if Waits(s, d) {
        var f := s.flights[d];
        LiveIsSettled(f);
        var g := f.(fates := f.fates + [Processed]);
        assert SettledUpTo(g, |g.fates|);
        AdvancedInOrder(g, v);
        EndedInOrder(f, Requeued);
        EndedInOrder(f, Lost);
      }
  }

  lemma {:induction false} DrainsKeepOrder(ops: seq<Op>)
    ensures AllInOrder(After(ops))
  {
    if ops != [] {
      DrainsKeepOrder(ops[..|ops| - 1]);
      StepInOrder(After(ops[..|ops| - 1]), ops[|ops| - 1]);
    }
  }

  // ----- additive measures of lists of entries -----

  ghost predicate Additive(g: seq<Entry> -> nat)
  {
    g([]) == 0 && forall a, b {:trigger g(a + b)} :: g(a + b) == g(a) + g(b)
  }

  lemma SuffixMeasure(g: seq<Entry> -> nat, q: seq<Entry>, k: nat)
    requires Additive(g) && k <= |q|
    ensures g(q) == g(q[..k]) + g(q[k..])
  {
    assert q == q[..k] + q[k..];
  }

  function Total(fs: seq<Flight>, part: Flight -> nat): nat
  {
    if fs == [] then 0 else Total(fs[..|fs| - 1], part) + part(fs[|fs| - 1])
  }

  lemma TotalAppend(fs: seq<Flight>, f: Flight, part: Flight -> nat)
    ensures Total(fs + [f], part) == Total(fs, part) + part(f)
  {
    assert (fs + [f])[..|fs|] == fs;
  }

  lemma {:induction false} TotalUpdate(fs: seq<Flight>, d: nat, f: Flight, part: Flight -> nat)
    requires d < |fs|
    ensures Total(fs[d := f], part) + part(fs[d]) == Total(fs, part) + part(f)
  {
    var k := |fs| - 1;
    if d == k {
      assert fs[d := f][..k] == fs[..k];
    } else {
      TotalUpdate(fs[..k], d, f, part);
      assert fs[d := f][..k] == fs[..k][d := f];
    }
  }

  /** What waits in suspended drains, measured. */
  function Waiting(g: seq<Entry> -> nat): Flight -> nat
  {
    (f: Flight) => g(Remaining(f))
  }

  lemma AdvancedLeaves(g: seq<Entry> -> nat, f: Flight, r: Flight)
    requires Additive(g) && r.snapshot == f.snapshot && |f.fates| <= |r.fates| <= |r.snapshot|
    ensures g(Remaining(r)) <= g(Remaining(f))
  {
    if Live(r) {
      var k := |r.fates| - |f.fates|;
      assert Remaining(r) == Remaining(f)[k..];
      SuffixMeasure(g, Remaining(f), k);
    }
  }

  // ----- conservation -----

  /** The entries whose drain has settled or lost them: all with a fate, except those put back. */
  function Spent(f: Flight): seq<Entry>
    decreases |f.fates|
  {
    if f.fates == [] || |f.fates| > |f.snapshot| then []
    else
      var k := |f.fates| - 1;
      Spent(f.(fates := f.fates[..k])) + if f.fates[k].Requeued? then [] else [f.snapshot[k]]
  }

  /** What a drain still accounts for: its spent and its waiting entries. */
  function Held(g: seq<Entry> -> nat): Flight -> nat
  {
    (f: Flight) => var n: nat := g(Spent(f)) + g(Remaining(f)); n
  }

  /** One more fate, other than being put back, moves an entry from waiting to spent. */
  lemma {:induction false} SpendOne(g: seq<Entry> -> nat, f: Flight, fate: Fate)
    requires Additive(g) && Live(f) && !fate.Requeued?
    ensures Held(g)(f.(fates := f.fates + [fate])) == Held(g)(f)
  {
    var r := f.(fates := f.fates + [fate]);
    var x := [f.snapshot[|f.fates|]];
    assert r.fates[..|r.fates| - 1] == f.fates;
    assert Spent(r) == Spent(f) + x;
    assert Remaining(f) == x + Remaining(r);
  }

  lemma {:induction false} SpendSome(g: seq<Entry> -> nat, f: Flight, r: Flight)
    requires Additive(g) && r.snapshot == f.snapshot && |f.fates| <= |r.fates| <= |r.snapshot|
    requires r.fates[..|f.fates|] == f.fates
    requires forall i | |f.fates| <= i < |r.fates| :: !r.fates[i].Requeued?
    ensures Held(g)(r) == Held(g)(f)
    decreases |r.fates|
  {
    if |f.fates| < |r.fates| {
      var k := |r.fates| - 1;
      var m := r.(fates := r.fates[..k]);
      SpendSome(g, f, m);
      SpendOne(g, m, r.fates[k]);
      assert r.fates[..k] + [r.fates[k]] == r.fates;
    } else {
      assert r.fates == f.fates;
    }
  }

  lemma {:induction false} PutBackSpendsNothing(f: Flight, r: Flight)
    requires r.snapshot == f.snapshot && |f.fates| <= |r.fates| <= |r.snapshot| && r.fates[..|f.fates|] == f.fates
    requires forall i | |f.fates| <= i < |r.fates| :: r.fates[i].Requeued?
    ensures Spent(r) == Spent(f)
    decreases |r.fates|
  {
    if |f.fates| < |r.fates| {
      var k := |r.fates| - 1;
      PutBackSpendsNothing(f, r.(fates := r.fates[..k]));
    } else {
      assert r.fates == f.fates;
    }
  }

  /** Every entry ever admitted, in order. */
  function Admitted(ops: seq<Op>): seq<Entry>
  {
    if ops == [] then []
    else
      var init, op := ops[..|ops| - 1], ops[|ops| - 1];
      Admitted(init) + if op.Enqueue? && Accepts(After(init).queue, op.e) then [op.e] else []
  }

  ghost predicate Sound(s: State) { forall d | 0 <= d < |s.flights| :: |s.flights[d].fates| <= |s.flights[d].snapshot| }

  /** A step accounts for every entry: what it adds to the books is what it admits. */
  lemma {:induction false} StepBalances(g: seq<Entry> -> nat, s: State, op: Op)
    requires Additive(g) && Sound(s)
    ensures Sound(Step(s, op))
    ensures var t := Step(s, op);
      g(t.queue) + Total(t.flights, Held(g)) ==
      g(s.queue) + Total(s.flights, Held(g)) + if op.Enqueue? && Accepts(s.queue, op.e) then g([op.e]) else 0
  {
    match op
    case Enqueue(_) =>
    case Begin(v) =>
      if s.queue != [] {
        var f := Flight(s.queue, []);
        SpendSome(g, f, Advanced(f, v));
        assert Remaining(f) == s.queue;
        TotalAppend(s.flights, Advanced(f, v), Held(g));
      }
    case Resume(d, outcome, v) =>
      if Waits(s, d) { ResumeBalances(g, s, d, outcome, v); }
  }

  lemma {:induction false} ResumeBalances(g: seq<Entry> -> nat, s: State, d: nat, outcome: Outcome, v: View)
    requires Additive(g) && Sound(s) && Waits(s, d)
    ensures var t := Step(s, Resume(d, outcome, v));
      Sound(t) && g(t.queue) + Total(t.flights, Held(g)) == g(s.queue) + Total(s.flights, Held(g))
  {
    var f := s.flights[d];
    match outcome
    case Handled =>
      var m := f.(fates := f.fates + [Processed]);
      SpendOne(g, f, Processed);
      SpendSome(g, m, Advanced(m, v));
      TotalUpdate(s.flights, d, Advanced(m, v), Held(g));
    case Locked =>
      PutBackSpendsNothing(f, Ended(f, Requeued));
      TotalUpdate(s.flights, d, Ended(f, Requeued), Held(g));
    case Threw =>
      SpendSome(g, f, Ended(f, Lost));
      TotalUpdate(s.flights, d, Ended(f, Lost), Held(g));
  }

  lemma {:induction false} BooksBalance(g: seq<Entry> -> nat, ops: seq<Op>)
    requires Additive(g)
    ensures Sound(After(ops))
    ensures g(Admitted(ops)) == g(After(ops).queue) + Total(After(ops).flights, Held(g))
  {
    if ops != [] {
      var init := ops[..|ops| - 1];
      BooksBalance(g, init);
      StepBalances(g, After(init), ops[|ops| - 1]);
    }
  }

  function Occurrences(x: Entry): seq<Entry> -> nat
  {
    (q: seq<Entry>) => multiset(q)[x]
  }

  /** Drains conserve entries under every interleaving of arrivals and drains: each admitted entry
      is in the queue, waits in one suspended drain, or has been settled or lost by one, as often as
      it was admitted; and every drain deals with its snapshot in order, putting back or losing
      only a suffix. */
  lemma {:induction false} DrainConserves(ops: seq<Op>, x: Entry)
    ensures AllInOrder(After(ops))
    ensures multiset(Admitted(ops))[x] ==
            multiset(After(ops).queue)[x] + Total(After(ops).flights, Held(Occurrences(x)))
  {
    DrainsKeepOrder(ops);
    BooksBalance(Occurrences(x), ops);
  }

  // ----- throwing -----

  /** The operation ends a waiting drain with a throw. */
  predicate Throws(s: State, op: Op) { op.Resume? && op.outcome.Threw? && Waits(s, op.d) }

  ghost predicate NothingLost(s: State)
  {
    forall d | 0 <= d < |s.flights| :: Lost !in s.flights[d].fates
  }

  lemma NoLossIn(f: Flight, v: View)
    requires |f.fates| <= |f.snapshot|
    ensures Lost in Advanced(f, v).fates <==> Lost in f.fates
    ensures Lost in Ended(f, Requeued).fates <==> Lost in f.fates
    ensures Live(f) ==> Lost in Ended(f, Lost).fates
  {
    var a, e := Advanced(f, v), Ended(f, Requeued);
    assert forall i | 0 <= i < |f.fates| :: a.fates[i] == a.fates[..|f.fates|][i] == f.fates[i];
    assert forall i | 0 <= i < |f.fates| :: e.fates[i] == e.fates[..|f.fates|][i] == f.fates[i];
    if Live(f) { assert Ended(f, Lost).fates[|f.fates|] == Lost; }
  }

  lemma {:induction false} StepLoses(s: State, op: Op)
    requires Sound(s)
    ensures NothingLost(Step(s, op)) <==> NothingLost(s) && !Throws(s, op)
  {
    match op
    case Enqueue(_) =>
    case Begin(v) =>
      var t := Step(s, op);
      NoLossIn(Flight(s.queue, []), v);
      assert forall d | 0 <= d < |s.flights| :: t.flights[d] == s.flights[d];
    case Resume(d, outcome, v) =>
      if Waits(s, d) {
        FlightLoses(s.flights[d], outcome, v);
        NothingLostUpdate(s.flights, d, Step(s, op).flights[d]);
      }
  }

  lemma {:induction false} FlightLoses(f: Flight, outcome: Outcome, v: View)
    requires Live(f)
    ensures var r := match outcome
        case Handled => Advanced(f.(fates := f.fates + [Processed]), v)
        case Locked => Ended(f, Requeued)
        case Threw => Ended(f, Lost);
      Lost in r.fates <==> outcome.Threw? || Lost in f.fates
  {
    NoLossIn(f, v);
    NoLossIn(f.(fates := f.fates + [Processed]), v);
    assert Lost in f.fates + [Processed] <==> Lost in f.fates;
  }

  lemma NothingLostUpdate(fs: seq<Flight>, d: nat, f: Flight)
    requires d < |fs|
    ensures NothingLost(State([], fs[d := f])) <==>
            Lost !in f.fates && forall i | 0 <= i < |fs| && i != d :: Lost !in fs[i].fates
  {
    assert fs[d := f][d] == f;
    assert forall i | 0 <= i < |fs| && i != d :: fs[d := f][i] == fs[i];
  }

  /** Operation n of the run throws. */
  predicate ThrowsAt(ops: seq<Op>, n: nat)
    requires n < |ops|
  {
    Throws(After(ops[..n]), ops[n])
  }

  function ThrowsIn(ops: seq<Op>): nat -> bool
  {
    (n: nat) => n < |ops| && ThrowsAt(ops, n)
  }

  predicate Never(p: nat -> bool, n: nat) { n == 0 || (Never(p, n - 1) && !p(n - 1)) }

  lemma {:induction false} NeverMeans(p: nat -> bool, n: nat)
    ensures Never(p, n) <==> forall k | 0 <= k < n :: !p(k)
  {
    if n > 0 { NeverMeans(p, n - 1); }
  }

  lemma {:induction false} LostUpTo(ops: seq<Op>, n: nat)
    requires n <= |ops|
    ensures Sound(After(ops[..n]))
    ensures NothingLost(After(ops[..n])) <==> Never(ThrowsIn(ops), n)
  {
    if n > 0 {
      LostUpTo(ops, n - 1);
      AfterStep(ops, n - 1);
      var s, op := After(ops[..n - 1]), ops[n - 1];
      StepStaysSound(s, op);
      StepLoses(s, op);
      assert ThrowsIn(ops)(n - 1) <==> Throws(s, op);
    }
  }

  lemma {:induction false} StepStaysSound(s: State, op: Op)
    requires Sound(s)
    ensures Sound(Step(s, op))
  {
  }

  /** Over a whole run no entry is lost exactly when no processing throws. */
  lemma {:induction false} NothingLostExactly(ops: seq<Op>)
    ensures NothingLost(After(ops)) <==> forall n | 0 <= n < |ops| :: !ThrowsAt(ops, n)
  {
    LostUpTo(ops, |ops|);
    NeverMeans(ThrowsIn(ops), |ops|);
    assert forall n | 0 <= n < |ops| :: ThrowsIn(ops)(n) <==> ThrowsAt(ops, n);
    assert ops[..|ops|] == ops;
  }

  /** A throw loses the entry being processed and all behind it, and puts nothing back. */
  lemma ThrowLosesTheRest(s: State, d: nat, v: View)
    requires Waits(s, d)
    ensures var t := Step(s, Resume(d, Threw, v));
      && t.queue == s.queue && !Live(t.flights[d])
      && forall i | |s.flights[d].fates| <= i < |s.flights[d].snapshot| :: t.flights[d].fates[i] == Lost
  {
  }
}
