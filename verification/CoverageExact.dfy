/** Coverage is not only sound but exact on pattern lists: it holds precisely when the request
    adds no call. The converse needs a call that only the request permits, built from a function
    name and an address that no stored pattern mentions. */
module CoverageExact {
  import opened Wire
  import opened FieldAddress
  import opened Capabilities
  import opened Methods
  import opened ScopeCheckers
  import opened Coverage

  // ----- witnesses no stored pattern mentions -----

  function ContractsIn(ps: seq<ScopePattern>): (r: seq<string>)
    ensures |r| == |ps|
    ensures forall p | p in ps :: p.contract in r
  {
    if ps == [] then [] else [ps[0].contract] + ContractsIn(ps[1..])
  }

  /** A name longer than every listed function name, and longer than the wildcard. */
  function FreshName(ps: seq<ScopePattern>): (f: string)
    ensures |f| >= 2
    ensures forall p | p in ps :: |p.fn| < |f|
  {
    if ps == [] then "ff"
    else
      var rest := FreshName(ps[1..]);
      if |rest| > |ps[0].fn| then rest else ps[0].fn + rest
  }

  function PatternsIn(scopes: seq<Scope>): (ps: seq<ScopePattern>)
    ensures forall s, p | s in scopes && s.Listed? && p in s.patterns :: p in ps
  {
    if scopes == [] then []
    else if scopes[0].Listed? then scopes[0].patterns + PatternsIn(scopes[1..])
    else PatternsIn(scopes[1..])
  }

  function Target(rp: ScopePattern, address: string): string
  {
    if rp.contract == "*" then address else rp.contract
  }

  function Callee(rp: ScopePattern, name: string): string
  {
    if rp.fn == "*" then name else rp.fn
  }

  /** The call that tests one requested pattern: wildcards are filled with the fresh witnesses. */
  function Probe(rp: ScopePattern, address: string, name: string): (call: Value)
    ensures !IsNullish(call) && IsCall(call)
    ensures ToStr(Field(call, "to")) == Target(rp, address) && Field(call, "name") == Str(Callee(rp, name))
  {
    Obj(map["to" := Str(Target(rp, address)), "name" := Str(Callee(rp, name))])
  }

  function Probes(rps: seq<ScopePattern>, address: string, name: string): (calls: seq<Value>)
    ensures |calls| == |rps|
    ensures forall i | 0 <= i < |rps| :: calls[i] == Probe(rps[i], address, name)
  {
    seq(|rps|, i requires 0 <= i < |rps| => Probe(rps[i], address, name))
  }

  lemma ProbeMatches(rp: ScopePattern, address: string, name: string)
    requires WellFormedPattern(rp) && |name| >= 2
    ensures MatchesPattern(Target(rp, address), Str(Callee(rp, name)), rp) && Callee(rp, name) != ""
  {
  }

  lemma ProbesMatchRequest(rps: seq<ScopePattern>, address: string, name: string)
    requires forall rp | rp in rps :: WellFormedPattern(rp)
    requires |name| >= 2
    ensures AllCallsMatch(Probes(rps, address, name), Listed(rps))
  {
    var calls := Probes(rps, address, name);
    forall call | call in calls ensures CallMatches(call, Listed(rps)) {
      var i :| 0 <= i < |calls| && calls[i] == call;
      assert call == Probe(rps[i], address, name);
      ProbeMatches(rps[i], address, name);
    }
  }

  lemma ProbeForces(rp: ScopePattern, ep: ScopePattern, address: string, name: string)
    requires WellFormedPattern(rp)
    requires |ep.fn| < |name| && !SameFieldAddress(ep.contract, address)
    requires MatchesPattern(Target(rp, address), Str(Callee(rp, name)), ep)
    ensures PatternCovers(ep, rp)
  {
  }

  /** A scope that matches every probe covers every pattern. */
  lemma ProbesForceCoverage(rps: seq<ScopePattern>, existing: Scope, address: string, name: string)
    requires forall rp | rp in rps :: WellFormedPattern(rp)
    requires existing.Listed? ==>
      forall p | p in existing.patterns :: |p.fn| < |name| && !SameFieldAddress(p.contract, address)
    requires AllCallsMatch(Probes(rps, address, name), existing)
    ensures ScopeCovers(existing, Listed(rps))
  {
    if existing.Listed? {
      forall rp | rp in rps ensures exists ep | ep in existing.patterns :: PatternCovers(ep, rp) {
        var i :| 0 <= i < |rps| && rps[i] == rp;
        var call := Probes(rps, address, name)[i];
        assert call == Probe(rp, address, name);
        assert CallMatches(call, existing);
        var ep :| ep in existing.patterns && MatchesPattern(Target(rp, address), Str(Callee(rp, name)), ep);
        ProbeForces(rp, ep, address, name);
      }
    }
  }

  /** One fresh pair of witnesses decides coverage by a whole family of scopes at once. */
  lemma ScopesExact(scopes: seq<Scope>, rps: seq<ScopePattern>) returns (calls: seq<Value>)
    requires forall rp | rp in rps :: WellFormedPattern(rp)
    requires |PatternsIn(scopes)| < MODULUS
    ensures |calls| == |rps| && (forall c | c in calls :: IsCall(c))
    ensures AllCallsMatch(calls, Listed(rps))
    ensures forall s | s in scopes && AllCallsMatch(calls, s) :: ScopeCovers(s, Listed(rps))
  {
    var all := PatternsIn(scopes);
    var address := UnlistedAddress(ContractsIn(all));
    var name := FreshName(all);
    calls := Probes(rps, address, name);
    ProbesMatchRequest(rps, address, name);
    forall s | s in scopes && AllCallsMatch(calls, s) ensures ScopeCovers(s, Listed(rps)) {
      ProbesForceCoverage(rps, s, address, name);
    }
  }

  // ----- scopeCovers -----

  ghost predicate AddsNoCall(existing: Scope, requested: Scope)
  {
    forall contract, fn | IsFieldAddress(contract) && MatchesScope(contract, Str(fn), requested) ::
      MatchesScope(contract, Str(fn), existing)
  }

  /** `scopeCovers` on a requested pattern list holds exactly when every call on a real address
      that the list matches is matched by the existing scope. */
  lemma ScopeCoversExact(existing: Scope, rps: seq<ScopePattern>)
    requires forall rp | rp in rps :: WellFormedPattern(rp)
    requires existing.Listed? ==> |existing.patterns| < MODULUS
    ensures ScopeCovers(existing, Listed(rps)) <==> AddsNoCall(existing, Listed(rps))
  {
    if ScopeCovers(existing, Listed(rps)) {
      forall contract, fn | IsFieldAddress(contract) && MatchesScope(contract, Str(fn), Listed(rps))
        ensures MatchesScope(contract, Str(fn), existing)
      {
        MatchesIsMonotone(existing, Listed(rps), contract, Str(fn));
      }
    }
    if AddsNoCall(existing, Listed(rps)) && existing.Listed? {
      AddsNoCallCovers(existing, rps);
    }
  }

  lemma AddsNoCallCovers(existing: Scope, rps: seq<ScopePattern>)
    requires forall rp | rp in rps :: WellFormedPattern(rp)
    requires existing.Listed? && |existing.patterns| < MODULUS
    requires AddsNoCall(existing, Listed(rps))
    ensures ScopeCovers(existing, Listed(rps))
  {
    var address := UnlistedAddress(ContractsIn(existing.patterns));
    var name := FreshName(existing.patterns);
    var calls := Probes(rps, address, name);
    forall call | call in calls ensures CallMatches(call, existing) {
      var i :| 0 <= i < |calls| && calls[i] == call;
      var rp := rps[i];
      assert call == Probe(rp, address, name) && WellFormedPattern(rp);
      ProbeMatches(rp, address, name);
      assert IsFieldAddress(Target(rp, address));
      assert MatchesScope(Target(rp, address), Str(Callee(rp, name)), Listed(rps));
      assert MatchesScope(Target(rp, address), Str(Callee(rp, name)), existing);
    }
    ProbesForceCoverage(rps, existing, address, name);
  }

  /** For a requested `*` the test is deliberately incomplete: the one list that matches every
      call, a list with the double wildcard, is not recognised. Everywhere else it is exact. */
  lemma AnyScopeExactness(existing: Scope)
    requires existing.Listed? ==> |existing.patterns| < MODULUS
    ensures AddsNoCall(existing, AnyScope) <==>
            ScopeCovers(existing, AnyScope) || ScopePattern("*", "*") in existing.patterns
  {
    if existing.Listed? {
      if AddsNoCall(existing, AnyScope) {
        var address := UnlistedAddress(ContractsIn(existing.patterns));
        var name := FreshName(existing.patterns);
        assert MatchesScope(address, Str(name), AnyScope);
        var p :| p in existing.patterns && MatchesPattern(address, Str(name), p);
        assert p == ScopePattern("*", "*");
      }
      if ScopePattern("*", "*") in existing.patterns { DoubleWildcardAsksAgain(existing.patterns); }
    }
  }

  /** The missed case, for every list that holds the double wildcard. */
  lemma {:induction false} DoubleWildcardAsksAgain(ps: seq<ScopePattern>)
    requires ScopePattern("*", "*") in ps
    ensures AddsNoCall(Listed(ps), AnyScope) && !ScopeCovers(Listed(ps), AnyScope)
  {
    forall contract, fn | MatchesScope(contract, Str(fn), AnyScope)
      ensures MatchesScope(contract, Str(fn), Listed(ps))
    {
      assert MatchesPattern(contract, Str(fn), ScopePattern("*", "*"));
    }
  }

  // ----- whole transactions: one grant must cover every call -----

  function TransactionScopes(grants: seq<Capability>): (r: seq<Scope>)
    ensures forall c | c in grants && c.Transaction? :: c.scope in r
    ensures forall s | s in r :: Transaction(s) in grants
  {
    if grants == [] then []
    else if grants[0].Transaction? then [grants[0].scope] + TransactionScopes(grants[1..])
    else TransactionScopes(grants[1..])
  }

  ghost predicate SendsNothingNew(requested: Capability, stored: seq<Capability>)
  {
    forall args: seq<Value> | AuthShape(SendTx, args) && Permits(SendTx, args, [requested]) ::
      Permits(SendTx, args, stored)
  }

  lemma {:induction false} CoveredSendsNothingNew(rps: seq<ScopePattern>, stored: seq<Capability>)
    requires forall rp | rp in rps :: WellFormedPattern(rp)
    requires Covered(Transaction(Listed(rps)), stored)
    ensures SendsNothingNew(Transaction(Listed(rps)), stored)
  {
    var r := Transaction(Listed(rps));
    assert forall c :: c in [r] <==> c == r;
    forall args: seq<Value> | Permits(SendTx, args, [r]) ensures Permits(SendTx, args, stored) {
      CoverageSound(SendTx, args, [r], stored);
    }
  }

  /** A transaction of these calls passes when the request alone is granted. */
  lemma {:induction false} WitnessSends(r: Capability, calls: seq<Value>) returns (args: seq<Value>)
    requires r.Transaction? && (forall c | c in calls :: IsCall(c)) && AllCallsMatch(calls, r.scope)
    ensures Field(Arg(args, 0), "calls") == Arr(calls)
    ensures AuthShape(SendTx, args) && Permits(SendTx, args, [r])
  {
    args := [Obj(map["calls" := Arr(calls)])];
    assert r in [r] && Holds([r], TRANSACTION);
  }

  lemma {:induction false} SendsNothingNewCovers(rps: seq<ScopePattern>, stored: seq<Capability>)
    requires forall rp | rp in rps :: WellFormedPattern(rp)
    requires forall c | c in stored :: WellFormed(c)
    requires |PatternsIn(TransactionScopes(stored))| < MODULUS
    requires SendsNothingNew(Transaction(Listed(rps)), stored)
    ensures Covered(Transaction(Listed(rps)), stored)
  {
    var r := Transaction(Listed(rps));
    var calls := ScopesExact(TransactionScopes(stored), rps);
    var args := WitnessSends(r, calls);
    assert Permits(SendTx, args, stored);
    if calls == [] {
      var e :| e in stored && TypeOf(e) == TRANSACTION;
      assert e.Transaction? && ScopeCovers(e.scope, r.scope);
    } else {
      var e :| e in stored && e.Transaction? && AllCallsMatch(calls, e.scope);
      assert ScopeCovers(e.scope, r.scope);
    }
  }

  /** A transaction request is covered exactly when no multi-call `sendTx` becomes possible by
      granting it. One grant must cover all the calls of a transaction, so the witness is a single
      transaction that exercises every requested pattern at once. */
  lemma {:induction false} TransactionCoverageExact(rps: seq<ScopePattern>, stored: seq<Capability>)
    requires forall rp | rp in rps :: WellFormedPattern(rp)
    requires forall c | c in stored :: WellFormed(c)
    requires |PatternsIn(TransactionScopes(stored))| < MODULUS
    ensures Covered(Transaction(Listed(rps)), stored) <==> SendsNothingNew(Transaction(Listed(rps)), stored)
  {
    if Covered(Transaction(Listed(rps)), stored) { CoveredSendsNothingNew(rps, stored); }
    if SendsNothingNew(Transaction(Listed(rps)), stored) { SendsNothingNewCovers(rps, stored); }
  }

  lemma SplitPatternsNotCovered(pa: ScopePattern, pb: ScopePattern)
    requires IsFieldAddress(pa.contract) && IsFieldAddress(pb.contract) && !SameFieldAddress(pa.contract, pb.contract)
    ensures !ScopeCovers(Listed([pa]), Listed([pa, pb])) && !ScopeCovers(Listed([pb]), Listed([pa, pb]))
  {
    assert pa in [pa, pb] && pb in [pa, pb];
    assert forall p :: p in [pa] <==> p == pa;
    assert forall p :: p in [pb] <==> p == pb;
    assert !PatternCovers(pa, pb) && !PatternCovers(pb, pa);
  }

  lemma TwoGrantScopes(pa: ScopePattern, pb: ScopePattern)
    ensures |PatternsIn(TransactionScopes([Transaction(Listed([pa])), Transaction(Listed([pb]))]))| == 2
  {
    var ta, tb := Transaction(Listed([pa])), Transaction(Listed([pb]));
    var sa, sb := Listed([pa]), Listed([pb]);
    assert [ta, tb][1..] == [tb] && [tb][1..] == [];
    assert TransactionScopes([tb]) == [sb] + TransactionScopes([]);
    assert TransactionScopes([ta, tb]) == [sa] + TransactionScopes([tb]) == [sa, sb];
    assert [sa, sb][1..] == [sb] && [sb][1..] == [];
    assert PatternsIn([sb]) == [pb] + PatternsIn([]);
    assert PatternsIn([sa, sb]) == [pa] + PatternsIn([sb]);
  }

  lemma CoveredByItself(rp: ScopePattern, stored: seq<Capability>)
    requires WellFormedPattern(rp) && Transaction(Listed([rp])) in stored
    ensures Covered(Transaction(Listed([rp])), stored)
  {
    assert PatternCovers(rp, rp) && rp in [rp];
    assert ScopeCovers(Listed([rp]), Listed([rp]));
  }

  /** Judging coverage by the union of the stored grants would be unsound: two grants can each
      cover one of two requested patterns while no stored grant permits the transaction that uses
      both. */
  lemma {:induction false} UnionWouldBeUnsound(pa: ScopePattern, pb: ScopePattern, stored: seq<Capability>)
    requires IsFieldAddress(pa.contract) && IsFieldAddress(pb.contract) && !SameFieldAddress(pa.contract, pb.contract)
    requires pa.fn != "" && pb.fn != ""
    requires stored == [Transaction(Listed([pa])), Transaction(Listed([pb]))]
    ensures Covered(Transaction(Listed([pa])), stored) && Covered(Transaction(Listed([pb])), stored)
    ensures !SendsNothingNew(Transaction(Listed([pa, pb])), stored)
  {
    assert stored[0] in stored && stored[1] in stored;
    CoveredByItself(pa, stored);
    CoveredByItself(pb, stored);
    TwoGrantScopes(pa, pb);
    JointNotCovered(pa, pb, stored);
    GrantsWellFormed(pa, pb, stored);
    if SendsNothingNew(Transaction(Listed([pa, pb])), stored) { SendsNothingNewCovers([pa, pb], stored); }
  }

  lemma {:induction false} GrantsWellFormed(pa: ScopePattern, pb: ScopePattern, stored: seq<Capability>)
    requires WellFormedPattern(pa) && WellFormedPattern(pb)
    requires stored == [Transaction(Listed([pa])), Transaction(Listed([pb]))]
    ensures forall rp | rp in [pa, pb] :: WellFormedPattern(rp)
    ensures forall c | c in stored :: WellFormed(c)
  {
  }

  lemma {:induction false} JointNotCovered(pa: ScopePattern, pb: ScopePattern, stored: seq<Capability>)
    requires IsFieldAddress(pa.contract) && IsFieldAddress(pb.contract) && !SameFieldAddress(pa.contract, pb.contract)
    requires stored == [Transaction(Listed([pa])), Transaction(Listed([pb]))]
    ensures !Covered(Transaction(Listed([pa, pb])), stored)
  {
    SplitPatternsNotCovered(pa, pb);
    assert forall c | c in stored :: c == stored[0] || c == stored[1];
  }
}
