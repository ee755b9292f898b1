/** How exact coverage is for the other field-aware types: simulation, data and contracts requests
    against everything their methods can then do. */
module CoverageFields {
  import opened Wrappers
  import opened Wire
  import opened FieldAddress
  import opened Capabilities
  import opened Methods
  import opened ScopeCheckers
  import opened Coverage
  import opened CoverageExact

  /** No call of the capability's type becomes possible by granting it. */
  ghost predicate NothingNew(r: Capability, stored: seq<Capability>)
  {
    forall m: Method, args: seq<Value> {:trigger Permits(m, args, [r])} |
      RequiredType(m) == Some(TypeOf(r)) && ArgGuard(m, args) && AuthShape(m, args) && Permits(m, args, [r]) ::
      Permits(m, args, stored)
  }

  lemma Alone(r: Capability)
    ensures forall c :: c in [r] <==> c == r
    ensures Holds([r], TypeOf(r))
  {
    assert r in [r];
  }

  lemma {:induction false} CoveredAddsNothing(r: Capability, stored: seq<Capability>)
    requires WellFormed(r) && TypeOf(r) in SCOPED_TYPES && Covered(r, stored)
    ensures NothingNew(r, stored)
  {
    Alone(r);
    forall m: Method, args: seq<Value> |
      RequiredType(m) == Some(TypeOf(r)) && ArgGuard(m, args) && AuthShape(m, args) && Permits(m, args, [r])
      ensures Permits(m, args, stored)
    {
      CoverageSound(m, args, [r], stored);
    }
  }

  // ----- data -----

  lemma SameAsItself(a: string)
    requires IsFieldAddress(a)
    ensures SameFieldAddress(a, a) && !SameFieldAddress(a, "")
  {
    SameIsNumericEquality(a, a);
    SameIsNumericEquality(a, "");
  }

  lemma NoListHoldsEmpty(l: AddressList)
    ensures InAddressList("", l) <==> l.AnyAddress?
  {
    if l.Addresses? {
      forall x | x in l.list ensures !SameFieldAddress(x, "") { SameIsNumericEquality(x, ""); }
    }
  }

  function EventsArgs(address: string): (args: seq<Value>)
    ensures |args| == 2 && ToStr(Field(Arg(args, 1), "contractAddress")) == address
  {
    [Undefined, Obj(map["contractAddress" := Str(address)])]
  }

  lemma {:induction false} EventsReach(r: Capability, stored: seq<Capability>, address: string)
    requires r.Data? && NothingNew(r, stored) && AllWellFormed(stored)
    requires r.privateEvents.Some? && InAddressList(address, r.privateEvents.value)
    ensures exists e | e in stored :: e.Data? && e.privateEvents.Some? && InAddressList(address, e.privateEvents.value)
  {
    Alone(r);
    var args := EventsArgs(address);
    assert Permits(GetPrivateEvents, args, [r]);
    assert Permits(GetPrivateEvents, args, stored);
  }

  lemma {:induction false} BookReaches(r: Capability, stored: seq<Capability>)
    requires r.Data? && NothingNew(r, stored) && AllWellFormed(stored) && On(r.addressBook)
    ensures exists e | e in stored :: e.Data? && On(e.addressBook)
  {
    Alone(r);
    assert Permits(GetAddressBook, [], [r]);
    assert Permits(GetAddressBook, [], stored);
  }

  /** A data request is covered exactly when granting it adds no read, whatever it lists. */
  lemma {:induction false} DataCoverageExact(r: Capability, stored: seq<Capability>)
    requires r.Data? && WellFormed(r) && AllWellFormed(stored)
    ensures Covered(r, stored) <==> NothingNew(r, stored)
  {
    if Covered(r, stored) { CoveredAddsNothing(r, stored); }
    if NothingNew(r, stored) {
      if On(r.addressBook) { BookReaches(r, stored); }
      if r.privateEvents.Some? { EventsExact(r, stored); }
    }
  }

  lemma {:induction false} EventsExact(r: Capability, stored: seq<Capability>)
    requires r.Data? && WellFormed(r) && AllWellFormed(stored) && NothingNew(r, stored) && r.privateEvents.Some?
    ensures EventsCovered(stored, r.privateEvents.value)
    ensures r.privateEvents.value != Addresses([]) ==> exists e | e in stored :: e.Data?
  {
    var l := r.privateEvents.value;
    if l.AnyAddress? {
      EventsReach(r, stored, "");
      var e :| e in stored && e.Data? && e.privateEvents.Some? && InAddressList("", e.privateEvents.value);
      NoListHoldsEmpty(e.privateEvents.value);
    } else {
      forall addr | addr in l.list
        ensures exists e | e in stored :: e.Data? && e.privateEvents.Some? && ListsAddress(e.privateEvents.value, addr)
      {
        SameAsItself(addr);
        EventsReach(r, stored, addr);
        var e :| e in stored && e.Data? && e.privateEvents.Some? && InAddressList(addr, e.privateEvents.value);
        assert ListsAddress(e.privateEvents.value, addr);
      }
      if l.list != [] { assert l.list[0] in l.list; }
    }
  }

  // ----- contracts -----

  /** A contracts request that permits nothing: no flag, or no address. */
  predicate PermitsNothing(r: Capability)
    requires r.Contracts?
  {
    (!On(r.canRegister) && !On(r.canGetMetadata)) || r.contracts == Addresses([])
  }

  function FlagOn(c: Capability, register: bool): bool
    requires c.Contracts?
  {
    On(if register then c.canRegister else c.canGetMetadata)
  }

  lemma {:induction false} ContractReaches(r: Capability, stored: seq<Capability>, register: bool, address: string)
    requires r.Contracts? && NothingNew(r, stored) && AllWellFormed(stored)
    requires FlagOn(r, register) && InAddressList(address, r.contracts)
    ensures exists e | e in stored :: e.Contracts? && FlagOn(e, register) && InAddressList(address, e.contracts)
  {
    Alone(r);
    var m := if register then RegisterContract else GetContractMetadata;
    var args := [Str(address)];
    assert RegisteredAddress(args) == address && ToStr(Arg(args, 0)) == address;
    assert Permits(m, args, [r]);
    assert Permits(m, args, stored);
  }

  lemma {:induction false} FlagExact(r: Capability, stored: seq<Capability>, register: bool)
    requires r.Contracts? && WellFormed(r) && AllWellFormed(stored) && NothingNew(r, stored) && FlagOn(r, register)
    ensures ContractsFlagCovered(stored, r.contracts, register)
    ensures r.contracts != Addresses([]) ==> exists e | e in stored :: e.Contracts?
  {
    if r.contracts.AnyAddress? {
      ContractReaches(r, stored, register, "");
      var e :| e in stored && e.Contracts? && FlagOn(e, register) && InAddressList("", e.contracts);
      NoListHoldsEmpty(e.contracts);
    } else {
      forall addr | addr in r.contracts.list
        ensures exists e | e in stored :: e.Contracts? && FlagOn(e, register) && ListsAddress(e.contracts, addr)
      {
        SameAsItself(addr);
        ContractReaches(r, stored, register, addr);
        var e :| e in stored && e.Contracts? && FlagOn(e, register) && InAddressList(addr, e.contracts);
        assert ListsAddress(e.contracts, addr);
      }
      if r.contracts.list != [] { assert r.contracts.list[0] in r.contracts.list; }
    }
  }

  lemma {:induction false} NothingPermitted(r: Capability, stored: seq<Capability>)
    requires r.Contracts? && PermitsNothing(r)
    ensures NothingNew(r, stored)
  {
    Alone(r);
    forall m: Method, args: seq<Value> | RequiredType(m) == Some(CONTRACTS) ensures !Permits(m, args, [r]) {
    }
  }

  /** Granting a contracts request adds no call exactly when it is covered or permits nothing to
      begin with; so coverage is exact for every request that permits something. */
  lemma {:induction false} ContractsCoverageExact(r: Capability, stored: seq<Capability>)
    requires r.Contracts? && WellFormed(r) && AllWellFormed(stored)
    ensures NothingNew(r, stored) <==> Covered(r, stored) || PermitsNothing(r)
  {
    if Covered(r, stored) { CoveredAddsNothing(r, stored); }
    if PermitsNothing(r) { NothingPermitted(r, stored); }
    if NothingNew(r, stored) && !PermitsNothing(r) {
      if On(r.canRegister) { FlagExact(r, stored, true); }
      if On(r.canGetMetadata) { FlagExact(r, stored, false); }
    }
  }

  /** The gap is real: an empty list beside an empty row is not covered and adds nothing. */
  lemma {:induction false} EmptyListAsksAgain(register: Flag, metadata: Flag)
    ensures var r := Contracts(Addresses([]), register, metadata); !Covered(r, []) && NothingNew(r, [])
  {
    NothingPermitted(Contracts(Addresses([]), register, metadata), []);
  }

  // ----- simulation -----

  /** One of a simulation grant's two scopes. */
  function Sub(c: Capability, utilities: bool): Option<Scope>
    requires c.Simulation?
  {
    if utilities then c.utilities else c.transactions
  }

  function SubScopes(grants: seq<Capability>, utilities: bool): (r: seq<Scope>)
    ensures forall c | c in grants && c.Simulation? && Sub(c, utilities).Some? :: Sub(c, utilities).value in r
  {
    if grants == [] then []
    else
      var rest := SubScopes(grants[1..], utilities);
      if grants[0].Simulation? && Sub(grants[0], utilities).Some? then [Sub(grants[0], utilities).value] + rest
      else rest
  }

  /** The scope matches every call: the wildcard itself, or a list holding the double wildcard. */
  predicate MatchesAll(s: Scope) { s.AnyScope? || ScopePattern("*", "*") in s.patterns }

  /** Some stored simulation grant has such a scope. */
  ghost predicate HoldsSub(stored: seq<Capability>, utilities: bool, p: Scope -> bool)
  {
    exists e | e in stored :: e.Simulation? && Sub(e, utilities).Some? && p(Sub(e, utilities).value)
  }

  function CoveringScope(rps: seq<ScopePattern>): Scope -> bool { (s: Scope) => ScopeCovers(s, Listed(rps)) }

  function AllMatching(): Scope -> bool { (s: Scope) => MatchesAll(s) }

  /** Every simulated transaction of the scope is possible already: the calls of one transaction
      need one grant for all of them. */
  ghost predicate TransactionsHeld(stored: seq<Capability>, scope: Scope)
  {
    if scope.AnyScope? then HoldsSub(stored, false, AllMatching())
    else scope.patterns == [] || HoldsSub(stored, false, CoveringScope(scope.patterns))
  }

  /** Every utility call of the scope is possible already: each pattern may have its own grant. */
  ghost predicate UtilitiesHeld(stored: seq<Capability>, scope: Scope)
  {
    if scope.AnyScope? then HoldsSub(stored, true, AllMatching())
    else forall rp | rp in scope.patterns :: HoldsSub(stored, true, CoveringScope([rp]))
  }

  ghost predicate SimulationHeld(stored: seq<Capability>, r: Capability)
    requires r.Simulation?
  {
    && Holds(stored, SIMULATION)
    && (r.transactions.Some? ==> TransactionsHeld(stored, r.transactions.value))
    && (r.utilities.Some? ==> UtilitiesHeld(stored, r.utilities.value))
  }

  lemma AllMatchingMatches(contract: string, fn: Value, s: Scope, any: Scope)
    requires MatchesAll(s) && MatchesScope(contract, fn, any)
    ensures MatchesScope(contract, fn, s)
  {
    if s.Listed? { assert MatchesPattern(contract, fn, ScopePattern("*", "*")); }
  }

  // ----- what is held suffices -----

  lemma {:induction false} HeldSimulates(stored: seq<Capability>, scope: Scope, calls: seq<Value>)
    requires TransactionsHeld(stored, scope) && AllCallsMatch(calls, scope) && calls != []
    ensures exists e | e in stored ::
      e.Simulation? && e.transactions.Some? && AllCallsMatch(calls, e.transactions.value)
  {
    assert calls[0] in calls && CallMatches(calls[0], scope);
    if scope.AnyScope? {
      var e :| e in stored && e.Simulation? && Sub(e, false).Some? && AllMatching()(Sub(e, false).value);
      forall call | call in calls ensures CallMatches(call, e.transactions.value) {
        AllMatchingMatches(ToStr(Field(call, "to")), Field(call, "name"), e.transactions.value, scope);
      }
    } else {
      var e :| e in stored && e.Simulation? && Sub(e, false).Some? &&
        CoveringScope(scope.patterns)(Sub(e, false).value);
      assert scope == Listed(scope.patterns);
      CallsMonotone(e.transactions.value, scope, calls);
    }
  }

  lemma {:induction false} HeldExecutes(stored: seq<Capability>, scope: Scope, contract: string, fn: Value)
    requires UtilitiesHeld(stored, scope) && MatchesScope(contract, fn, scope)
    ensures exists e | e in stored ::
      e.Simulation? && e.utilities.Some? && MatchesScope(contract, fn, e.utilities.value)
  {
    if scope.AnyScope? {
      var e :| e in stored && e.Simulation? && Sub(e, true).Some? && AllMatching()(Sub(e, true).value);
      AllMatchingMatches(contract, fn, e.utilities.value, scope);
    } else {
      var rp :| rp in scope.patterns && MatchesPattern(contract, fn, rp);
      assert HoldsSub(stored, true, CoveringScope([rp]));
      var e :| e in stored && e.Simulation? && Sub(e, true).Some? && CoveringScope([rp])(Sub(e, true).value);
      assert rp in [rp] && MatchesScope(contract, fn, Listed([rp]));
      MatchesIsMonotone(e.utilities.value, Listed([rp]), contract, fn);
    }
  }

  lemma {:induction false} HeldAddsNothing(r: Capability, stored: seq<Capability>)
    requires r.Simulation? && WellFormed(r) && SimulationHeld(stored, r)
    ensures NothingNew(r, stored)
  {
    Alone(r);
    forall m: Method, args: seq<Value> |
      RequiredType(m) == Some(SIMULATION) && ArgGuard(m, args) && AuthShape(m, args) && Permits(m, args, [r])
      ensures Permits(m, args, stored)
    {
      if m == ExecuteUtility {
        var call := Arg(args, 0);
        HeldExecutes(stored, r.utilities.value, ToStr(Field(call, "to")), Field(call, "name"));
      } else {
        var calls := Field(Arg(args, 0), "calls");
        if calls.items != [] { HeldSimulates(stored, r.transactions.value, calls.items); }
      }
    }
  }

  // ----- what is held is needed -----

  /** A call that only scopes covering the pattern match. */
  lemma {:induction false} ProbeOne(scopes: seq<Scope>, rp: ScopePattern) returns (call: Value)
    requires WellFormedPattern(rp) && |PatternsIn(scopes)| < MODULUS
    ensures IsCall(call) && Field(call, "to").Str? && Field(call, "to").s != "" && CallMatches(call, Listed([rp]))
    ensures forall s | s in scopes && CallMatches(call, s) :: ScopeCovers(s, Listed([rp]))
  {
    var all := PatternsIn(scopes);
    var address := UnlistedAddress(ContractsIn(all));
    var name := FreshName(all);
    call := Probe(rp, address, name);
    ProbeMatches(rp, address, name);
    assert rp in [rp];
    forall s | s in scopes && CallMatches(call, s) ensures ScopeCovers(s, Listed([rp])) {
      ProbeCovers(rp, s, address, name);
    }
  }

  lemma {:induction false} ProbeCovers(rp: ScopePattern, s: Scope, address: string, name: string)
    requires WellFormedPattern(rp) && CallMatches(Probe(rp, address, name), s)
    requires s.Listed? ==> forall p | p in s.patterns :: |p.fn| < |name| && !SameFieldAddress(p.contract, address)
    ensures ScopeCovers(s, Listed([rp]))
  {
    if s.Listed? {
      var ep :| ep in s.patterns && MatchesPattern(Target(rp, address), Str(Callee(rp, name)), ep);
      ProbeForces(rp, ep, address, name);
    }
  }

  /** Only a scope that matches everything covers the double wildcard. */
  lemma CoversDoubleWildcard(s: Scope)
    ensures ScopeCovers(s, Listed([ScopePattern("*", "*")])) ==> MatchesAll(s)
  {
    var any := ScopePattern("*", "*");
    assert any in [any];
    if s.Listed? && ScopeCovers(s, Listed([any])) {
      var ep :| ep in s.patterns && PatternCovers(ep, any);
      SameIsNumericEquality(ep.contract, "*");
      assert ep == any;
    }
  }

  function CallsArgs(calls: seq<Value>): (args: seq<Value>)
    ensures Field(Arg(args, 0), "calls") == Arr(calls)
  {
    [Obj(map["calls" := Arr(calls)])]
  }

  lemma {:induction false} SimulationReaches(r: Capability, stored: seq<Capability>, calls: seq<Value>)
    requires r.Simulation? && AllWellFormed(stored) && NothingNew(r, stored)
    requires forall c | c in calls :: IsCall(c)
    requires calls != [] ==> r.transactions.Some? && AllCallsMatch(calls, r.transactions.value)
    ensures Holds(stored, SIMULATION)
    ensures calls != [] ==>
      exists e | e in stored :: e.Simulation? && e.transactions.Some? && AllCallsMatch(calls, e.transactions.value)
  {
    Alone(r);
    var args := CallsArgs(calls);
    assert Permits(SimulateTx, args, [r]);
    assert Permits(SimulateTx, args, stored);
  }

  lemma {:induction false} UtilityReaches(r: Capability, stored: seq<Capability>, call: Value)
    requires r.Simulation? && AllWellFormed(stored) && NothingNew(r, stored)
    requires IsCall(call) && Field(call, "to").Str? && Field(call, "to").s != ""
    requires r.utilities.Some? && CallMatches(call, r.utilities.value)
    ensures exists e | e in stored :: e.Simulation? && e.utilities.Some? && CallMatches(call, e.utilities.value)
  {
    Alone(r);
    assert Arg([call], 0) == call;
    assert Permits(ExecuteUtility, [call], [r]);
    assert Permits(ExecuteUtility, [call], stored);
  }

  lemma {:induction false} TransactionsNeeded(r: Capability, stored: seq<Capability>)
    requires r.Simulation? && WellFormed(r) && AllWellFormed(stored) && NothingNew(r, stored) && r.transactions.Some?
    requires |PatternsIn(SubScopes(stored, false))| < MODULUS
    ensures TransactionsHeld(stored, r.transactions.value)
  {
    var scope := r.transactions.value;
    if scope.AnyScope? {
      var call := ProbeOne(SubScopes(stored, false), ScopePattern("*", "*"));
      assert CallMatches(call, AnyScope);
      SimulationReaches(r, stored, [call]);
      var e :| e in stored && e.Simulation? && e.transactions.Some? && AllCallsMatch([call], e.transactions.value);
      assert call in [call] && Sub(e, false).value in SubScopes(stored, false);
      CoversDoubleWildcard(Sub(e, false).value);
      assert AllMatching()(Sub(e, false).value);
    } else if scope.patterns != [] {
      var calls := ScopesExact(SubScopes(stored, false), scope.patterns);
      SimulationReaches(r, stored, calls);
      var e :| e in stored && e.Simulation? && e.transactions.Some? && AllCallsMatch(calls, e.transactions.value);
      assert Sub(e, false).value in SubScopes(stored, false);
      assert CoveringScope(scope.patterns)(Sub(e, false).value);
    }
  }

  lemma {:induction false} UtilitiesNeeded(r: Capability, stored: seq<Capability>)
    requires r.Simulation? && WellFormed(r) && AllWellFormed(stored) && NothingNew(r, stored) && r.utilities.Some?
    requires |PatternsIn(SubScopes(stored, true))| < MODULUS
    ensures UtilitiesHeld(stored, r.utilities.value)
  {
    var scope := r.utilities.value;
    if scope.AnyScope? {
      var call := ProbeOne(SubScopes(stored, true), ScopePattern("*", "*"));
      assert CallMatches(call, AnyScope);
      UtilityReaches(r, stored, call);
      var e :| e in stored && e.Simulation? && e.utilities.Some? && CallMatches(call, e.utilities.value);
      assert Sub(e, true).value in SubScopes(stored, true);
      CoversDoubleWildcard(Sub(e, true).value);
      assert AllMatching()(Sub(e, true).value);
    } else {
      forall rp | rp in scope.patterns ensures HoldsSub(stored, true, CoveringScope([rp])) {
        var call := ProbeOne(SubScopes(stored, true), rp);
        assert [rp][0] == rp && CallMatches(call, scope);
        UtilityReaches(r, stored, call);
        var e :| e in stored && e.Simulation? && e.utilities.Some? && CallMatches(call, e.utilities.value);
        assert Sub(e, true).value in SubScopes(stored, true);
        assert CoveringScope([rp])(Sub(e, true).value);
      }
    }
  }

  /** Exactly when granting a simulation request adds no call, for every request and every row: a
      simulation grant is held, one grant covers all the simulated transactions (or matches
      everything, for a requested `*`), and each utility pattern is covered by some grant. */
  lemma {:induction false} SimulationAddsExactly(r: Capability, stored: seq<Capability>)
    requires r.Simulation? && WellFormed(r) && AllWellFormed(stored)
    requires forall u :: |PatternsIn(SubScopes(stored, u))| < MODULUS
    ensures NothingNew(r, stored) <==> SimulationHeld(stored, r)
  {
    if SimulationHeld(stored, r) { HeldAddsNothing(r, stored); }
    if NothingNew(r, stored) {
      SimulationReaches(r, stored, []);
      if r.transactions.Some? { TransactionsNeeded(r, stored); }
      if r.utilities.Some? { UtilitiesNeeded(r, stored); }
    }
  }

  // ----- where simulation coverage asks again -----

  /** Both requested scopes, where present, are lists with at least one pattern. */
  predicate ListsPatterns(r: Capability)
    requires r.Simulation?
  {
    forall u | u in {false, true} && Sub(r, u).Some? :: Sub(r, u).value.Listed? && Sub(r, u).value.patterns != []
  }

  predicate SoleSimulation(stored: seq<Capability>)
  {
    forall c, d | c in stored && d in stored && c.Simulation? && d.Simulation? :: c == d
  }

  lemma {:induction false} SoleHolderCovers(stored: seq<Capability>, rps: seq<ScopePattern>)
    requires SoleSimulation(stored) && rps != [] && UtilitiesHeld(stored, Listed(rps))
    ensures HoldsSub(stored, true, CoveringScope(rps))
  {
    assert rps[0] in rps && HoldsSub(stored, true, CoveringScope([rps[0]]));
    var e :| e in stored && e.Simulation? && Sub(e, true).Some? && CoveringScope([rps[0]])(Sub(e, true).value);
    var s := e.utilities.value;
    if s.Listed? {
      forall rp | rp in rps ensures exists ep | ep in s.patterns :: PatternCovers(ep, rp) {
        assert HoldsSub(stored, true, CoveringScope([rp]));
        assert rp in [rp];
      }
    }
    assert CoveringScope(rps)(s);
  }

  /** On a row with one simulation grant at most, a request that lists patterns is covered exactly
      when granting it adds no call. */
  lemma {:induction false} SimulationCoverageExact(r: Capability, stored: seq<Capability>)
    requires r.Simulation? && WellFormed(r) && AllWellFormed(stored)
    requires forall u :: |PatternsIn(SubScopes(stored, u))| < MODULUS
    requires SoleSimulation(stored) && ListsPatterns(r)
    ensures Covered(r, stored) <==> NothingNew(r, stored)
  {
    if Covered(r, stored) { CoveredAddsNothing(r, stored); }
    if NothingNew(r, stored) {
      SimulationAddsExactly(r, stored);
      if r.transactions.Some? {
        assert Sub(r, false).value.patterns != [];
        assert HoldsSub(stored, false, CoveringScope(r.transactions.value.patterns));
      }
      if r.utilities.Some? {
        assert Sub(r, true).value.patterns != [];
        SoleHolderCovers(stored, r.utilities.value.patterns);
      }
    }
  }

  predicate Apart(pa: ScopePattern, pb: ScopePattern)
  {
    && IsFieldAddress(pa.contract) && IsFieldAddress(pb.contract) && !SameFieldAddress(pa.contract, pb.contract)
    && pa.fn != "" && pb.fn != ""
  }

  function UtilityGrant(ps: seq<ScopePattern>): Capability { Simulation(None, Some(Listed(ps))) }

  lemma {:induction false} OwnGrantHolds(p: ScopePattern, stored: seq<Capability>)
    requires IsFieldAddress(p.contract) && UtilityGrant([p]) in stored
    ensures HoldsSub(stored, true, CoveringScope([p]))
  {
    SameAsItself(p.contract);
    assert PatternCovers(p, p) && p in [p];
    assert CoveringScope([p])(Sub(UtilityGrant([p]), true).value);
  }

  lemma {:induction false} SplitNotCovered(pa: ScopePattern, pb: ScopePattern, stored: seq<Capability>)
    requires Apart(pa, pb) && forall c | c in stored :: c == UtilityGrant([pa]) || c == UtilityGrant([pb])
    ensures !SimulationCovered(stored, UtilityGrant([pa, pb]))
  {
    SplitPatternsNotCovered(pa, pb);
  }

  lemma {:induction false} SplitHeld(pa: ScopePattern, pb: ScopePattern, stored: seq<Capability>, r: Capability)
    requires Apart(pa, pb) && UtilityGrant([pa]) in stored && UtilityGrant([pb]) in stored
    requires r.Simulation? && r.transactions.None? && r.utilities.Some? && r.utilities.value.Listed?
    requires forall p | p in r.utilities.value.patterns :: p == pa || p == pb
    ensures NothingNew(r, stored)
  {
    OwnGrantHolds(pa, stored);
    OwnGrantHolds(pb, stored);
    assert UtilitiesHeld(stored, r.utilities.value);
    HeldAddsNothing(r, stored);
  }

  /** With two simulation grants coverage asks again although nothing is added: each utility pattern
      has its own grant, and utility calls are judged one by one. */
  lemma {:induction false} SplitUtilitiesAskAgain(pa: ScopePattern, pb: ScopePattern, stored: seq<Capability>)
    requires Apart(pa, pb) && UtilityGrant([pa]) in stored && UtilityGrant([pb]) in stored
    requires forall c | c in stored :: c == UtilityGrant([pa]) || c == UtilityGrant([pb])
    ensures !Covered(UtilityGrant([pa, pb]), stored) && NothingNew(UtilityGrant([pa, pb]), stored)
  {
    SplitNotCovered(pa, pb, stored);
    SplitHeld(pa, pb, stored, UtilityGrant([pa, pb]));
  }
}
