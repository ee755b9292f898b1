/** When the stored grants already cover a requested capability, so that no window opens
    (the coverage predicates of packages/wallet-bridge/src/dispatcher.ts), and how that relates to
    what the scope checkers enforce. */
module Coverage {
  import opened Wrappers
  import opened Wire
  import opened FieldAddress
  import opened Capabilities
  import opened Methods
  import opened ScopeCheckers

  // ----- coverage predicates -----

  predicate PatternCovers(ep: ScopePattern, rp: ScopePattern)
  {
    (ep.contract == "*" || SameFieldAddress(ep.contract, rp.contract)) && (ep.fn == "*" || ep.fn == rp.fn)
  }

  predicate ScopeCovers(existing: Scope, requested: Scope)
  {
    existing.AnyScope? ||
    (requested.Listed? &&
     forall rp | rp in requested.patterns :: exists ep | ep in existing.patterns :: PatternCovers(ep, rp))
  }

  predicate ListsAddress(l: AddressList, addr: string)
  {
    l.AnyAddress? || exists x | x in l.list :: SameFieldAddress(x, addr)
  }

  predicate ContractsFlagCovered(existing: seq<Capability>, l: AddressList, register: bool)
  {
    if l.AnyAddress? then
      exists e | e in existing ::
        e.Contracts? && On(if register then e.canRegister else e.canGetMetadata) && e.contracts.AnyAddress?
    else
      forall addr | addr in l.list ::
        exists e | e in existing ::
          e.Contracts? && On(if register then e.canRegister else e.canGetMetadata) && ListsAddress(e.contracts, addr)
  }

  predicate ContractsCovered(existing: seq<Capability>, requested: Capability)
    requires requested.Contracts?
  {
    && (On(requested.canRegister) ==> ContractsFlagCovered(existing, requested.contracts, true))
    && (On(requested.canGetMetadata) ==> ContractsFlagCovered(existing, requested.contracts, false))
  }

  predicate TransactionCovered(existing: seq<Capability>, requested: Capability)
    requires requested.Transaction?
  {
    exists e | e in existing :: e.Transaction? && ScopeCovers(e.scope, requested.scope)
  }

  predicate SimulationCovered(existing: seq<Capability>, requested: Capability)
    requires requested.Simulation?
  {
    && (requested.transactions.Some? ==>
          exists e | e in existing ::
            e.Simulation? && e.transactions.Some? && ScopeCovers(e.transactions.value, requested.transactions.value))
    && (requested.utilities.Some? ==>
          exists e | e in existing ::
            e.Simulation? && e.utilities.Some? && ScopeCovers(e.utilities.value, requested.utilities.value))
  }

  predicate EventsCovered(existing: seq<Capability>, requested: AddressList)
  {
    if requested.AnyAddress? then
      exists e | e in existing :: e.Data? && e.privateEvents == Some(AnyAddress)
    else
      forall addr | addr in requested.list ::
        exists e | e in existing :: e.Data? && e.privateEvents.Some? && ListsAddress(e.privateEvents.value, addr)
  }

  predicate DataCovered(existing: seq<Capability>, requested: Capability)
    requires requested.Data?
  {
    && (On(requested.addressBook) ==> exists e | e in existing :: e.Data? && On(e.addressBook))
    && (requested.privateEvents.Some? ==> EventsCovered(existing, requested.privateEvents.value))
  }

  predicate AccountsEqual(a: Capability, b: Capability)
    requires a.Accounts? && b.Accounts?
  {
    On(a.canGet) == On(b.canGet) && On(a.canCreateAuthWit) == On(b.canCreateAuthWit)
  }

  function FirstOfType(caps: seq<Capability>, kind: string): (r: Option<Capability>)
    ensures r.Some? ==> r.value in caps && TypeOf(r.value) == kind
    ensures r.None? ==> forall c | c in caps :: TypeOf(c) != kind
  {
    if caps == [] then None
    else if TypeOf(caps[0]) == kind then Some(caps[0])
    else FirstOfType(caps[1..], kind)
  }

  /** The stored accounts grant, if any; a wire object of an unknown type never counts. */
  function StoredAccounts(existing: seq<Capability>): (r: Option<Capability>)
    ensures r.Some? ==> r.value in existing && r.value.Accounts?
  {
    var first := FirstOfType(existing, ACCOUNTS);
    if first.Some? && first.value.Accounts? then first else None
  }

  /** `isCapabilityCovered`; an unknown type never reaches it. */
  predicate Covered(requested: Capability, existing: seq<Capability>)
  {
    match requested
    case Accounts(_, _, _) =>
      StoredAccounts(existing).Some? && AccountsEqual(StoredAccounts(existing).value, requested)
    case Contracts(_, _, _) => (exists e | e in existing :: e.Contracts?) && ContractsCovered(existing, requested)
    case Transaction(_) => TransactionCovered(existing, requested)
    case Simulation(_, _) => (exists e | e in existing :: e.Simulation?) && SimulationCovered(existing, requested)
    case Data(_, _) => (exists e | e in existing :: e.Data?) && DataCovered(existing, requested)
    case ContractClasses(_, _) => Holds(existing, CONTRACT_CLASSES)
    case Unknown(_, _) => false
  }

  // ----- soundness: a covered request adds no authority -----

  lemma MatchesIsMonotone(existing: Scope, requested: Scope, contract: string, fn: Value)
    requires ScopeCovers(existing, requested) && MatchesScope(contract, fn, requested)
    ensures MatchesScope(contract, fn, existing)
  {
    if existing.Listed? {
      var rp :| rp in requested.patterns && MatchesPattern(contract, fn, rp);
      var ep :| ep in existing.patterns && PatternCovers(ep, rp);
      assert MatchesPattern(contract, fn, ep);
    }
  }

  lemma CallsMonotone(existing: Scope, requested: Scope, calls: seq<Value>)
    requires ScopeCovers(existing, requested) && AllCallsMatch(calls, requested)
    ensures AllCallsMatch(calls, existing)
  {
    forall call | call in calls ensures CallMatches(call, existing) {
      MatchesIsMonotone(existing, requested, ToStr(Field(call, "to")), Field(call, "name"));
    }
  }

  lemma ContractsSound(address: string, register: bool, r: Capability, stored: seq<Capability>)
    requires r.Contracts? && Covered(r, stored)
    requires On(if register then r.canRegister else r.canGetMetadata) && InAddressList(address, r.contracts)
    ensures ContractsGrantLists(address, register, stored)
  {
    if r.contracts.AnyAddress? {
      var e :| e in stored && e.Contracts? &&
        On(if register then e.canRegister else e.canGetMetadata) && e.contracts.AnyAddress?;
      assert InAddressList(address, e.contracts);
    } else {
      var addr :| addr in r.contracts.list && SameFieldAddress(addr, address);
      var e :| e in stored && e.Contracts? &&
        On(if register then e.canRegister else e.canGetMetadata) && ListsAddress(e.contracts, addr);
      assert InAddressList(address, e.contracts);
    }
  }

  lemma TransactionSound(m: Method, args: seq<Value>, r: Capability, stored: seq<Capability>)
    requires r.Transaction? && Covered(r, stored)
    requires m == SendTx ==>
      var calls := Field(Arg(args, 0), "calls"); calls.Arr? && AllCallsMatch(calls.items, r.scope)
    requires m == GrantPublicAuthwit ==>
      var content := Arg(args, 1);
      MatchesScope(ToStr(Field(content, "contract")), Str(ToStr(Field(content, "method"))), r.scope)
    requires m == SendTx || m == GrantPublicAuthwit
    ensures CheckerPasses(m, args, stored)
  {
    var e :| e in stored && e.Transaction? && ScopeCovers(e.scope, r.scope);
    if m == SendTx {
      CallsMonotone(e.scope, r.scope, Field(Arg(args, 0), "calls").items);
    } else {
      var content := Arg(args, 1);
      MatchesIsMonotone(e.scope, r.scope, ToStr(Field(content, "contract")), Str(ToStr(Field(content, "method"))));
    }
  }

  lemma SimulationSound(m: Method, args: seq<Value>, r: Capability, stored: seq<Capability>)
    requires r.Simulation? && Covered(r, stored)
    requires m == SimulateTx || m == ProfileTx || m == ExecuteUtility
    requires CheckerPasses(m, args, [r])
    ensures CheckerPasses(m, args, stored)
  {
    assert r in [r];
    assert Holds([r], SIMULATION);
    if m == ExecuteUtility {
      var call := Arg(args, 0);
      var e :| e in stored && e.Simulation? && e.utilities.Some? && ScopeCovers(e.utilities.value, r.utilities.value);
      MatchesIsMonotone(e.utilities.value, r.utilities.value, ToStr(Field(call, "to")), Field(call, "name"));
    } else {
      var calls := Field(Arg(args, 0), "calls");
      if calls.items != [] {
        var e :| e in stored && e.Simulation? && e.transactions.Some? &&
          ScopeCovers(e.transactions.value, r.transactions.value);
        CallsMonotone(e.transactions.value, r.transactions.value, calls.items);
      }
    }
  }

  lemma DataSound(m: Method, args: seq<Value>, r: Capability, stored: seq<Capability>)
    requires r.Data? && Covered(r, stored)
    requires m == GetPrivateEvents || m == GetAddressBook || m == RegisterSender
    requires CheckerPasses(m, args, [r])
    ensures CheckerPasses(m, args, stored)
  {
    assert r in [r];
    assert Holds([r], DATA);
    if m == GetPrivateEvents {
      var address := ToStr(Field(Arg(args, 1), "contractAddress"));
      if r.privateEvents.value.Addresses? {
        var addr :| addr in r.privateEvents.value.list && SameFieldAddress(addr, address);
        var e :| e in stored && e.Data? && e.privateEvents.Some? && ListsAddress(e.privateEvents.value, addr);
        assert InAddressList(address, e.privateEvents.value);
      }
    }
  }

  /** Types whose coverage is field-aware and enforced call by call. */
  const SCOPED_TYPES: set<string> := {CONTRACTS, TRANSACTION, SIMULATION, DATA}

  lemma {:induction false} PermittedTransaction(m: Method, args: seq<Value>, requested: seq<Capability>)
    returns (r: Capability)
    requires RequiredType(m) == Some(TRANSACTION) && Permits(m, args, requested)
    requires forall c | c in requested :: WellFormed(c)
    ensures r in requested && r.Transaction? && Permits(m, args, [r])
  {
    r :| r in requested && TypeOf(r) == TRANSACTION;
    if m == SendTx {
      var calls := Field(Arg(args, 0), "calls");
      if calls.items != [] { r :| r in requested && r.Transaction? && AllCallsMatch(calls.items, r.scope); }
    } else {
      var content := Arg(args, 1);
      r :| r in requested && r.Transaction? &&
           MatchesScope(ToStr(Field(content, "contract")), Str(ToStr(Field(content, "method"))), r.scope);
    }
    assert r in [r] && forall c :: c in [r] <==> c == r;
  }

  lemma {:induction false} PermittedSimulation(m: Method, args: seq<Value>, requested: seq<Capability>)
    returns (r: Capability)
    requires RequiredType(m) == Some(SIMULATION) && Permits(m, args, requested)
    requires forall c | c in requested :: WellFormed(c)
    ensures r in requested && r.Simulation? && Permits(m, args, [r])
  {
    r :| r in requested && TypeOf(r) == SIMULATION;
    if m == ExecuteUtility {
      var call := Arg(args, 0);
      r :| r in requested && r.Simulation? && r.utilities.Some? &&
           MatchesScope(ToStr(Field(call, "to")), Field(call, "name"), r.utilities.value);
    } else {
      var calls := Field(Arg(args, 0), "calls");
      if calls.items != [] {
        r :| r in requested && r.Simulation? && r.transactions.Some? &&
             AllCallsMatch(calls.items, r.transactions.value);
      }
    }
    assert r in [r] && forall c :: c in [r] <==> c == r;
  }

  lemma {:induction false} PermittedData(m: Method, args: seq<Value>, requested: seq<Capability>)
    returns (r: Capability)
    requires RequiredType(m) == Some(DATA) && Permits(m, args, requested)
    ensures r in requested && r.Data? && Permits(m, args, [r])
  {
    if m == GetPrivateEvents {
      r :| r in requested && r.Data? && r.privateEvents.Some? &&
           InAddressList(ToStr(Field(Arg(args, 1), "contractAddress")), r.privateEvents.value);
    } else {
      r :| r in requested && r.Data? && On(r.addressBook);
    }
    assert r in [r] && forall c :: c in [r] <==> c == r;
  }

  lemma {:induction false} PermittedContracts(m: Method, args: seq<Value>, requested: seq<Capability>)
    returns (r: Capability)
    requires RequiredType(m) == Some(CONTRACTS) && Permits(m, args, requested)
    ensures r in requested && r.Contracts? && Permits(m, args, [r])
  {
    if m == RegisterContract {
      r :| r in requested && r.Contracts? && On(r.canRegister) && InAddressList(RegisteredAddress(args), r.contracts);
    } else {
      r :| r in requested && r.Contracts? && On(r.canGetMetadata) && InAddressList(ToStr(Arg(args, 0)), r.contracts);
    }
    assert r in [r] && forall c :: c in [r] <==> c == r;
  }

  /** What permits a call under a whole manifest is one of its capabilities. */
  lemma {:induction false} PermittedByOne(m: Method, args: seq<Value>, requested: seq<Capability>)
    returns (r: Capability)
    requires RequiredType(m).Some? && RequiredType(m).value in SCOPED_TYPES
    requires forall c | c in requested :: WellFormed(c)
    requires Permits(m, args, requested)
    ensures r in requested && TypeOf(r) == RequiredType(m).value && Permits(m, args, [r])
  {
    var kind := RequiredType(m).value;
    if kind == TRANSACTION { r := PermittedTransaction(m, args, requested); }
    else if kind == SIMULATION { r := PermittedSimulation(m, args, requested); }
    else if kind == DATA { r := PermittedData(m, args, requested); }
    else { r := PermittedContracts(m, args, requested); }
  }

  /** Coverage is sound for enforcement: when every scoped capability of a manifest is judged
      covered, each call the manifest alone would permit is permitted by the stored grants. */
  lemma {:induction false} CoverageSound(m: Method, args: seq<Value>, requested: seq<Capability>, stored: seq<Capability>)
    requires RequiredType(m).Some? && RequiredType(m).value in SCOPED_TYPES
    requires forall c | c in requested :: WellFormed(c)
    requires forall c | c in requested && TypeOf(c) in SCOPED_TYPES :: Covered(c, stored)
    requires Permits(m, args, requested)
    ensures Permits(m, args, stored)
  {
    var r := PermittedByOne(m, args, requested);
    OneIsSound(m, args, r, stored);
  }

  /** The same for a single covered capability. */
  lemma {:induction false} OneIsSound(m: Method, args: seq<Value>, r: Capability, stored: seq<Capability>)
    requires RequiredType(m) == Some(TypeOf(r)) && TypeOf(r) in SCOPED_TYPES
    requires WellFormed(r) && Covered(r, stored) && Permits(m, args, [r])
    ensures Permits(m, args, stored)
  {
    CoveredIsHeld(r, stored);
    if r.Transaction? {
      if m == GrantPublicAuthwit || Field(Arg(args, 0), "calls").items != [] {
        TransactionSound(m, args, r, stored);
      }
    } else if r.Simulation? {
      SimulationSound(m, args, r, stored);
    } else if r.Data? {
      DataSound(m, args, r, stored);
    } else if m == RegisterContract {
      ContractsSound(RegisteredAddress(args), true, r, stored);
    } else {
      ContractsSound(ToStr(Arg(args, 0)), false, r, stored);
    }
  }

  lemma CoveredIsHeld(r: Capability, stored: seq<Capability>)
    requires WellFormed(r) && TypeOf(r) in SCOPED_TYPES && Covered(r, stored)
    ensures Holds(stored, TypeOf(r))
  {
  }
}
