/** Per-method scope checks against the granted capabilities
    (packages/wallet-bridge/src/method-scope-checkers.ts and scope-enforcement.ts). A check that
    throws in the original is a predicate that does not hold here. */
module ScopeCheckers {
  import opened Wire
  import opened FieldAddress
  import opened Capabilities
  import opened Methods

  predicate MatchesPattern(contract: string, fn: Value, p: ScopePattern)
  {
    (p.contract == "*" || SameFieldAddress(p.contract, contract)) && (p.fn == "*" || fn == Str(p.fn))
  }

  /** An empty function name matches no scope, `*` included. */
  predicate MatchesScope(contract: string, fn: Value, scope: Scope)
  {
    fn != Str("") &&
    (scope.AnyScope? || exists p | p in scope.patterns :: MatchesPattern(contract, fn, p))
  }

  predicate InAddressList(address: string, list: AddressList)
  {
    list.AnyAddress? || exists item | item in list.list :: SameFieldAddress(item, address)
  }

  predicate Holds(grants: seq<Capability>, kind: string)
  {
    exists c | c in grants :: TypeOf(c) == kind
  }

  predicate CallMatches(call: Value, scope: Scope)
  {
    !IsNullish(call) && MatchesScope(ToStr(Field(call, "to")), Field(call, "name"), scope)
  }

  predicate AllCallsMatch(calls: seq<Value>, scope: Scope)
  {
    forall call | call in calls :: CallMatches(call, scope)
  }

  // ----- per-method checkers -----

  predicate ContractsGrantLists(address: string, register: bool, grants: seq<Capability>)
  {
    Holds(grants, CONTRACTS) ==>
    exists c | c in grants ::
      c.Contracts? && On(if register then c.canRegister else c.canGetMetadata) && InAddressList(address, c.contracts)
  }

  predicate CheckContractClass(args: seq<Value>, grants: seq<Capability>)
  {
    Holds(grants, CONTRACT_CLASSES) ==>
    exists c | c in grants ::
      c.ContractClasses? && On(c.canGetMetadata) && InAddressList(ToStr(Arg(args, 0)), c.classes)
  }

  predicate CheckTransactionCalls(args: seq<Value>, grants: seq<Capability>)
  {
    var calls := Field(Arg(args, 0), "calls");
    calls.Arr? &&
    (calls.items != [] && Holds(grants, TRANSACTION) ==>
       exists c | c in grants :: c.Transaction? && AllCallsMatch(calls.items, c.scope))
  }

  predicate CheckGrantPublicAuthwit(args: seq<Value>, grants: seq<Capability>)
  {
    var content := Arg(args, 1);
    var contract, fn := ToStr(Field(content, "contract")), ToStr(Field(content, "method"));
    Holds(grants, TRANSACTION) ==>
    exists c | c in grants :: c.Transaction? && MatchesScope(contract, Str(fn), c.scope)
  }

  predicate CheckSimulationCalls(args: seq<Value>, grants: seq<Capability>)
  {
    var calls := Field(Arg(args, 0), "calls");
    calls.Arr? &&
    (calls.items != [] && Holds(grants, SIMULATION) ==>
       && (forall call | call in calls.items :: IsObject(call) && !Field(call, "to").Undefined?)
       && exists c | c in grants ::
            c.Simulation? && c.transactions.Some? && AllCallsMatch(calls.items, c.transactions.value))
  }

  predicate CheckExecuteUtility(args: seq<Value>, grants: seq<Capability>)
  {
    var call := Arg(args, 0);
    !Falsy(Field(call, "to")) && !Falsy(Field(call, "name")) &&
    (Holds(grants, SIMULATION) ==>
       exists c | c in grants ::
         c.Simulation? && c.utilities.Some? &&
         MatchesScope(ToStr(Field(call, "to")), Field(call, "name"), c.utilities.value))
  }

  predicate CheckPrivateEvents(args: seq<Value>, grants: seq<Capability>)
  {
    var address := ToStr(Field(Arg(args, 1), "contractAddress"));
    Holds(grants, DATA) ==>
    exists c | c in grants :: c.Data? && c.privateEvents.Some? && InAddressList(address, c.privateEvents.value)
  }

  predicate CheckAddressBook(grants: seq<Capability>)
  {
    Holds(grants, DATA) ==> exists c | c in grants :: c.Data? && On(c.addressBook)
  }

  predicate CheckGetAccounts(grants: seq<Capability>)
  {
    Holds(grants, ACCOUNTS) ==> exists c | c in grants :: c.Accounts? && On(c.canGet)
  }

  // ----- authorization witnesses -----

  predicate HasTxCaps(grants: seq<Capability>)
  {
    exists c | c in grants :: c.Transaction? || (c.Simulation? && c.transactions.Some?)
  }

  /** The scope one grant gives to a call intent: a transaction or simulated-transaction scope. */
  predicate GrantPermitsCall(contract: string, fn: Value, c: Capability)
  {
    (c.Transaction? && MatchesScope(contract, fn, c.scope)) ||
    (c.Simulation? && c.transactions.Some? && MatchesScope(contract, fn, c.transactions.value))
  }

  predicate WithinTxOrSimulationScope(contract: string, fn: Value, grants: seq<Capability>)
  {
    exists c | c in grants :: GrantPermitsCall(contract, fn, c)
  }

  predicate IsCallIntent(v: Value)
  {
    Has(v, "caller") && Has(v, "call") &&
    (var call := Field(v, "call"); Has(call, "to") && Has(call, "name") && Field(call, "name").Str?)
  }

  predicate IsIntentInnerHash(v: Value)
  {
    Has(v, "consumer") && Has(v, "innerHash")
  }

  /** `isCreateAuthWitCoveredByTxOrSimulationScope`. */
  predicate IntentCovered(intent: Value, grants: seq<Capability>)
  {
    IsCallIntent(intent) &&
    var call := Field(intent, "call");
    WithinTxOrSimulationScope(ToStr(Field(call, "to")), Field(call, "name"), grants)
  }

  predicate AccountsGrantSigns(from: string, grants: seq<Capability>)
  {
    Holds(grants, ACCOUNTS) ==>
    exists c | c in grants ::
      c.Accounts? && On(c.canCreateAuthWit) &&
      (c.accounts.None? || exists a | a in c.accounts.value :: a.item == from)
  }

  predicate CheckCreateAuthWit(args: seq<Value>, grants: seq<Capability>)
  {
    var intent := Arg(args, 1);
    AccountsGrantSigns(ToStr(Arg(args, 0)), grants) &&
    if IsCallIntent(intent) then
      HasTxCaps(grants) ==> IntentCovered(intent, grants)
    else if IsIntentInnerHash(intent) then
      HasTxCaps(grants) ==> WithinTxOrSimulationScope(ToStr(Field(intent, "consumer")), Str("*"), grants)
    else false
  }

  function RegisteredAddress(args: seq<Value>): string
  {
    var address := Field(Arg(args, 0), "address");
    ToStr(if IsNullish(address) then Arg(args, 0) else address)
  }

  /** The registry's scope check for each method; methods without one pass. */
  predicate CheckerPasses(m: Method, args: seq<Value>, grants: seq<Capability>)
  {
    match m
    case RegisterContract => ContractsGrantLists(RegisteredAddress(args), true, grants)
    case GetContractMetadata | IsTokenRegistered => ContractsGrantLists(ToStr(Arg(args, 0)), false, grants)
    case GetContractClassMetadata => CheckContractClass(args, grants)
    case RegisterContractClass => false
    case SendTx => CheckTransactionCalls(args, grants)
    case GrantPublicAuthwit => CheckGrantPublicAuthwit(args, grants)
    case SimulateTx | ProfileTx => CheckSimulationCalls(args, grants)
    case ExecuteUtility => CheckExecuteUtility(args, grants)
    case GetPrivateEvents => CheckPrivateEvents(args, grants)
    case GetAddressBook | RegisterSender => CheckAddressBook(grants)
    case CreateAuthWit => CheckCreateAuthWit(args, grants)
    case GetAccounts => CheckGetAccounts(grants)
    case _ => true
  }

  /** Type-level and scope-level enforcement together: what the grants allow. */
  predicate Permits(m: Method, args: seq<Value>, grants: seq<Capability>)
  {
    IsExempt(m) || (Holds(grants, RequiredType(m).value) && CheckerPasses(m, args, grants))
  }

  // ----- account lists named by a request -----

  predicate EntriesApproved(field: Value, sessionAccounts: set<string>)
  {
    field.Arr? ==> forall e | e in field.items :: ToStr(e) in sessionAccounts
  }

  /** `enforceScopeWithSession`'s account-list part: every listed account is a session account. */
  predicate AccountScopesApproved(args: seq<Value>, sessionAccounts: set<string>)
  {
    && EntriesApproved(Field(Arg(args, 0), "scopes"), sessionAccounts)
    && EntriesApproved(Field(Arg(args, 1), "scopes"), sessionAccounts)
    && EntriesApproved(Field(Arg(args, 1), "additionalScopes"), sessionAccounts)
  }
}
