/** What each method needs of the held grants, read off the grants' fields: a reference for the
    scope checks, with addresses compared as numbers. */
module Permissions {
  import opened Wrappers
  import opened Wire
  import opened FieldAddress
  import opened Capabilities
  import opened Methods
  import opened ScopeCheckers

  // ----- scopes and lists -----

  /** Two spellings of one 32-byte value below the field modulus. */
  predicate SameAddress(x: string, y: string)
  {
    IsFieldAddress(x) && IsFieldAddress(y) && ValueOf(x) == ValueOf(y)
  }

  /** A scope reaches a function of a contract: a wildcard or the same address, and a wildcard or
      the same name; nothing reaches a nameless function. */
  predicate ScopeAllows(s: Scope, contract: string, fn: Value)
  {
    fn != Str("") &&
    (s.AnyScope? ||
     exists p | p in s.patterns ::
       (p.contract == "*" || SameAddress(p.contract, contract)) && (p.fn == "*" || fn == Str(p.fn)))
  }

  predicate ListAllows(l: AddressList, address: string)
  {
    l.AnyAddress? || exists x | x in l.list :: SameAddress(x, address)
  }

  lemma MatchingIsAllowing(s: Scope, contract: string, fn: Value)
    ensures MatchesScope(contract, fn, s) <==> ScopeAllows(s, contract, fn)
  {
    if s.Listed? {
      forall p | p in s.patterns ensures SameFieldAddress(p.contract, contract) <==> SameAddress(p.contract, contract) {
        SameIsNumericEquality(p.contract, contract);
      }
    }
  }

  lemma ListingIsAllowing(l: AddressList, address: string)
    ensures InAddressList(address, l) <==> ListAllows(l, address)
  {
    if l.Addresses? {
      forall x | x in l.list ensures SameFieldAddress(x, address) <==> SameAddress(x, address) {
        SameIsNumericEquality(x, address);
      }
    }
  }

  predicate CallsAllowed(s: Scope, calls: seq<Value>)
  {
    forall call | call in calls ::
      !IsNullish(call) && ScopeAllows(s, ToStr(Field(call, "to")), Field(call, "name"))
  }

  lemma CallsMatchingIsAllowing(s: Scope, calls: seq<Value>)
    ensures AllCallsMatch(calls, s) <==> CallsAllowed(s, calls)
  {
    forall call | call in calls
      ensures CallMatches(call, s) <==>
              !IsNullish(call) && ScopeAllows(s, ToStr(Field(call, "to")), Field(call, "name"))
    {
      MatchingIsAllowing(s, ToStr(Field(call, "to")), Field(call, "name"));
    }
  }

  // ----- one condition per method -----

  /** The calls of a transaction need one transaction grant that reaches them all. */
  predicate MaySend(args: seq<Value>, grants: seq<Capability>)
  {
    var calls := Field(Arg(args, 0), "calls");
    calls.Arr? && exists c | c in grants :: c.Transaction? && CallsAllowed(c.scope, calls.items)
  }

  /** So do the calls of a simulation; a simulation without calls needs only a simulation grant. */
  predicate MaySimulate(args: seq<Value>, grants: seq<Capability>)
  {
    var calls := Field(Arg(args, 0), "calls");
    calls.Arr? &&
    if calls.items == [] then exists c | c in grants :: c.Simulation?
    else
      && (forall call | call in calls.items :: (call.Arr? || call.Obj?) && Field(call, "to") != Undefined)
      && exists c | c in grants ::
           c.Simulation? && c.transactions.Some? && CallsAllowed(c.transactions.value, calls.items)
  }

  predicate MayExecuteUtility(args: seq<Value>, grants: seq<Capability>)
  {
    var to, name := Field(Arg(args, 0), "to"), Field(Arg(args, 0), "name");
    !Falsy(to) && !Falsy(name) &&
    exists c | c in grants :: c.Simulation? && c.utilities.Some? && ScopeAllows(c.utilities.value, ToStr(to), name)
  }

  predicate MayGrantPublicly(args: seq<Value>, grants: seq<Capability>)
  {
    var contract, fn := ToStr(Field(Arg(args, 1), "contract")), Str(ToStr(Field(Arg(args, 1), "method")));
    exists c | c in grants :: c.Transaction? && ScopeAllows(c.scope, contract, fn)
  }

  predicate MayReadEvents(args: seq<Value>, grants: seq<Capability>)
  {
    var address := ToStr(Field(Arg(args, 1), "contractAddress"));
    exists c | c in grants :: c.Data? && c.privateEvents.Some? && ListAllows(c.privateEvents.value, address)
  }

  predicate MayUseAddressBook(grants: seq<Capability>)
  {
    exists c | c in grants :: c.Data? && c.addressBook == Some(true)
  }

  predicate MayRegister(args: seq<Value>, grants: seq<Capability>)
  {
    var named := Field(Arg(args, 0), "address");
    var address := ToStr(if named.Undefined? || named.Null? then Arg(args, 0) else named);
    exists c | c in grants :: c.Contracts? && c.canRegister == Some(true) && ListAllows(c.contracts, address)
  }

  predicate MayReadContract(args: seq<Value>, grants: seq<Capability>)
  {
    exists c | c in grants ::
      c.Contracts? && c.canGetMetadata == Some(true) && ListAllows(c.contracts, ToStr(Arg(args, 0)))
  }

  predicate MayReadClass(args: seq<Value>, grants: seq<Capability>)
  {
    exists c | c in grants ::
      c.ContractClasses? && c.canGetMetadata == Some(true) && ListAllows(c.classes, ToStr(Arg(args, 0)))
  }

  predicate MayListAccounts(grants: seq<Capability>)
  {
    exists c | c in grants :: c.Accounts? && c.canGet == Some(true)
  }

  /** An accounts grant that signs for the account: `canCreateAuthWit` on, and no list or one that
      names it. */
  predicate SignsFor(c: Capability, account: string)
  {
    c.Accounts? && c.canCreateAuthWit == Some(true) &&
    (c.accounts.None? || exists a | a in c.accounts.value :: a.item == account)
  }

  /** The scopes that bound what may be authorized: of transactions, real or simulated. */
  ghost function CallScopes(grants: seq<Capability>): set<Scope>
  {
    (set c | c in grants && c.Transaction? :: c.scope) +
    (set c | c in grants && c.Simulation? && c.transactions.Some? :: c.transactions.value)
  }

  /** What an intent authorizes: a function of a contract, any function of a consumer, or, for
      anything else, nothing that can be judged. */
  function Authorizes(intent: Value): Option<(string, Value)>
  {
    if !intent.Obj? then None
    else
      var call := Field(intent, "call");
      if && "caller" in intent.fields && "call" in intent.fields
         && call.Obj? && "to" in call.fields && "name" in call.fields && call.fields["name"].Str?
      then Some((ToStr(call.fields["to"]), call.fields["name"]))
      else if "consumer" in intent.fields && "innerHash" in intent.fields
      then Some((ToStr(intent.fields["consumer"]), Str("*")))
      else None
  }

  ghost predicate MayAuthorize(args: seq<Value>, grants: seq<Capability>)
  {
    var target := Authorizes(Arg(args, 1));
    && (exists c | c in grants :: SignsFor(c, ToStr(Arg(args, 0))))
    && target.Some?
    && (CallScopes(grants) == {} ||
        exists s | s in CallScopes(grants) :: ScopeAllows(s, target.value.0, target.value.1))
  }

  /** What the held grants allow, method by method. */
  ghost predicate Allowed(m: Method, args: seq<Value>, grants: seq<Capability>)
  {
    match m
    case GetChainInfo | RequestCapabilities | Batch | GetWalletFeatures => true
    case SendTx => MaySend(args, grants)
    case GrantPublicAuthwit => MayGrantPublicly(args, grants)
    case SimulateTx | ProfileTx => MaySimulate(args, grants)
    case ExecuteUtility => MayExecuteUtility(args, grants)
    case GetPrivateEvents => MayReadEvents(args, grants)
    case GetAddressBook | RegisterSender => MayUseAddressBook(grants)
    case RegisterContract => MayRegister(args, grants)
    case GetContractMetadata | IsTokenRegistered => MayReadContract(args, grants)
    case GetContractClassMetadata => MayReadClass(args, grants)
    case RegisterContractClass => false
    case GetAccounts => MayListAccounts(grants)
    case RegisterToken => exists c | c in grants :: c.Accounts?
    case CreateAuthWit => MayAuthorize(args, grants)
  }

  // ----- the checks agree with it -----

  lemma HeldOfType(grants: seq<Capability>)
    requires AllWellFormed(grants)
    ensures Holds(grants, ACCOUNTS) <==> exists c | c in grants :: c.Accounts?
    ensures Holds(grants, CONTRACTS) <==> exists c | c in grants :: c.Contracts?
    ensures Holds(grants, CONTRACT_CLASSES) <==> exists c | c in grants :: c.ContractClasses?
    ensures Holds(grants, SIMULATION) <==> exists c | c in grants :: c.Simulation?
    ensures Holds(grants, TRANSACTION) <==> exists c | c in grants :: c.Transaction?
    ensures Holds(grants, DATA) <==> exists c | c in grants :: c.Data?
  {
  }

  lemma {:induction false} SendExact(args: seq<Value>, grants: seq<Capability>)
    requires AllWellFormed(grants)
    ensures Permits(SendTx, args, grants) <==> MaySend(args, grants)
  {
    HeldOfType(grants);
    var calls := Field(Arg(args, 0), "calls");
    if calls.Arr? {
      forall c | c in grants && c.Transaction?
        ensures AllCallsMatch(calls.items, c.scope) <==> CallsAllowed(c.scope, calls.items)
      {
        CallsMatchingIsAllowing(c.scope, calls.items);
      }
    }
  }

  lemma {:induction false} SimulateExact(m: Method, args: seq<Value>, grants: seq<Capability>)
    requires AllWellFormed(grants) && (m == SimulateTx || m == ProfileTx)
    ensures Permits(m, args, grants) <==> MaySimulate(args, grants)
  {
    HeldOfType(grants);
    var calls := Field(Arg(args, 0), "calls");
    if calls.Arr? {
      forall c | c in grants && c.Simulation? && c.transactions.Some?
        ensures AllCallsMatch(calls.items, c.transactions.value) <==> CallsAllowed(c.transactions.value, calls.items)
      {
        CallsMatchingIsAllowing(c.transactions.value, calls.items);
      }
    }
  }

  lemma {:induction false} SingleCallExact(m: Method, args: seq<Value>, grants: seq<Capability>)
    requires AllWellFormed(grants) && (m == ExecuteUtility || m == GrantPublicAuthwit)
    ensures Permits(m, args, grants) <==> Allowed(m, args, grants)
  {
    HeldOfType(grants);
    if m == ExecuteUtility {
      var to, name := Field(Arg(args, 0), "to"), Field(Arg(args, 0), "name");
      forall c | c in grants && c.Simulation? && c.utilities.Some?
        ensures MatchesScope(ToStr(to), name, c.utilities.value) <==> ScopeAllows(c.utilities.value, ToStr(to), name)
      {
        MatchingIsAllowing(c.utilities.value, ToStr(to), name);
      }
    } else {
      var contract, fn := ToStr(Field(Arg(args, 1), "contract")), Str(ToStr(Field(Arg(args, 1), "method")));
      forall c | c in grants && c.Transaction?
        ensures MatchesScope(contract, fn, c.scope) <==> ScopeAllows(c.scope, contract, fn)
      {
        MatchingIsAllowing(c.scope, contract, fn);
      }
    }
  }

  lemma {:induction false} ListExact(m: Method, args: seq<Value>, grants: seq<Capability>)
    requires AllWellFormed(grants)
    requires RequiredType(m).Some? && RequiredType(m).value in {CONTRACTS, CONTRACT_CLASSES, DATA}
    ensures Permits(m, args, grants) <==> Allowed(m, args, grants)
  {
    HeldOfType(grants);
    forall l, address ensures InAddressList(address, l) <==> ListAllows(l, address) { ListingIsAllowing(l, address); }
  }

  // ----- authorizations -----

  lemma IntentShapes(intent: Value)
    ensures Authorizes(intent).Some? <==> IsCallIntent(intent) || IsIntentInnerHash(intent)
    ensures IsCallIntent(intent) ==>
      Authorizes(intent) == Some((ToStr(Field(Field(intent, "call"), "to")), Field(Field(intent, "call"), "name")))
    ensures !IsCallIntent(intent) && IsIntentInnerHash(intent) ==>
      Authorizes(intent) == Some((ToStr(Field(intent, "consumer")), Str("*")))
  {
  }

  lemma {:induction false} ScopedExact(contract: string, fn: Value, grants: seq<Capability>)
    ensures HasTxCaps(grants) <==> CallScopes(grants) != {}
    ensures WithinTxOrSimulationScope(contract, fn, grants) <==>
            exists s | s in CallScopes(grants) :: ScopeAllows(s, contract, fn)
  {
    forall s ensures MatchesScope(contract, fn, s) <==> ScopeAllows(s, contract, fn) {
      MatchingIsAllowing(s, contract, fn);
    }
    forall c | c in grants && c.Transaction? ensures c.scope in CallScopes(grants) {
    }
    forall c | c in grants && c.Simulation? && c.transactions.Some? ensures c.transactions.value in CallScopes(grants) {
    }
    if WithinTxOrSimulationScope(contract, fn, grants) {
      var c :| c in grants && GrantPermitsCall(contract, fn, c);
    }
    if s :| s in CallScopes(grants) && ScopeAllows(s, contract, fn) {
      var c :| c in grants && ((c.Transaction? && c.scope == s) ||
                               (c.Simulation? && c.transactions == Some(s)));
      assert GrantPermitsCall(contract, fn, c);
    }
  }

  /** An authorization is allowed exactly when some accounts grant signs for the account named, the
      intent says what it authorizes (a raw hash never does), and, if any transaction or simulated
      transaction scope is held, one of them reaches that. */
  lemma {:induction false} AuthorizeExact(args: seq<Value>, grants: seq<Capability>)
    requires AllWellFormed(grants)
    ensures Permits(CreateAuthWit, args, grants) <==> MayAuthorize(args, grants)
  {
    HeldOfType(grants);
    var intent := Arg(args, 1);
    IntentShapes(intent);
    if Authorizes(intent).Some? {
      ScopedExact(Authorizes(intent).value.0, Authorizes(intent).value.1, grants);
    }
    assert (Holds(grants, ACCOUNTS) && AccountsGrantSigns(ToStr(Arg(args, 0)), grants)) <==>
           exists c | c in grants :: SignsFor(c, ToStr(Arg(args, 0)));
  }

  /** Enforcement, method by method: the type and scope checks let a call through exactly when the
      grants' fields allow it. */
  lemma {:induction false} PermitsExactly(m: Method, args: seq<Value>, grants: seq<Capability>)
    requires AllWellFormed(grants)
    ensures Permits(m, args, grants) <==> Allowed(m, args, grants)
  {
    match m
    case SendTx => SendExact(args, grants);
    case SimulateTx => SimulateExact(m, args, grants);
    case ProfileTx => SimulateExact(m, args, grants);
    case ExecuteUtility => SingleCallExact(m, args, grants);
    case GrantPublicAuthwit => SingleCallExact(m, args, grants);
    case CreateAuthWit => AuthorizeExact(args, grants);
    case GetAccounts => HeldOfType(grants);
    case RegisterToken => HeldOfType(grants);
    case GetChainInfo =>
    case RequestCapabilities =>
    case Batch =>
    case GetWalletFeatures =>
    case RegisterContract => ListExact(m, args, grants);
    case GetContractMetadata => ListExact(m, args, grants);
    case IsTokenRegistered => ListExact(m, args, grants);
    case GetContractClassMetadata => ListExact(m, args, grants);
    case RegisterContractClass => ListExact(m, args, grants);
    case GetPrivateEvents => ListExact(m, args, grants);
    case GetAddressBook => ListExact(m, args, grants);
    case RegisterSender => ListExact(m, args, grants);
  }
}
