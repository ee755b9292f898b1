/** The stored dApp session row and its writers
    (apps/extension/src/wallet/services/dapp-session/service.ts), with the account identifiers
    the row holds (packages/wallet-bridge/src/caip.ts). */
module Session {
  import opened Wrappers
  import opened Text
  import opened Seqs
  import opened Wire
  import opened FieldAddress
  import opened Capabilities
  import opened ScopeCheckers

  // ----- CAIP-10 account identifiers -----

  function ChainPrefix(chainId: nat): string { "aztec:" + Decimal(chainId) + ":" }

  function FormatCaip(chainId: nat, address: string): string { ChainPrefix(chainId) + address }

  /** The address of a CAIP-10 identifier; None where parsing throws. */
  function CaipAddress(caip: string): Option<string>
  {
    var parts := Split(caip, ':');
    if |parts| == 3 && parts[0] == "aztec" && parts[1] != "" && AllDigits(parts[1]) && parts[2] != ""
    then Some(parts[2]) else None
  }

  /** Both spellings of every session account: as stored, and the raw address when it parses. */
  function SessionAccountsOf(accounts: seq<string>): set<string>
  {
    (set a | a in accounts) +
    (set a | a in accounts && CaipAddress(a).Some? :: CaipAddress(a).value)
  }

  predicate OnChain(caip: string, chainId: nat)
  {
    ChainPrefix(chainId) <= caip
  }

  /** Whether every entry of the chain parses; reading the session's addresses throws otherwise. */
  predicate Readable(accounts: seq<string>, chainId: nat)
  {
    forall a | a in accounts && OnChain(a, chainId) :: CaipAddress(a).Some?
  }

  function SessionAddresses(accounts: seq<string>, chainId: nat): set<string>
  {
    set a | a in accounts && OnChain(a, chainId) && CaipAddress(a).Some? :: CaipAddress(a).value
  }

  lemma {:induction false} CaipRoundTrip(chainId: nat, address: string)
    requires address != "" && ':' !in address
    ensures CaipAddress(FormatCaip(chainId, address)) == Some(address)
  {
    var d := Decimal(chainId);
    assert ':' !in "aztec" && ':' !in d;
    var tail := d + [':'] + address;
    assert FormatCaip(chainId, address) == "aztec" + [':'] + tail;
    SplitHead("aztec", ':', tail);
    SplitHead(d, ':', address);
    SplitAtom(address, ':');
    assert Split(FormatCaip(chainId, address), ':') == ["aztec", d, address];
  }

  /** An identifier is read if and only if it is the namespace, a chain number and an address without
      colons, joined by colons. */
  lemma {:induction false} CaipReadExactly(caip: string, address: string)
    ensures CaipAddress(caip) == Some(address) <==>
            && address != "" && ':' !in address
            && exists chain :: chain != "" && AllDigits(chain) && caip == Join(["aztec", chain, address], ":")
  {
    if CaipAddress(caip) == Some(address) {
      var parts := Split(caip, ':');
      JoinSplit(caip, ':');
      assert parts == ["aztec", parts[1], address];
      assert address in parts;
    }
    if chain :| address != "" && ':' !in address && chain != "" && AllDigits(chain) &&
                caip == Join(["aztec", chain, address], ":") {
      SplitJoin(["aztec", chain, address], ':');
    }
  }

  // ----- the row and a decision -----

  datatype Row = Row(
    accounts: seq<string>,
    aliases: map<string, string>,
    grants: seq<Capability>,
    rejections: seq<string>,
    consent: Value)

  datatype ConsentChange = KeepConsent | DeleteConsent | SetConsent(broad: bool)

  datatype Decision = Decision(
    addAccounts: seq<string>,
    aliasPatch: map<string, string>,
    grantRecords: seq<Capability>,
    replaceTypes: seq<string>,
    approvedTypes: seq<string>,
    rejectedTypes: seq<string>,
    requiresAccounts: bool,
    authorizations: ConsentChange)

  predicate AtMostOnePerType(caps: seq<Capability>)
  {
    forall i, j | 0 <= i < j < |caps| :: TypeOf(caps[i]) != TypeOf(caps[j])
  }

  // ----- the authorizations consent -----

  predicate AnyContractScope(s: Scope)
  {
    s.AnyScope? || exists p | p in s.patterns :: p.contract == "*"
  }

  predicate ReachesAnyContract(c: Capability)
  {
    (c.Transaction? && AnyContractScope(c.scope)) ||
    (c.Simulation? && c.transactions.Some? && AnyContractScope(c.transactions.value))
  }

  predicate CoversAnyContract(caps: seq<Capability>)
  {
    exists c | c in caps :: ReachesAnyContract(c)
  }

  /** The stored consent, read strictly: exactly `{ broad: boolean }`. */
  function ReadConsent(v: Value): Option<bool>
  {
    if v.Obj? && v.fields.Keys == {"broad"} && v.fields["broad"].Bool? then Some(v.fields["broad"].b) else None
  }

  function ConsentValue(broad: bool): Value { Obj(map["broad" := Bool(broad)]) }

  predicate AuthorizationsEffective(consent: Value, caps: seq<Capability>)
  {
    var read := ReadConsent(consent);
    read.Some? && (read.value || !CoversAnyContract(caps))
  }

  /** The grants a decision leaves in force, by type replacement. */
  function EffectiveGrants(existing: seq<Capability>, records: seq<Capability>): seq<Capability>
  {
    Filter(existing, (c: Capability) => !Holds(records, TypeOf(c))) + records
  }

  // ----- the writers -----

  predicate HoldsCanCreateAuthWit(grants: seq<Capability>)
  {
    exists c | c in grants :: c.Accounts? && On(c.canCreateAuthWit)
  }

  function DropConsent(row: Row): Row
  {
    if HoldsCanCreateAuthWit(row.grants) then row else row.(consent := Undefined)
  }

  function ConsentAfter(current: Value, change: ConsentChange): Value
  {
    match change
    case KeepConsent => current
    case DeleteConsent => Undefined
    case SetConsent(broad) => ConsentValue(broad)
  }

  /** The row after `applyCapabilityDecision`; None when the writer refuses and writes nothing. */
  function Apply(row: Row, d: Decision): Option<Row>
  {
    if d.requiresAccounts && !Holds(row.grants, ACCOUNTS) then None
    else
      Some(DropConsent(Row(
        if d.addAccounts == [] then row.accounts else Dedup(row.accounts + d.addAccounts),
        row.aliases + d.aliasPatch,
        Filter(row.grants, (c: Capability) => TypeOf(c) !in d.replaceTypes) + d.grantRecords,
        Filter(row.rejections, (t: string) => t !in d.approvedTypes && t !in d.rejectedTypes) + d.rejectedTypes,
        ConsentAfter(row.consent, d.authorizations))))
  }

  /** The Settings switch: None is the refusal of On without `canCreateAuthWit`. */
  function Switch(row: Row, on: bool, shownBroad: bool): Option<Row>
  {
    if on && !HoldsCanCreateAuthWit(row.grants) then None
    else Some(row.(consent := if on then ConsentValue(shownBroad && CoversAnyContract(row.grants)) else Undefined))
  }

  /** `setCapabilityGrants`: a revocation or any other rewrite of the stored grants. */
  function Regrant(row: Row, grants: seq<Capability>): Row
  {
    DropConsent(row.(grants := grants))
  }

  /** The session service's row under its lock; null is a deleted session. */
  class SessionStore {
    var row: Option<Row>

    constructor (initial: Row)
      ensures row == Some(initial)
    {
      row := Some(initial);
    }

    /** Every write merges against the row as it is now and is all-or-nothing. */
    method ApplyCapabilityDecision(d: Decision) returns (ok: bool)
      modifies this
      ensures ok <==> old(row).Some? && Apply(old(row).value, d).Some?
      ensures row == if ok then Apply(old(row).value, d) else old(row)
      ensures ok && row.value.consent != Undefined ==> HoldsCanCreateAuthWit(row.value.grants)
    {
      if row.None? { return false; }
      var r := row.value;
      if d.requiresAccounts && !Holds(r.grants, ACCOUNTS) { return false; }
      var consent := ConsentAfter(r.consent, d.authorizations);
      if |d.addAccounts| > 0 {
        r := r.(accounts := Dedup(r.accounts + d.addAccounts));
      }
      r := r.(aliases := r.aliases + d.aliasPatch);
      r := r.(grants := Filter(r.grants, (c: Capability) => TypeOf(c) !in d.replaceTypes) + d.grantRecords);
      r := r.(rejections :=
        Filter(r.rejections, (t: string) => t !in d.approvedTypes && t !in d.rejectedTypes) + d.rejectedTypes);
      r := r.(consent := consent);
      if !HoldsCanCreateAuthWit(r.grants) {
        r := r.(consent := Undefined);
      }
      row := Some(r);
      return true;
    }

    method SetAuthorizationsWithoutAsking(on: bool, shownBroad: bool) returns (ok: bool)
      modifies this
      ensures ok <==> old(row).Some? && Switch(old(row).value, on, shownBroad).Some?
      ensures row == if ok then Switch(old(row).value, on, shownBroad) else old(row)
      ensures ok <==>
        old(row).Some? && (on ==> exists c | c in old(row).value.grants :: c.Accounts? && On(c.canCreateAuthWit))
      ensures ok ==> row == Some(old(row).value.(consent := row.value.consent))
      ensures ok && !on ==> row.value.consent == Undefined
      ensures ok && on ==>
        ReadConsent(row.value.consent) == Some(shownBroad && exists c | c in row.value.grants :: ReachesAnyContract(c))
      ensures ok && !on ==> !AuthorizationsEffective(row.value.consent, row.value.grants)
    {
      if row.None? || (on && !HoldsCanCreateAuthWit(row.value.grants)) { return false; }
      var broad := shownBroad && CoversAnyContract(row.value.grants);
      row := Some(row.value.(consent := if on then ConsentValue(broad) else Undefined));
      return true;
    }

    method SetCapabilityGrants(grants: seq<Capability>) returns (ok: bool)
      modifies this
      ensures ok == old(row).Some?
      ensures row == if ok then Some(Regrant(old(row).value, grants)) else None
      ensures ok && row.value.consent != Undefined ==>
        HoldsCanCreateAuthWit(grants) && row.value.consent == old(row).value.consent
    {
      if row.None? { return false; }
      var r := row.value.(grants := grants);
      row := Some(if HoldsCanCreateAuthWit(r.grants) then r else r.(consent := Undefined));
      return true;
    }

    /** `updateDappSession`: the list of accounts is replaced outright, and nothing else the model
        keeps. */
    method UpdateDappSession(accounts: seq<string>) returns (ok: bool)
      modifies this
      ensures ok == old(row).Some?
      ensures row == if ok then Some(old(row).value.(accounts := accounts)) else None
    {
      if row.None? { return false; }
      row := Some(row.value.(accounts := accounts));
      return true;
    }

    method SetAccountAliases(aliases: map<string, string>) returns (ok: bool)
      modifies this
      ensures ok == old(row).Some?
      ensures row == if ok then Some(old(row).value.(aliases := old(row).value.aliases + aliases)) else None
    {
      if row.None? { return false; }
      row := Some(row.value.(aliases := row.value.aliases + aliases));
      return true;
    }

    method SetCapabilityRejections(types: seq<string>) returns (ok: bool)
      modifies this
      ensures ok == old(row).Some?
      ensures row == if ok then Some(old(row).value.(rejections := types)) else None
    {
      if row.None? { return false; }
      row := Some(row.value.(rejections := types));
      return true;
    }

    method DeleteDappSession()
      modifies this
      ensures row == None
    {
      row := None;
    }
  }

  // ----- what an effective consent allows -----

  /** The address a covered intent targets is listed by this pattern, not reached by a wildcard. */
  predicate ListsExactly(p: ScopePattern, contract: string, fn: Value)
  {
    SameFieldAddress(p.contract, contract) && (p.fn == "*" || fn == Str(p.fn))
  }

  predicate IntentListed(intent: Value, grants: seq<Capability>)
  {
    var call := Field(intent, "call");
    exists c | c in grants :: GrantListsCall(ToStr(Field(call, "to")), Field(call, "name"), c)
  }

  predicate GrantListsCall(contract: string, fn: Value, c: Capability)
  {
    (c.Transaction? && ScopeListsCall(contract, fn, c.scope)) ||
    (c.Simulation? && c.transactions.Some? && ScopeListsCall(contract, fn, c.transactions.value))
  }

  predicate ScopeListsCall(contract: string, fn: Value, s: Scope)
  {
    s.Listed? && exists p | p in s.patterns :: ListsExactly(p, contract, fn)
  }

  lemma MatchWithoutWildcard(contract: string, fn: Value, s: Scope)
    requires MatchesScope(contract, fn, s) && !AnyContractScope(s)
    ensures ScopeListsCall(contract, fn, s)
  {
    var p :| p in s.patterns && MatchesPattern(contract, fn, p);
    assert ListsExactly(p, contract, fn);
  }

  /** An intent that may sign silently is within a held transaction or simulation scope, and
      either the stored consent is broad or a held pattern lists exactly the target contract. */
  lemma SilentSigningJustified(intent: Value, consent: Value, grants: seq<Capability>)
    requires IntentCovered(intent, grants) && AuthorizationsEffective(consent, grants)
    ensures ReadConsent(consent) == Some(true) ||
            (ReadConsent(consent) == Some(false) && IntentListed(intent, grants))
  {
    if ReadConsent(consent) == Some(false) {
      var call := Field(intent, "call");
      var contract, fn := ToStr(Field(call, "to")), Field(call, "name");
      var c :| c in grants && GrantPermitsCall(contract, fn, c);
      assert !ReachesAnyContract(c);
      if c.Transaction? && MatchesScope(contract, fn, c.scope) {
        MatchWithoutWildcard(contract, fn, c.scope);
      } else {
        MatchWithoutWildcard(contract, fn, c.transactions.value);
      }
      assert GrantListsCall(contract, fn, c);
    }
  }
}
