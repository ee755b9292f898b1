/** What dispatch does, from the outside: which messages reach which service, as which account, and
    what batches and account listings answer. Conditions are over the message, the row read at
    entry and the wallet, without the guard ladder's own predicates. */
module DispatchExact {
  import opened Wrappers
  import Text
  import opened Wire
  import opened Capabilities
  import opened Methods
  import opened ScopeCheckers
  import opened Session
  import opened Permissions
  import opened Dispatch
  import opened DispatchProofs

  // ----- the message -----

  /** How many arguments a method must be given. */
  function MinArgs(m: Method): nat
  {
    match m
    case CreateAuthWit | RegisterToken | GrantPublicAuthwit | GetPrivateEvents => 2
    case IsTokenRegistered | RegisterContract | GetContractMetadata => 1
    case GetContractClassMetadata | RegisterSender | Batch => 1
    case _ => 0
  }

  /** A call on the wire: an object with a target and a function name. */
  predicate NamesCall(v: Value)
  {
    (v.Arr? || v.Obj?) && Field(v, "to") != Undefined && Field(v, "name").Str?
  }

  predicate GivesNothing(v: Value) { v == Undefined || v == Null }

  /** The arguments have the shape the method reads. */
  predicate WellShaped(m: Method, args: seq<Value>)
  {
    && |args| >= MinArgs(m)
    && match m
       case SendTx | ProfileTx =>
         var calls := Field(Arg(args, 0), "calls");
         calls.Arr? && forall c | c in calls.items :: NamesCall(c)
       case ExecuteUtility => NamesCall(Arg(args, 0))
       case CreateAuthWit => !GivesNothing(args[0])
       case RegisterToken => !GivesNothing(args[0]) && !GivesNothing(args[1])
       case RequestCapabilities =>
         var caps := Field(Arg(args, 0), "capabilities");
         GivesNothing(Arg(args, 0)) ||
         (Arg(args, 0).Obj? && (GivesNothing(caps) || (caps.Arr? && forall c | c in caps.items :: !GivesNothing(c))))
       case Batch =>
         args[0].Arr? && forall leg | leg in args[0].items ::
           leg.Obj? && Field(leg, "name").Str? && Field(leg, "args").Arr?
       case _ => true
  }

  lemma {:induction false} ShapeExact(m: Method, args: seq<Value>)
    ensures ArgGuard(m, args) && AuthShape(m, args) <==> WellShaped(m, args)
  {
  }

  // ----- the accounts a message lists -----

  /** The value names a session account, as stored or by its bare address. */
  predicate NamesMember(v: Value, accounts: seq<string>)
  {
    exists a | a in accounts :: ToStr(v) == a || CaipAddress(a) == Some(ToStr(v))
  }

  predicate ListsMembers(field: Value, accounts: seq<string>)
  {
    field.Arr? ==> forall v | v in field.items :: NamesMember(v, accounts)
  }

  /** Every account list of the message names session accounts only. */
  predicate ScopesHeld(args: seq<Value>, accounts: seq<string>)
  {
    && ListsMembers(Field(Arg(args, 0), "scopes"), accounts)
    && ListsMembers(Field(Arg(args, 1), "scopes"), accounts)
    && ListsMembers(Field(Arg(args, 1), "additionalScopes"), accounts)
  }

  lemma {:induction false} MembersExact(field: Value, accounts: seq<string>)
    ensures EntriesApproved(field, SessionAccountsOf(accounts)) <==> ListsMembers(field, accounts)
  {
    forall v ensures ToStr(v) in SessionAccountsOf(accounts) <==> NamesMember(v, accounts) {
      if NamesMember(v, accounts) {
        var a :| a in accounts && (ToStr(v) == a || CaipAddress(a) == Some(ToStr(v)));
      }
    }
  }

  /** The accounts of a list of well-formed identifiers on a chain: exactly those listed for it. */
  lemma {:induction false} SessionAddressesExact(accounts: seq<string>, chainId: nat, address: string)
    requires address != "" && ':' !in address
    requires forall a | a in accounts :: exists c: nat, x: string :: x != "" && ':' !in x && a == FormatCaip(c, x)
    ensures address in SessionAddresses(accounts, chainId) <==> FormatCaip(chainId, address) in accounts
  {
    if FormatCaip(chainId, address) in accounts { CaipRoundTrip(chainId, address); }
    if address in SessionAddresses(accounts, chainId) {
      var a :| a in accounts && OnChain(a, chainId) && CaipAddress(a) == Some(address);
      var c: nat, x: string :| x != "" && ':' !in x && a == FormatCaip(c, x);
      CaipRoundTrip(c, x);
      SameChain(chainId, c, x);
    }
  }

  lemma {:induction false} SameChain(c: nat, d: nat, x: string)
    requires ':' !in x && ChainPrefix(c) <= FormatCaip(d, x)
    ensures FormatCaip(c, x) == FormatCaip(d, x)
  {
    var s, m, n := FormatCaip(d, x), |Text.Decimal(c)|, |Text.Decimal(d)|;
    assert s[6 + m] == ChainPrefix(c)[6 + m] == ':' && s[6 + n] == ':';
    assert forall i | 0 <= i < m :: s[6 + i] == ChainPrefix(c)[6 + i] == Text.Decimal(c)[i];
    assert forall i | 0 <= i < n :: s[6 + i] == Text.Decimal(d)[i];
    assert m == n;
    assert Text.Decimal(c) == Text.Decimal(d);
  }

  // ----- who may pass -----

  /** The row read at entry lets the message through. */
  ghost predicate Admits(m: Method, args: seq<Value>, row: Option<Row>)
  {
    && WellShaped(m, args)
    && (m in {GetChainInfo, RequestCapabilities, Batch, GetWalletFeatures} ||
        (row.Some? && Allowed(m, args, row.value.grants) && ScopesHeld(args, row.value.accounts)))
  }

  lemma {:induction false} ScopesExactly(args: seq<Value>, accounts: seq<string>)
    ensures AccountScopesApproved(args, SessionAccountsOf(accounts)) <==> ScopesHeld(args, accounts)
  {
    MembersExact(Field(Arg(args, 0), "scopes"), accounts);
    MembersExact(Field(Arg(args, 1), "scopes"), accounts);
    MembersExact(Field(Arg(args, 1), "additionalScopes"), accounts);
  }

  lemma ExemptExact(m: Method)
    ensures IsExempt(m) <==> m in {GetChainInfo, RequestCapabilities, Batch, GetWalletFeatures}
  {
  }

  lemma {:induction false} GuardExact(m: Method, args: seq<Value>, row: Option<Row>)
    requires row.Some? ==> AllWellFormed(row.value.grants)
    ensures GuardPasses(m, args, row) <==> Admits(m, args, row)
  {
    ShapeExact(m, args);
    ExemptExact(m);
    if row.Some? {
      PermitsExactly(m, args, row.value.grants);
      ScopesExactly(args, row.value.accounts);
    }
  }

  // ----- as whom -----

  /** The account the message names: `from` unless absent or opted out, or the first argument. */
  function NamedAccount(m: Method, args: seq<Value>): Option<string>
  {
    if m in {SendTx, SimulateTx, ProfileTx} then
      var from := Field(Arg(args, 1), "from");
      if GivesNothing(from) || from == Str("NO_FROM") then None else Some(ToStr(from))
    else if m in {CreateAuthWit, RegisterToken, GrantPublicAuthwit} then Some(ToStr(Arg(args, 0)))
    else None
  }

  lemma NamedExact(m: Method, args: seq<Value>)
    ensures RequestedAccount(m, args) == NamedAccount(m, args)
  {
  }

  /** Every identifier stored for the chain has an address. */
  predicate AllRead(accounts: seq<string>, chainId: nat)
  {
    forall a | a in accounts && ChainPrefix(chainId) <= a :: CaipAddress(a) != None
  }

  /** The account is the wallet's, a member of the session on this chain, and the one named; when
      none is named, the first such in wallet order. */
  ghost predicate ActsAs(w: World, ctx: Context, m: Method, args: seq<Value>, row: Row, t: nat, a: string)
  {
    var members := SessionAddresses(row.accounts, ctx.chainId);
    && w.networkUp(t) && a in w.wallet(t) && a in members && AllRead(row.accounts, ctx.chainId)
    && (if NamedAccount(m, args).Some? then NamedAccount(m, args) == Some(a)
        else exists i | 0 <= i < |w.wallet(t)| ::
          w.wallet(t)[i] == a && forall j | 0 <= j < i :: w.wallet(t)[j] !in members)
  }

  lemma {:induction false} ActingExact(w: World, ctx: Context, m: Method, args: seq<Value>, row: Row, t: nat, a: string)
    ensures ActingAccount(w, ctx, m, args, Some(row), t) == Some(a) <==> ActsAs(w, ctx, m, args, row, t, a)
  {
    NamedExact(m, args);
    var wallet, members := w.wallet(t), SessionAddresses(row.accounts, ctx.chainId);
    var r := Resolve(wallet, members, RequestedAccount(m, args));
    if ActsAs(w, ctx, m, args, row, t, a) {
      assert r.Some?;
      if NamedAccount(m, args).None? {
        var i :| 0 <= i < |wallet| && wallet[i] == a && forall j | 0 <= j < i :: wallet[j] !in members;
        var k :| 0 <= k < |wallet| && wallet[k] == r.value && forall j | 0 <= j < k :: wallet[j] !in members;
        assert i == k;
      }
    }
  }

  // ----- to which service -----

  /** The intent is a call, within a held scope, and the consent in force covers it. */
  ghost predicate SignedSilently(args: seq<Value>, row: Row)
  {
    var intent := Arg(args, 1);
    && IsCallIntent(intent) && AuthorizationsEffective(row.consent, row.grants)
    && exists s | s in CallScopes(row.grants) ::
         ScopeAllows(s, ToStr(Field(Field(intent, "call"), "to")), Field(Field(intent, "call"), "name"))
  }

  lemma {:induction false} SilentExact(args: seq<Value>, row: Row)
    ensures SignsSilently(args, row) <==> SignedSilently(args, row)
  {
    var call := Field(Arg(args, 1), "call");
    ScopedExact(ToStr(Field(call, "to")), Field(call, "name"), row.grants);
  }

  /** Where an account-bound call goes: to the popup, or to execution for the methods that only
      compute and for an authorization that signs silently, under the session's own fence. */
  predicate GoesTo(e: Effect, silent: bool, ctx: Context)
  {
    match e.callee
    case SendTx | RegisterToken => e.sink == ConfirmationPopup
    case GrantPublicAuthwit => e.sink == ConfirmationPopup && !GivesNothing(Arg(e.args, 1))
    case CreateAuthWit =>
      if silent then e.sink == Execution && ctx.fence == Some(ctx.profileId) else e.sink == ConfirmationPopup
    case _ => e.sink == Execution
  }

  /** The one call an admitted account-bound message makes, if it makes one. */
  ghost predicate AccountCall(w: World, ctx: Context, e: Effect)
  {
    var row := w.row(e.readAt);
    && row.Some? && e.account.Some? && ActsAs(w, ctx, e.callee, e.args, row.value, e.readAt + 1, e.account.value)
    && GoesTo(e, SignedSilently(e.args, row.value), ctx)
  }

  /** The one call any other admitted message makes: a network read, a token lookup or a
      negotiation. Listing accounts and features makes none. */
  ghost predicate PlainCall(w: World, e: Effect)
  {
    && e.account.None?
    && match e.callee
       case GetChainInfo | RegisterContract | GetContractMetadata | GetContractClassMetadata =>
         e.sink == Execution && w.networkUp(e.readAt + 1)
       case GetPrivateEvents | GetAddressBook | RegisterSender => e.sink == Execution && w.networkUp(e.readAt + 1)
       case IsTokenRegistered => e.sink == TokenRegistry && w.hasTokenReader
       case RequestCapabilities => e.sink == CapabilityNegotiation && w.row(e.readAt).Some?
       case _ => false
  }

  ghost predicate Makes(w: World, ctx: Context, e: Effect)
  {
    if e.callee in {SendTx, SimulateTx, ProfileTx, ExecuteUtility, CreateAuthWit, RegisterToken, GrantPublicAuthwit}
    then AccountCall(w, ctx, e)
    else PlainCall(w, e)
  }

  lemma {:induction false} RouteAccountRoutes(w: World, ctx: Context, e: Effect, row: Row)
    requires ActsAsAccount(e.callee)
    ensures RouteAccount(w, ctx, e.callee, e.args, Some(row), e.nested, e.readAt).effects == [e] <==>
            && e.account.Some? && ActingAccount(w, ctx, e.callee, e.args, Some(row), e.readAt + 1) == e.account
            && GoesTo(e, SignsSilently(e.args, row), ctx)
  {
    var account := ActingAccount(w, ctx, e.callee, e.args, Some(row), e.readAt + 1);
    if account.Some? {
      RoutedEffects(w, ctx, e, row, account, SignsSilently(e.args, row));
      GoesToExactly(e, SignsSilently(e.args, row), ctx);
      var sink := SinkOf(e.callee, e.args, SignsSilently(e.args, row), ctx);
      if sink.Some? {
        assert [e.(sink := sink.value, account := account)][0] == e.(sink := sink.value, account := account);
      }
    }
  }

  /** The service an account-bound call goes to, if it is made at all. */
  function SinkOf(m: Method, args: seq<Value>, silent: bool, ctx: Context): Option<Sink>
  {
    if m == GrantPublicAuthwit && IsNullish(Arg(args, 1)) then None
    else if m == CreateAuthWit && silent then if ctx.fence == Some(ctx.profileId) then Some(Execution) else None
    else Some(if RoutingOf(m) == AccountOperation then Execution else ConfirmationPopup)
  }

  lemma {:induction false} RoutedEffects(
    w: World, ctx: Context, e: Effect, row: Row, account: Option<string>, silent: bool)
    requires account.Some? && silent == SignsSilently(e.args, row)
    requires account == ActingAccount(w, ctx, e.callee, e.args, Some(row), e.readAt + 1)
    ensures var sink := SinkOf(e.callee, e.args, silent, ctx);
      RouteAccount(w, ctx, e.callee, e.args, Some(row), e.nested, e.readAt).effects ==
      if sink.None? then [] else [e.(sink := sink.value, account := account)]
  {
  }

  lemma {:induction false} GoesToExactly(e: Effect, silent: bool, ctx: Context)
    requires ActsAsAccount(e.callee)
    ensures GoesTo(e, silent, ctx) <==> SinkOf(e.callee, e.args, silent, ctx) == Some(e.sink)
  {
  }

  lemma {:induction false} RouteAccountMakes(w: World, ctx: Context, e: Effect)
    requires ActsAsAccount(e.callee)
    ensures RouteAccount(w, ctx, e.callee, e.args, w.row(e.readAt), e.nested, e.readAt).effects == [e] <==>
            AccountCall(w, ctx, e)
  {
    if w.row(e.readAt).Some? {
      var row := w.row(e.readAt).value;
      RouteAccountRoutes(w, ctx, e, row);
      if e.account.Some? { ActingExact(w, ctx, e.callee, e.args, row, e.readAt + 1, e.account.value); }
      SilentExact(e.args, row);
    }
  }

  lemma {:induction false} RouteMakes(w: World, ctx: Context, e: Effect)
    requires e.callee != Batch
    ensures var r := Route(w, ctx, e.callee, e.args, w.row(e.readAt), e.nested, e.readAt);
      r.effects == [e] <==> Makes(w, ctx, e)
  {
    if ActsAsAccount(e.callee) { RouteAccountMakes(w, ctx, e); }
  }

  /** Exactly which call a message other than a batch makes: it makes call e if and only if the row
      read at entry admits the message and e is the call its method makes, as the account it acts
      as, at the service it belongs to. Nothing else is ever called, and nothing admitted is
      dropped. */
  lemma {:induction false} DispatchMakesExactly(
    w: World, ctx: Context, name: string, args: seq<Value>, nested: bool, t: nat, e: Effect)
    requires name in REGISTRY && REGISTRY[name] != Batch
    requires w.row(t).Some? ==> AllWellFormed(w.row(t).value.grants)
    requires e.callee == REGISTRY[name] && e.args == args && e.readAt == t && e.nested == nested
    ensures DispatchRun(w, ctx, name, args, nested, t).effects == [e] <==>
            Admits(e.callee, args, w.row(t)) && Makes(w, ctx, e)
  {
    GuardExact(e.callee, args, w.row(t));
    RouteMakes(w, ctx, e);
  }

  /** At any nesting depth, the row of every authorization that reaches a service holds an accounts
      grant that signs for the very account it is made as, and what it authorizes is within the
      row's scopes, if it has any. */
  lemma {:induction false} AuthorizationsAreSignable(
    w: World, ctx: Context, name: string, args: seq<Value>, t: nat, e: Effect)
    requires e in DispatchRun(w, ctx, name, args, false, t).effects && e.callee == CreateAuthWit
    requires forall k: nat | w.row(k).Some? :: AllWellFormed(w.row(k).value.grants)
    ensures w.row(e.readAt).Some? && e.account.Some?
    ensures var grants := w.row(e.readAt).value.grants;
      && (exists c | c in grants :: SignsFor(c, e.account.value))
      && Authorizes(Arg(e.args, 1)).Some?
      && (CallScopes(grants) == {} || exists s | s in CallScopes(grants) ::
            ScopeAllows(s, Authorizes(Arg(e.args, 1)).value.0, Authorizes(Arg(e.args, 1)).value.1))
  {
    DispatchSafety(w, ctx, name, args, false, t);
    AuthorizeExact(e.args, w.row(e.readAt).value.grants);
    NamedExact(CreateAuthWit, e.args);
  }

  /** At any nesting depth every call that needs a capability is allowed by its row's grants, field
      by field, and lists only that row's accounts. */
  lemma {:induction false} EffectsAreAllowed(w: World, ctx: Context, name: string, args: seq<Value>, t: nat, e: Effect)
    requires e in DispatchRun(w, ctx, name, args, false, t).effects
    requires forall k: nat | w.row(k).Some? :: AllWellFormed(w.row(k).value.grants)
    ensures Admits(e.callee, e.args, w.row(e.readAt))
  {
    DispatchSafety(w, ctx, name, args, false, t);
    assert GuardPasses(e.callee, e.args, w.row(e.readAt));
    GuardExact(e.callee, e.args, w.row(e.readAt));
  }

  // ----- listing accounts -----

  /** `getAccounts` answers with exactly the wallet's accounts that are session members, and calls
      no service. */
  lemma {:induction false} AccountsListed(w: World, ctx: Context, nested: bool, t: nat, row: Row)
    requires w.row(t) == Some(row) && AllWellFormed(row.grants) && row.accounts != []
    requires MayListAccounts(row.grants) && w.networkUp(t + 1) && AllRead(row.accounts, ctx.chainId)
    ensures var r := DispatchRun(w, ctx, "getAccounts", [], nested, t);
      && r.effects == [] && r.outcome.Returned? && r.outcome.value.Arr?
      && (forall v | v in r.outcome.value.items :: v.Str?)
      && (forall a :: Str(a) in r.outcome.value.items <==>
            a in w.wallet(t + 1) && a in SessionAddresses(row.accounts, ctx.chainId))
  {
    ListingIsAdmitted(row);
    assert DispatchRun(w, ctx, "getAccounts", [], nested, t) == ListAccounts(w, ctx, row, t);
  }

  lemma {:induction false} ListingIsAdmitted(row: Row)
    requires AllWellFormed(row.grants) && MayListAccounts(row.grants)
    ensures GuardPasses(GetAccounts, [], Some(row))
  {
    GuardExact(GetAccounts, [], Some(row));
    assert ScopesHeld([], row.accounts);
  }

  /** `getWalletFeatures` answers the same for everyone, session or not, and calls no service. */
  lemma {:induction false} FeaturesListed(w: World, ctx: Context, args: seq<Value>, nested: bool, t: nat)
    ensures var r := DispatchRun(w, ctx, "getWalletFeatures", args, nested, t);
      r.effects == [] && r.outcome == Returned(Arr([Str("dapp-self-pay")]))
  {
    assert REGISTRY["getWalletFeatures"] == GetWalletFeatures;
    assert GuardPasses(GetWalletFeatures, args, w.row(t));
  }

  // ----- batches -----

  /** A batch runs its legs exactly when it is well-shaped and none of them is `sendTx` or
      `registerToken`; otherwise nothing of it runs. */
  lemma {:induction false} BatchRunsExactly(w: World, ctx: Context, args: seq<Value>, nested: bool, t: nat)
    ensures var r := DispatchRun(w, ctx, "batch", args, nested, t);
      if WellShaped(Batch, args) &&
         forall leg | leg in args[0].items :: Field(leg, "name").s !in {"sendTx", "registerToken"}
      then r == Legs(w, ctx, args[0].items, t + 1)
      else r.effects == [] && r.outcome == Threw
  {
    ShapeExact(Batch, args);
  }

  /** The entry a leg that returned adds to the answer: its name and its result. */
  function EntryOf(leg: Value, run: Outcome): Value
  {
    Obj(map["name" := Field(leg, "name"), "result" := if run.Returned? then run.value else Undefined])
  }

  /** The entries of the first k legs. */
  ghost function Entries(w: World, ctx: Context, legs: seq<Value>, t: nat, k: nat): (r: seq<Value>)
    requires (forall leg | leg in legs :: IsLeg(leg)) && k <= |legs|
    ensures |r| == k
  {
    if k == 0 then []
    else Entries(w, ctx, legs, t, k - 1) + [EntryOf(legs[k - 1], LegRun(w, ctx, legs, t, k - 1).outcome)]
  }

  lemma {:induction false} EntryAt(w: World, ctx: Context, legs: seq<Value>, t: nat, k: nat, i: nat)
    requires (forall leg | leg in legs :: IsLeg(leg)) && i < k <= |legs|
    ensures Entries(w, ctx, legs, t, k)[i] == EntryOf(legs[i], LegRun(w, ctx, legs, t, i).outcome)
  {
    if i < k - 1 { EntryAt(w, ctx, legs, t, k - 1, i); }
  }

  lemma PrefixLegs(legs: seq<Value>, k: nat)
    requires (forall leg | leg in legs :: IsLeg(leg)) && k <= |legs|
    ensures forall leg | leg in legs[..k] :: IsLeg(leg)
    ensures k > 0 ==> legs[..k][..k - 1] == legs[..k - 1] && legs[..k][k - 1] == legs[k - 1] && IsLeg(legs[k - 1])
  {
    assert forall leg | leg in legs[..k] :: leg in legs;
    if k > 0 { assert legs[k - 1] in legs; }
  }

  lemma {:induction false} OneMoreLeg(w: World, ctx: Context, legs: seq<Value>, t: nat, k: nat)
    requires (forall leg | leg in legs :: IsLeg(leg)) && 0 < k <= |legs|
    ensures (forall leg | leg in legs[..k] :: IsLeg(leg)) && (forall leg | leg in legs[..k - 1] :: IsLeg(leg))
    ensures IsLeg(legs[k - 1])
    ensures var before := Legs(w, ctx, legs[..k - 1], t).outcome;
      Legs(w, ctx, legs[..k], t).outcome ==
      if before.Threw? then before else Collected(before, LegName(legs[k - 1]), LegRun(w, ctx, legs, t, k - 1).outcome)
  {
    PrefixLegs(legs, k);
    PrefixLegs(legs, k - 1);
  }

  lemma CollectedEntry(before: Outcome, leg: Value, run: Outcome)
    requires IsLeg(leg) && before.Returned? && before.value.Arr? && Collected(before, LegName(leg), run).Returned?
    ensures Collected(before, LegName(leg), run) == Returned(Arr(before.value.items + [EntryOf(leg, run)]))
  {
  }

  /** A batch whose legs all return answers with their names and results, in order. */
  lemma {:induction false} BatchAnswers(w: World, ctx: Context, legs: seq<Value>, t: nat, k: nat)
    requires (forall leg | leg in legs :: IsLeg(leg)) && k <= |legs|
    requires (forall leg | leg in legs[..k] :: IsLeg(leg)) && Legs(w, ctx, legs[..k], t).outcome.Returned?
    ensures Legs(w, ctx, legs[..k], t).outcome == Returned(Arr(Entries(w, ctx, legs, t, k)))
  {
    if k > 0 {
      OneMoreLeg(w, ctx, legs, t, k);
      BatchAnswers(w, ctx, legs, t, k - 1);
      CollectedEntry(Legs(w, ctx, legs[..k - 1], t).outcome, legs[k - 1], LegRun(w, ctx, legs, t, k - 1).outcome);
    }
  }
}
