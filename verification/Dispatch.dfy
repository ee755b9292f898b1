/** The dispatcher (packages/wallet-bridge/src/dispatcher.ts): the guard ladder every message runs,
    the routing to the executors, and batches whose legs re-enter dispatch. The services it talks
    to are arbitrary functions of time: each read and each execution may see a different world. */
module Dispatch {
  import opened Wrappers
  import opened Wire
  import opened Methods
  import opened ScopeCheckers
  import opened Session

  datatype World = World(
    row: nat -> Option<Row>,          // the session row a read at that time returns
    networkUp: nat -> bool,           // whether the profile has a network for the chain
    wallet: nat -> seq<string>,       // the profile's accounts on the chain, in wallet order
    answer: nat -> Option<Value>,     // what the called service answers; None is a failure
    hasTokenReader: bool)

  datatype Context = Context(chainId: nat, profileId: string, fence: Option<string>)

  datatype Sink = Execution | ConfirmationPopup | TokenRegistry | CapabilityNegotiation

  /** A call that reached a service: which one, for which method, and the row it was judged by. */
  datatype Effect = Effect(
    sink: Sink, callee: Method, args: seq<Value>, readAt: nat, account: Option<string>, nested: bool)

  datatype Outcome = Returned(value: Value) | Threw

  datatype Run = Run(effects: seq<Effect>, outcome: Outcome, next: nat)

  const FEATURES: Value := Arr([Str("dapp-self-pay")])

  // ----- the guard ladder -----

  predicate GuardPasses(m: Method, args: seq<Value>, row: Option<Row>)
  {
    && ArgGuard(m, args)
    && AuthShape(m, args)
    && (IsExempt(m) ||
        (row.Some? && Permits(m, args, row.value.grants) &&
         AccountScopesApproved(args, SessionAccountsOf(row.value.accounts))))
  }

  // ----- the acting account -----

  /** `resolveAuthorizedSessionAccount`: the requested account if the session authorizes it, or
      the first wallet account it authorizes. */
  function Resolve(wallet: seq<string>, session: set<string>, requested: Option<string>): (r: Option<string>)
    ensures r.Some? ==> r.value in wallet && r.value in session && (requested.Some? ==> r == requested)
    ensures r.None? ==> forall a | a in wallet && a in session :: requested.Some? && requested.value != a
    ensures r.Some? && requested.None? ==>
              exists i | 0 <= i < |wallet| :: wallet[i] == r.value && forall j | 0 <= j < i :: wallet[j] !in session
  {
    if wallet == [] then None
    else if wallet[0] in session && (requested.None? || requested.value == wallet[0]) then
      assert wallet[0] == wallet[0];
      Some(wallet[0])
    else
      var r := Resolve(wallet[1..], session, requested);
      assert wallet == [wallet[0]] + wallet[1..];
      assert r.Some? && requested.None? ==>
        exists i | 0 <= i < |wallet| :: wallet[i] == r.value && forall j | 0 <= j < i :: wallet[j] !in session by {
        if r.Some? && requested.None? {
          var i :| 0 <= i < |wallet[1..]| && wallet[1..][i] == r.value &&
            forall j | 0 <= j < i :: wallet[1..][j] !in session;
          assert wallet[i + 1] == r.value;
          assert forall j | 1 <= j < i + 1 :: wallet[j] == wallet[1..][j - 1];
        }
      }
      r
  }

  function FromOf(opts: Value): Option<string>
  {
    var from := Field(opts, "from");
    if from == Str("NO_FROM") || IsNullish(from) then None else Some(ToStr(from))
  }

  /** The account a request names, where its method reads one. */
  function RequestedAccount(m: Method, args: seq<Value>): Option<string>
  {
    match m
    case SendTx | SimulateTx | ProfileTx => FromOf(Arg(args, 1))
    case CreateAuthWit | RegisterToken | GrantPublicAuthwit => Some(ToStr(Arg(args, 0)))
    case _ => None
  }

  predicate ActsAsAccount(m: Method)
  {
    m in {SendTx, SimulateTx, ProfileTx, ExecuteUtility, CreateAuthWit, RegisterToken, GrantPublicAuthwit}
  }

  /** `resolveNetworkAndAccount`; None is any of its refusals. */
  function ActingAccount(w: World, ctx: Context, m: Method, args: seq<Value>, row: Option<Row>, t: nat)
    : (r: Option<string>)
    ensures r.Some? ==>
      && row.Some? && r.value in w.wallet(t) && r.value in SessionAddresses(row.value.accounts, ctx.chainId)
      && (RequestedAccount(m, args).Some? ==> r == RequestedAccount(m, args))
  {
    if !w.networkUp(t) || w.wallet(t) == [] || row.None? || row.value.accounts == []
       || !Readable(row.value.accounts, ctx.chainId)
    then None
    else Resolve(w.wallet(t), SessionAddresses(row.value.accounts, ctx.chainId), RequestedAccount(m, args))
  }

  // ----- routing -----

  predicate SignsSilently(args: seq<Value>, row: Row)
  {
    IntentCovered(Arg(args, 1), row.grants) && AuthorizationsEffective(row.consent, row.grants)
  }

  function Answered(w: World, e: Effect, t: nat): Run
  {
    var v := w.answer(t + 2);
    Run([e], if v.Some? then Returned(v.value) else Threw, t + 3)
  }

  function Refused(t: nat): Run { Run([], Threw, t + 3) }

  function ListAccounts(w: World, ctx: Context, row: Row, t: nat): Run
  {
    if row.accounts == [] then Run([], Returned(Arr([])), t + 3)
    else if !w.networkUp(t + 1) || !Readable(row.accounts, ctx.chainId) then Refused(t)
    else Run([], Returned(Arr(MembersOf(w.wallet(t + 1), SessionAddresses(row.accounts, ctx.chainId)))), t + 3)
  }

  function MembersOf(wallet: seq<string>, session: set<string>): (items: seq<Value>)
    ensures forall v | v in items :: v.Str? && v.s in wallet && v.s in session
    ensures forall a | a in wallet && a in session :: Str(a) in items
  {
    if wallet == [] then []
    else (if wallet[0] in session then [Str(wallet[0])] else []) + MembersOf(wallet[1..], session)
  }

  /** The account-bound methods: resolve, then the popup, or execution for the silent paths. */
  function RouteAccount(
    w: World, ctx: Context, m: Method, args: seq<Value>, row: Option<Row>, nested: bool, t: nat): Run
  {
    var account := ActingAccount(w, ctx, m, args, row, t + 1);
    if account.None? then Refused(t)
    else if m == GrantPublicAuthwit && IsNullish(Arg(args, 1)) then Refused(t)
    else if m == CreateAuthWit && SignsSilently(args, row.value) then
      if ctx.fence != Some(ctx.profileId) then Refused(t)
      else Answered(w, Effect(Execution, m, args, t, account, nested), t)
    else
      var sink := if RoutingOf(m) == AccountOperation then Execution else ConfirmationPopup;
      Answered(w, Effect(sink, m, args, t, account, nested), t)
  }

  /** Everything but a batch, once the guard ladder has passed. */
  function Route(w: World, ctx: Context, m: Method, args: seq<Value>, row: Option<Row>, nested: bool, t: nat): Run
  {
    if ActsAsAccount(m) then RouteAccount(w, ctx, m, args, row, nested, t)
    else if RoutingOf(m) == NetworkOperation then
      if !w.networkUp(t + 1) then Refused(t)
      else Answered(w, Effect(Execution, m, args, t, None, nested), t)
    else
      match m
      case RequestCapabilities =>
        if row.None? then Refused(t)
        else Answered(w, Effect(CapabilityNegotiation, m, args, t, None, nested), t)
      case GetAccounts => if row.None? then Refused(t) else ListAccounts(w, ctx, row.value, t)
      case GetWalletFeatures => Run([], Returned(FEATURES), t + 3)
      case IsTokenRegistered =>
        if !w.hasTokenReader then Refused(t)
        else Answered(w, Effect(TokenRegistry, m, args, t, None, nested), t)
      case _ => Refused(t)
  }

  // ----- dispatch and batches -----

  function LegName(leg: Value): string
    requires IsLeg(leg)
  {
    Field(leg, "name").s
  }

  function LegArgs(leg: Value): seq<Value>
    requires IsLeg(leg)
  {
    Field(leg, "args").items
  }

  predicate NeedsPopup(leg: Value)
  {
    Field(leg, "name") == Str("sendTx") || Field(leg, "name") == Str("registerToken")
  }

  /** One message. A batch re-enters dispatch leg by leg; recursion is on the argument values. */
  function DispatchRun(w: World, ctx: Context, name: string, args: seq<Value>, nested: bool, t: nat): Run
    decreases args, 1
  {
    if name !in REGISTRY then Refused(t)
    else
      var m := REGISTRY[name];
      var row := w.row(t);
      if !GuardPasses(m, args, row) then Refused(t)
      else if m == Batch then
        var legs := args[0].items;
        if exists leg | leg in legs :: NeedsPopup(leg) then Refused(t)
        else Legs(w, ctx, legs, t + 1)
      else Route(w, ctx, m, args, row, nested, t)
  }

  /** The legs in order, each a dispatch of its own with its own row read; the first failure ends
      the batch. */
  function Legs(w: World, ctx: Context, legs: seq<Value>, t: nat): Run
    requires forall leg | leg in legs :: IsLeg(leg)
    decreases legs, 0
  {
    if legs == [] then Run([], Returned(Arr([])), t)
    else
      var k := |legs| - 1;
      var before := Legs(w, ctx, legs[..k], t);
      if before.outcome.Threw? then before
      else
        var leg := DispatchRun(w, ctx, LegName(legs[k]), LegArgs(legs[k]), true, before.next);
        Run(before.effects + leg.effects, Collected(before.outcome, LegName(legs[k]), leg.outcome), leg.next)
  }

  function Collected(results: Outcome, name: string, leg: Outcome): Outcome
  {
    if leg.Threw? || results.Threw? then Threw
    else
      var entry := Obj(map["name" := Str(name), "result" := leg.value]);
      Returned(Arr((if results.value.Arr? then results.value.items else []) + [entry]))
  }
}
