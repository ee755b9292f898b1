/** Dispatch safety on every path, at any batch nesting depth. */
module DispatchProofs {
  import opened Wrappers
  import opened Wire
  import opened Methods
  import opened ScopeCheckers
  import opened Session
  import opened Dispatch

  // ----- the imperative dispatcher -----

  method DispatchMessage(w: World, ctx: Context, name: string, args: seq<Value>, nested: bool, t: nat) returns (r: Run)
    ensures r == DispatchRun(w, ctx, name, args, nested, t)
    ensures !(nested && name in {"sendTx", "registerToken"}) ==> forall e | e in r.effects :: Guarded(e, w, ctx)
    decreases args, 1
  {
    if !(nested && name in {"sendTx", "registerToken"}) { DispatchSafety(w, ctx, name, args, nested, t); }
    if name !in REGISTRY { return Refused(t); }
    var m := REGISTRY[name];
    var row := w.row(t);
    if !GuardPasses(m, args, row) { return Refused(t); }
    if m == Batch {
      r := HandleBatch(w, ctx, args[0].items, t);
    } else {
      r := Route(w, ctx, m, args, row, nested, t);
    }
  }

  /** `handleBatch`: refuse popup legs, then run the legs one after another, collecting results. */
  method HandleBatch(w: World, ctx: Context, legs: seq<Value>, t: nat) returns (r: Run)
    requires forall leg | leg in legs :: IsLeg(leg)
    ensures r == if exists leg | leg in legs :: NeedsPopup(leg) then Refused(t) else Legs(w, ctx, legs, t + 1)
    decreases legs, 0
  {
    for i := 0 to |legs|
      invariant forall j | 0 <= j < i :: !NeedsPopup(legs[j])
    {
      if NeedsPopup(legs[i]) {
        assert legs[i] in legs;
        return Refused(t);
      }
    }
    var effects, results, now: nat := [], Arr([]), t + 1;
    for i := 0 to |legs|
      invariant forall leg | leg in legs[..i] :: IsLeg(leg)
      invariant Legs(w, ctx, legs[..i], t + 1) == Run(effects, Returned(results), now)
      invariant results.Arr?
    {
      assert legs[i] in legs;
      assert legs[..i + 1][..i] == legs[..i];
      assert forall leg | leg in legs[..i + 1] :: leg in legs;
      var leg := DispatchMessage(w, ctx, LegName(legs[i]), LegArgs(legs[i]), true, now);
      if leg.outcome.Threw? {
        LegsStopAtFailure(w, ctx, legs, t + 1, i + 1);
        return Run(effects + leg.effects, Threw, leg.next);
      }
      effects := effects + leg.effects;
      results := Arr(results.items + [Obj(map["name" := Str(LegName(legs[i])), "result" := leg.outcome.value])]);
      now := leg.next;
    }
    assert legs[..|legs|] == legs;
    return Run(effects, Returned(results), now);
  }

  // ----- batches -----

  /** After a failing prefix nothing more runs. */
  lemma {:induction false} LegsStopAtFailure(w: World, ctx: Context, legs: seq<Value>, t: nat, k: nat)
    requires forall leg | leg in legs :: IsLeg(leg)
    requires k <= |legs| && Legs(w, ctx, legs[..k], t).outcome.Threw?
    ensures Legs(w, ctx, legs, t) == Legs(w, ctx, legs[..k], t)
    decreases |legs| - k
  {
    if k < |legs| {
      assert legs[..k + 1][..k] == legs[..k];
      assert forall leg | leg in legs[..k + 1] :: leg in legs;
      LegsStopAtFailure(w, ctx, legs, t, k + 1);
    } else {
      assert legs[..k] == legs;
    }
  }

  ghost function LegRun(w: World, ctx: Context, legs: seq<Value>, t: nat, i: nat): Run
    requires (forall leg | leg in legs :: IsLeg(leg)) && i < |legs|
  {
    assert legs[i] in legs;
    assert forall leg | leg in legs[..i] :: leg in legs;
    DispatchRun(w, ctx, LegName(legs[i]), LegArgs(legs[i]), true, Legs(w, ctx, legs[..i], t).next)
  }

  ghost function LegEffects(w: World, ctx: Context, legs: seq<Value>, t: nat, k: nat): seq<Effect>
    requires (forall leg | leg in legs :: IsLeg(leg)) && k <= |legs|
  {
    if k == 0 then [] else LegEffects(w, ctx, legs, t, k - 1) + LegRun(w, ctx, legs, t, k - 1).effects
  }

  lemma LegsStep(w: World, ctx: Context, legs: seq<Value>, t: nat)
    requires (forall leg | leg in legs :: IsLeg(leg)) && legs != []
    ensures var last := |legs| - 1;
      (forall leg | leg in legs[..last] :: IsLeg(leg)) &&
      var before := Legs(w, ctx, legs[..last], t);
      if before.outcome.Threw? then Legs(w, ctx, legs, t) == before
      else
        && Legs(w, ctx, legs, t).effects == before.effects + LegRun(w, ctx, legs, t, last).effects
        && Legs(w, ctx, legs, t).outcome.Threw? == LegRun(w, ctx, legs, t, last).outcome.Threw?
  {
    assert forall leg | leg in legs[..|legs| - 1] :: leg in legs;
  }

  /** The batch ran exactly its first k legs: all of them returned, or the k-th is the first that
      threw. */
  ghost predicate RanLegs(w: World, ctx: Context, legs: seq<Value>, t: nat, k: nat)
    requires forall leg | leg in legs :: IsLeg(leg)
  {
    var r := Legs(w, ctx, legs, t);
    && k <= |legs|
    && r.effects == LegEffects(w, ctx, legs, t, k)
    && (forall i | 0 <= i < k - 1 :: LegRun(w, ctx, legs, t, i).outcome.Returned?)
    && if r.outcome.Returned? then k == |legs| && (k > 0 ==> LegRun(w, ctx, legs, t, k - 1).outcome.Returned?)
       else k > 0 && LegRun(w, ctx, legs, t, k - 1).outcome.Threw?
  }

  lemma RanOneMore(w: World, ctx: Context, legs: seq<Value>, t: nat)
    requires (forall leg | leg in legs :: IsLeg(leg)) && legs != []
    requires forall leg | leg in legs[..|legs| - 1] :: IsLeg(leg)
    requires Legs(w, ctx, legs[..|legs| - 1], t).outcome.Returned?
    requires RanLegs(w, ctx, legs[..|legs| - 1], t, |legs| - 1)
    ensures RanLegs(w, ctx, legs, t, |legs|)
  {
    var last := |legs| - 1;
    LegsStep(w, ctx, legs, t);
    LegRunOfPrefix(w, ctx, legs, t, last);
    LegEffectsOfPrefix(w, ctx, legs, t, last, last);
    forall i | 0 <= i < last ensures LegRun(w, ctx, legs, t, i).outcome.Returned? {
      assert LegRun(w, ctx, legs[..last], t, i).outcome.Returned?;
    }
  }

  lemma RanNoMore(w: World, ctx: Context, legs: seq<Value>, t: nat, k: nat)
    requires (forall leg | leg in legs :: IsLeg(leg)) && legs != []
    requires forall leg | leg in legs[..|legs| - 1] :: IsLeg(leg)
    requires Legs(w, ctx, legs[..|legs| - 1], t).outcome.Threw?
    requires RanLegs(w, ctx, legs[..|legs| - 1], t, k)
    ensures RanLegs(w, ctx, legs, t, k)
  {
    var last := |legs| - 1;
    LegsStep(w, ctx, legs, t);
    LegRunOfPrefix(w, ctx, legs, t, last);
    LegEffectsOfPrefix(w, ctx, legs, t, last, k);
    forall i | 0 <= i < k - 1 ensures LegRun(w, ctx, legs, t, i).outcome.Returned? {
      assert LegRun(w, ctx, legs[..last], t, i).outcome.Returned?;
    }
  }

  /** A batch's effects are exactly those of its legs up to and including the first that fails. */
  lemma {:induction false} BatchIsItsLegs(w: World, ctx: Context, legs: seq<Value>, t: nat) returns (k: nat)
    requires forall leg | leg in legs :: IsLeg(leg)
    ensures RanLegs(w, ctx, legs, t, k)
    decreases |legs|
  {
    if legs == [] {
      k := 0;
    } else {
      var last := |legs| - 1;
      assert forall leg | leg in legs[..last] :: leg in legs;
      k := BatchIsItsLegs(w, ctx, legs[..last], t);
      if Legs(w, ctx, legs[..last], t).outcome.Returned? {
        RanOneMore(w, ctx, legs, t);
        k := |legs|;
      } else {
        RanNoMore(w, ctx, legs, t, k);
      }
    }
  }

  lemma LegRunOfPrefix(w: World, ctx: Context, legs: seq<Value>, t: nat, n: nat)
    requires forall leg | leg in legs :: IsLeg(leg)
    requires n <= |legs|
    ensures forall leg | leg in legs[..n] :: IsLeg(leg)
    ensures forall i | 0 <= i < n :: LegRun(w, ctx, legs[..n], t, i) == LegRun(w, ctx, legs, t, i)
  {
    assert forall leg | leg in legs[..n] :: leg in legs;
    forall i | 0 <= i < n ensures LegRun(w, ctx, legs[..n], t, i) == LegRun(w, ctx, legs, t, i) {
      assert legs[..n][..i] == legs[..i];
    }
  }

  lemma {:induction false} LegEffectsOfPrefix(w: World, ctx: Context, legs: seq<Value>, t: nat, n: nat, k: nat)
    requires forall leg | leg in legs :: IsLeg(leg)
    requires k <= n <= |legs|
    ensures forall leg | leg in legs[..n] :: IsLeg(leg)
    ensures LegEffects(w, ctx, legs[..n], t, k) == LegEffects(w, ctx, legs, t, k)
    decreases k
  {
    LegRunOfPrefix(w, ctx, legs, t, n);
    if k > 0 {
      LegEffectsOfPrefix(w, ctx, legs, t, n, k - 1);
    }
  }

  // ----- safety -----

  /** An effect is guarded by the row its own dispatch read at entry: required type held, checker
      passed, account lists within the session, acting account in both the wallet and the session
      and the one the request names, no popup-gated method under a batch, and a silent signature
      only under an effective consent and the session's own fence. */
  ghost predicate Guarded(e: Effect, w: World, ctx: Context)
  {
    var m, row := e.callee, w.row(e.readAt);
    && ArgGuard(m, e.args) && AuthShape(m, e.args)
    && (!IsExempt(m) ==>
          row.Some? && Holds(row.value.grants, RequiredType(m).value) && CheckerPasses(m, e.args, row.value.grants) &&
          AccountScopesApproved(e.args, SessionAccountsOf(row.value.accounts)))
    && (ActsAsAccount(m) ==>
          row.Some? && e.account.Some? &&
          e.account.value in w.wallet(e.readAt + 1) &&
          e.account.value in SessionAddresses(row.value.accounts, ctx.chainId) &&
          (RequestedAccount(m, e.args).Some? ==> e.account == RequestedAccount(m, e.args)))
    && (e.nested ==> m != SendTx && m != RegisterToken)
    && (m in {SendTx, RegisterToken, GrantPublicAuthwit} ==> e.sink == ConfirmationPopup)
    && (m == CreateAuthWit && e.sink != ConfirmationPopup ==>
          SignsSilently(e.args, row.value) && ctx.fence == Some(ctx.profileId))
    && m != Batch && m != RegisterContractClass
  }

  /** The services an account-bound method may reach. */
  ghost predicate SinkAllowed(sink: Sink, m: Method, args: seq<Value>, row: Option<Row>, ctx: Context)
  {
    && (m in {SendTx, RegisterToken, GrantPublicAuthwit} ==> sink == ConfirmationPopup)
    && (m == CreateAuthWit && sink != ConfirmationPopup ==>
          row.Some? && SignsSilently(args, row.value) && ctx.fence == Some(ctx.profileId))
  }

  lemma {:induction false} AccountEffectGuarded(
    w: World, ctx: Context, m: Method, args: seq<Value>, nested: bool, t: nat, sink: Sink)
    requires GuardPasses(m, args, w.row(t)) && ActsAsAccount(m)
    requires nested ==> m != SendTx && m != RegisterToken
    requires ActingAccount(w, ctx, m, args, w.row(t), t + 1).Some? && SinkAllowed(sink, m, args, w.row(t), ctx)
    ensures Guarded(Effect(sink, m, args, t, ActingAccount(w, ctx, m, args, w.row(t), t + 1), nested), w, ctx)
  {
    assert !IsExempt(m);
  }

  lemma {:induction false} RouteAccountShape(
    w: World, ctx: Context, m: Method, args: seq<Value>, nested: bool, t: nat)
    returns (sink: Sink)
    requires ActsAsAccount(m)
    ensures var r := RouteAccount(w, ctx, m, args, w.row(t), nested, t);
      && r.next == t + 3
      && (r.effects == [] ||
          (&& ActingAccount(w, ctx, m, args, w.row(t), t + 1).Some? && SinkAllowed(sink, m, args, w.row(t), ctx)
           && r.effects == [Effect(sink, m, args, t, ActingAccount(w, ctx, m, args, w.row(t), t + 1), nested)]))
  {
    var r := RouteAccount(w, ctx, m, args, w.row(t), nested, t);
    sink := if r.effects != [] then r.effects[0].sink else Execution;
  }

  lemma {:induction false} RouteAccountGuarded(
    w: World, ctx: Context, m: Method, args: seq<Value>, nested: bool, t: nat)
    requires GuardPasses(m, args, w.row(t)) && ActsAsAccount(m)
    requires nested ==> m != SendTx && m != RegisterToken
    ensures var r := RouteAccount(w, ctx, m, args, w.row(t), nested, t);
      r.next == t + 3 && |r.effects| <= 1 && forall e | e in r.effects :: Guarded(e, w, ctx) && e.readAt == t
  {
    var sink := RouteAccountShape(w, ctx, m, args, nested, t);
    if RouteAccount(w, ctx, m, args, w.row(t), nested, t).effects != [] {
      AccountEffectGuarded(w, ctx, m, args, nested, t, sink);
    }
  }

  lemma RouteGuarded(w: World, ctx: Context, m: Method, args: seq<Value>, nested: bool, t: nat)
    requires GuardPasses(m, args, w.row(t)) && m != Batch
    requires nested ==> m != SendTx && m != RegisterToken
    ensures var r := Route(w, ctx, m, args, w.row(t), nested, t);
      r.next == t + 3 && |r.effects| <= 1 && forall e | e in r.effects :: Guarded(e, w, ctx) && e.readAt == t
  {
    if ActsAsAccount(m) {
      RouteAccountGuarded(w, ctx, m, args, nested, t);
    } else if m != RegisterContractClass {
      forall sink ensures Guarded(Effect(sink, m, args, t, None, nested), w, ctx) {
      }
    }
  }

  /** Every effect of every run is guarded, whatever the services answer and however deeply
      batches nest, and effects read their rows in strictly increasing time. */
  lemma {:induction false} DispatchSafety(w: World, ctx: Context, name: string, args: seq<Value>, nested: bool, t: nat)
    requires nested ==> name != "sendTx" && name != "registerToken"
    ensures var r := DispatchRun(w, ctx, name, args, nested, t);
      && t < r.next
      && (forall e | e in r.effects :: Guarded(e, w, ctx) && t <= e.readAt < r.next)
      && ReadsIncrease(r.effects)
    decreases args, 1
  {
    if name in REGISTRY && GuardPasses(REGISTRY[name], args, w.row(t)) {
      var m := REGISTRY[name];
      if m == Batch {
        var legs := args[0].items;
        if !exists leg | leg in legs :: NeedsPopup(leg) {
          LegsSafety(w, ctx, legs, t + 1);
        }
      } else {
        RouteGuarded(w, ctx, m, args, nested, t);
      }
    }
  }

  ghost predicate ReadsIncrease(effects: seq<Effect>)
  {
    forall i, j | 0 <= i < j < |effects| :: effects[i].readAt < effects[j].readAt
  }

  lemma {:induction false} LegsSafety(w: World, ctx: Context, legs: seq<Value>, t: nat)
    requires forall leg | leg in legs :: IsLeg(leg) && !NeedsPopup(leg)
    ensures var r := Legs(w, ctx, legs, t);
      && t <= r.next
      && (forall e | e in r.effects :: Guarded(e, w, ctx) && t <= e.readAt < r.next)
      && ReadsIncrease(r.effects)
    decreases legs, 0
  {
    if legs != [] {
      var k := |legs| - 1;
      assert forall leg | leg in legs[..k] :: leg in legs;
      assert legs[k] in legs;
      LegsSafety(w, ctx, legs[..k], t);
      var before := Legs(w, ctx, legs[..k], t);
      if before.outcome.Returned? {
        DispatchSafety(w, ctx, LegName(legs[k]), LegArgs(legs[k]), true, before.next);
        var leg := DispatchRun(w, ctx, LegName(legs[k]), LegArgs(legs[k]), true, before.next);
        IncreaseConcat(before.effects, leg.effects, before.next);
      }
    }
  }

  lemma IncreaseConcat(a: seq<Effect>, b: seq<Effect>, mid: nat)
    requires ReadsIncrease(a) && ReadsIncrease(b)
    requires (forall e | e in a :: e.readAt < mid) && (forall e | e in b :: mid <= e.readAt)
    ensures ReadsIncrease(a + b)
  {
    forall i, j | 0 <= i < j < |a + b| ensures (a + b)[i].readAt < (a + b)[j].readAt {
      if i < |a| && j >= |a| {
        assert a[i] in a && b[j - |a|] in b;
      }
    }
  }

  /** A revoked session stops at once: after the row is gone no method that needs a capability
      reaches a service, not even from the remaining legs of a batch already running. */
  lemma RevocationStops(w: World, ctx: Context, name: string, args: seq<Value>, t: nat, gone: nat, e: Effect)
    requires forall k: nat | k >= gone :: w.row(k).None?
    requires e in DispatchRun(w, ctx, name, args, false, t).effects && e.readAt >= gone
    ensures IsExempt(e.callee) && !ActsAsAccount(e.callee)
  {
    DispatchSafety(w, ctx, name, args, false, t);
  }

  /** A silent signature of any run is within a scope its row held, and either that row's consent
      was broad or a held pattern lists exactly the target contract. */
  lemma SilentSignatureJustified(w: World, ctx: Context, name: string, args: seq<Value>, t: nat, e: Effect)
    requires e in DispatchRun(w, ctx, name, args, false, t).effects
    requires e.callee == CreateAuthWit && e.sink == Execution
    ensures var row := w.row(e.readAt);
      && row.Some? && IntentCovered(Arg(e.args, 1), row.value.grants)
      && (ReadConsent(row.value.consent) == Some(true) || IntentListed(Arg(e.args, 1), row.value.grants))
  {
    DispatchSafety(w, ctx, name, args, false, t);
    var row := w.row(e.readAt).value;
    SilentSigningJustified(Arg(e.args, 1), row.consent, row.grants);
  }
}
