/** Whole runs of one session row: window decisions planned against an earlier row, closed
    windows, the Settings switch and the service's plain rewrites, in any interleaving. */
module SessionRuns {
  import opened Wrappers
  import opened Wire
  import opened Capabilities
  import opened ScopeCheckers
  import opened Session
  import opened Negotiation
  import opened NegotiationProofs
  import opened Convergence

  // ----- runs -----

  datatype Event =
    | Decide(snapshot: nat, requested: seq<Capability>, wallet: Wallet, answer: Answer)
    | CloseWindow(snapshot: nat, requested: seq<Capability>, wallet: Wallet)
    | SwitchConsent(on: bool, shownBroad: bool)
    | SetGrants(grants: seq<Capability>)
    | SetAccounts(accounts: seq<string>)          // updateDappSession
    | SetAliases(aliases: map<string, string>)
    | SetRejections(types: seq<string>)

  function PlanOf(rows: seq<Row>, e: Event): Plan
    requires e.Decide? || e.CloseWindow?
    requires e.snapshot < |rows|
  {
    MakePlan(e.requested, rows[e.snapshot], e.wallet)
  }

  /** The row an event leaves; a refused or failed write leaves it as it was. */
  function NextRow(rows: seq<Row>, e: Event): Row
    requires rows != []
    requires e.Decide? || e.CloseWindow? ==> e.snapshot < |rows|
  {
    var now := rows[|rows| - 1];
    var written :=
      match e
      case Decide(_, _, _, answer) =>
        var d := Merge(answer, PlanOf(rows, e));
        if d.None? then None else Apply(now, d.value)
      case CloseWindow(_, _, _) => Apply(now, RejectAll(PlanOf(rows, e)))
      case SwitchConsent(on, shownBroad) => Switch(now, on, shownBroad)
      case SetGrants(grants) => Some(Regrant(now, grants))
      case SetAccounts(accounts) => Some(now.(accounts := accounts))
      case SetAliases(aliases) => Some(now.(aliases := now.aliases + aliases))
      case SetRejections(types) => Some(now.(rejections := types));
    if written.Some? then written.value else now
  }

  /** Event i leads from row i to row i + 1; a window was opened on that row or an earlier one. */
  ghost predicate StepAt(rows: seq<Row>, events: seq<Event>, i: nat)
    requires i < |events| && |rows| == |events| + 1
  {
    && (events[i].Decide? || events[i].CloseWindow? ==> events[i].snapshot <= i)
    && rows[i + 1] == NextRow(rows[..i + 1], events[i])
  }

  ghost predicate Run(rows: seq<Row>, events: seq<Event>)
  {
    && |rows| == |events| + 1
    && forall i {:trigger StepAt(rows, events, i)} | 0 <= i < |events| :: StepAt(rows, events, i)
  }

  lemma RunStep(rows: seq<Row>, events: seq<Event>, n: nat) returns (before: seq<Row>, e: Event)
    requires Run(rows, events) && 0 < n < |rows|
    ensures before == rows[..n] && before[|before| - 1] == rows[n - 1] && e == events[n - 1]
    ensures e.Decide? || e.CloseWindow? ==> e.snapshot < |before|
    ensures rows[n] == NextRow(before, e)
  {
    before, e := rows[..n], events[n - 1];
    assert StepAt(rows, events, n - 1);
  }

  // ----- membership -----

  /** Event i offers the account to the window. */
  predicate Offers(e: Event, a: string)
  {
    e.Decide? && exists o | o in e.wallet.offers :: a == FormatCaip(o.chainId, o.address)
  }

  /** Event i rewrites the whole list with the account on it. */
  predicate Lists(e: Event, a: string) { e.SetAccounts? && a in e.accounts }

  lemma ApplyAccounts(row: Row, d: Decision)
    requires Apply(row, d).Some?
    ensures forall a | a in Apply(row, d).value.accounts :: a in row.accounts || a in d.addAccounts
  {
  }

  lemma PlanOffers(requested: seq<Capability>, row: Row, w: Wallet)
    ensures forall o | o in MakePlan(requested, row, w).offers :: o in w.offers
  {
  }

  lemma {:induction false} StepAccounts(rows: seq<Row>, e: Event, a: string)
    requires rows != []
    requires e.Decide? || e.CloseWindow? ==> e.snapshot < |rows|
    requires a in NextRow(rows, e).accounts
    ensures a in rows[|rows| - 1].accounts || Offers(e, a) || Lists(e, a)
  {
    var now := rows[|rows| - 1];
    if e.Decide? {
      var plan := PlanOf(rows, e);
      PlanOffers(e.requested, rows[e.snapshot], e.wallet);
      if Merge(e.answer, plan).Some? {
        var d := Merge(e.answer, plan).value;
        AddsOnlyOfferedAccounts(e.answer, plan);
        if Apply(now, d).Some? { ApplyAccounts(now, d); }
      }
    } else if e.CloseWindow? {
      var d := RejectAll(PlanOf(rows, e));
      if Apply(now, d).Some? { ApplyAccounts(now, d); }
    }
  }

  /** An event from m up to n offered the account or listed it in a rewrite. */
  predicate BroughtIn(events: seq<Event>, m: nat, n: nat, a: string)
    requires n <= |events|
  {
    exists i | m <= i < n :: Offers(events[i], a) || Lists(events[i], a)
  }

  /** The first row, from m on, of the stretch of membership that ends at n. */
  lemma {:induction false} MemberStretch(rows: seq<Row>, m: nat, n: nat, a: string) returns (i: nat)
    requires m <= n < |rows| && a in rows[n].accounts
    ensures m <= i <= n && a in rows[i].accounts && (i == m || a !in rows[i - 1].accounts)
  {
    i := n;
    if m < n && a in rows[n - 1].accounts { i := MemberStretch(rows, m, n - 1, a); }
  }

  lemma {:induction false} BecomesMember(rows: seq<Row>, events: seq<Event>, n: nat, a: string)
    requires Run(rows, events) && 0 < n < |rows| && a in rows[n].accounts && a !in rows[n - 1].accounts
    ensures Offers(events[n - 1], a) || Lists(events[n - 1], a)
  {
    var before, e := RunStep(rows, events, n);
    StepAccounts(before, e, a);
  }

  /** Over every run, session membership grows only by accounts the wallet offered and by what a
      rewrite of the whole list puts there. */
  lemma {:induction false} MembershipOnlyOffered(rows: seq<Row>, events: seq<Event>, m: nat, n: nat, a: string)
    requires Run(rows, events) && m <= n < |rows| && a in rows[n].accounts
    ensures a in rows[m].accounts || BroughtIn(events, m, n, a)
  {
    var i := MemberStretch(rows, m, n, a);
    if i > m { BecomesMember(rows, events, i, a); }
  }

  // ----- stored capabilities -----

  ghost predicate ProperEvent(e: Event)
  {
    (e.Decide? ==> ProperManifest(e.requested)) && (e.SetGrants? ==> AllWellFormed(e.grants))
  }

  ghost predicate ProperEvents(events: seq<Event>)
  {
    forall i | 0 <= i < |events| :: ProperEvent(events[i])
  }

  lemma ApplyGrants(row: Row, d: Decision)
    requires AllWellFormed(row.grants) && AllWellFormed(d.grantRecords) && Apply(row, d).Some?
    ensures AllWellFormed(Apply(row, d).value.grants)
  {
  }

  lemma {:induction false} StepGrants(rows: seq<Row>, e: Event)
    requires rows != [] && AllWellFormed(rows[|rows| - 1].grants)
    requires e.Decide? || e.CloseWindow? ==> e.snapshot < |rows|
    requires ProperEvent(e)
    ensures AllWellFormed(NextRow(rows, e).grants)
  {
    var now := rows[|rows| - 1];
    if e.Decide? {
      var plan := PlanOf(rows, e);
      PlanFacts(e.requested, rows[e.snapshot], e.wallet);
      if Merge(e.answer, plan).Some? {
        StoresOnlyProjected(e.answer, plan);
        if Apply(now, Merge(e.answer, plan).value).Some? { ApplyGrants(now, Merge(e.answer, plan).value); }
      }
    } else if e.CloseWindow? {
      if Apply(now, RejectAll(PlanOf(rows, e))).Some? { ApplyGrants(now, RejectAll(PlanOf(rows, e))); }
    }
  }

  /** Every stored capability of every run is one projection would accept. */
  lemma {:induction false} StoredStayWellFormed(rows: seq<Row>, events: seq<Event>, n: nat)
    requires Run(rows, events) && n < |rows| && ProperEvents(events)
    requires AllWellFormed(rows[0].grants)
    ensures AllWellFormed(rows[n].grants)
  {
    if n > 0 {
      StoredStayWellFormed(rows, events, n - 1);
      var before, e := RunStep(rows, events, n);
      StepGrants(before, e);
    }
  }

  // ----- consent -----

  /** The event asks for a broad consent, with an any-contract scope among the grants in view. The
      writer may still refuse it, and a switch or a rewrite may take it back. */
  ghost predicate ConsentsBroadly(rows: seq<Row>, e: Event)
    requires rows != []
    requires e.Decide? || e.CloseWindow? ==> e.snapshot < |rows|
  {
    (e.SwitchConsent? && e.on && e.shownBroad && CoversAnyContract(rows[|rows| - 1].grants)) ||
    (e.Decide? && e.answer.consent == Bool(true) &&
     var d := Merge(e.answer, PlanOf(rows, e));
     d.Some? && CoversAnyContract(EffectiveGrants(rows[e.snapshot].grants, d.value.grantRecords)))
  }

  /** A decision stores a broad consent only when it sets one. */
  lemma AppliedConsent(row: Row, d: Decision)
    requires Apply(row, d).Some?
    ensures ReadConsent(Apply(row, d).value.consent) == Some(true) ==>
              ReadConsent(row.consent) == Some(true) || d.authorizations == SetConsent(true)
  {
  }

  lemma MergedConsent(answer: Answer, plan: Plan)
    requires Merge(answer, plan).Some?
    ensures Merge(answer, plan).value.authorizations == SetConsent(true) ==>
              && answer.consent == Bool(true)
              && CoversAnyContract(EffectiveGrants(plan.existing, Merge(answer, plan).value.grantRecords))
  {
  }

  lemma PlanReadsRow(requested: seq<Capability>, row: Row, w: Wallet)
    ensures MakePlan(requested, row, w).existing == row.grants
  {
  }

  /** Only an event that consents broadly turns a consent broad. */
  ghost predicate BroadOnlyBy(rows: seq<Row>, e: Event)
    requires rows != []
    requires e.Decide? || e.CloseWindow? ==> e.snapshot < |rows|
  {
    ReadConsent(NextRow(rows, e).consent) == Some(true) ==>
      ReadConsent(rows[|rows| - 1].consent) == Some(true) || ConsentsBroadly(rows, e)
  }

  lemma {:induction false} DecideConsent(rows: seq<Row>, e: Event)
    requires rows != [] && e.Decide? && e.snapshot < |rows|
    ensures BroadOnlyBy(rows, e)
  {
    var now, plan := rows[|rows| - 1], PlanOf(rows, e);
    PlanReadsRow(e.requested, rows[e.snapshot], e.wallet);
    var d := Merge(e.answer, plan);
    if d.Some? {
      MergedConsent(e.answer, plan);
      if Apply(now, d.value).Some? { AppliedConsent(now, d.value); }
    }
  }

  lemma {:induction false} ConsentStep(rows: seq<Row>, e: Event)
    requires rows != []
    requires e.Decide? || e.CloseWindow? ==> e.snapshot < |rows|
    ensures BroadOnlyBy(rows, e)
  {
    var now := rows[|rows| - 1];
    if e.Decide? {
      DecideConsent(rows, e);
    } else if e.CloseWindow? {
      var d := RejectAll(PlanOf(rows, e));
      if Apply(now, d).Some? { AppliedConsent(now, d); }
    }
  }

  predicate IsBroad(row: Row) { ReadConsent(row.consent) == Some(true) }

  /** Event i asked for a broad consent and the row it left stores one. */
  ghost predicate StoresBroadly(rows: seq<Row>, events: seq<Event>, i: nat)
    requires Run(rows, events) && i < |events|
  {
    StepAt(rows, events, i) && ConsentsBroadly(rows[..i + 1], events[i]) && IsBroad(rows[i + 1])
  }

  /** The consent has been stored broad without interruption, by every row from i to n. */
  predicate BroadThroughout(rows: seq<Row>, i: nat, n: nat)
    requires i <= n < |rows|
  {
    forall k | i <= k <= n :: IsBroad(rows[k])
  }

  /** The first row, from m on, of the broad stretch that ends at n. */
  lemma {:induction false} BroadStretch(rows: seq<Row>, m: nat, n: nat) returns (i: nat)
    requires m <= n < |rows| && IsBroad(rows[n])
    ensures m <= i <= n && BroadThroughout(rows, i, n) && (i == m || !IsBroad(rows[i - 1]))
  {
    i := n;
    if m < n && IsBroad(rows[n - 1]) { i := BroadStretch(rows, m, n - 1); }
  }

  /** Only an event that asks for it with an any-contract scope in view turns a consent broad. */
  lemma {:induction false} TurnedBroad(rows: seq<Row>, events: seq<Event>, n: nat)
    requires Run(rows, events) && 0 < n < |rows| && IsBroad(rows[n]) && !IsBroad(rows[n - 1])
    ensures StoresBroadly(rows, events, n - 1)
  {
    var before, e := RunStep(rows, events, n);
    ConsentStep(before, e);
  }

  /** A broad consent traces back to the event that stored it: that event found no broad consent,
      asked for one with an any-contract scope in view, and every row since has kept it. */
  lemma {:induction false} BroadConsentProvenance(rows: seq<Row>, events: seq<Event>, m: nat, n: nat) returns (i: nat)
    requires Run(rows, events) && m <= n < |rows| && IsBroad(rows[n])
    ensures m <= i <= n && BroadThroughout(rows, i, n)
    ensures i == m || (!IsBroad(rows[i - 1]) && StoresBroadly(rows, events, i - 1))
  {
    i := BroadStretch(rows, m, n);
    if i > m { TurnedBroad(rows, events, i); }
  }

  /** Under every interleaving a narrow consent stops signing as soon as the row holds an
      any-contract scope, and stays stopped until an event really stores a broad consent. */
  lemma {:induction false} NarrowConsentStops(rows: seq<Row>, events: seq<Event>, m: nat, n: nat)
    requires Run(rows, events) && m <= n < |rows| && !IsBroad(rows[m])
    requires forall i | m <= i < n :: !StoresBroadly(rows, events, i)
    requires CoversAnyContract(rows[n].grants)
    ensures !AuthorizationsEffective(rows[n].consent, rows[n].grants)
  {
    if IsBroad(rows[n]) {
      var i := BroadConsentProvenance(rows, events, m, n);
      assert false;
    }
  }

  /** A stored consent is readable and goes with `canCreateAuthWit`. */
  predicate ConsentOk(row: Row)
  {
    row.consent != Undefined ==> ReadConsent(row.consent).Some? && HoldsCanCreateAuthWit(row.grants)
  }

  lemma ApplyConsentOk(row: Row, d: Decision)
    requires ConsentOk(row) && Apply(row, d).Some?
    ensures ConsentOk(Apply(row, d).value)
  {
  }

  lemma {:induction false} StepConsentOk(rows: seq<Row>, e: Event)
    requires rows != [] && ConsentOk(rows[|rows| - 1])
    requires e.Decide? || e.CloseWindow? ==> e.snapshot < |rows|
    ensures ConsentOk(NextRow(rows, e))
  {
    var now := rows[|rows| - 1];
    if e.Decide? {
      var d := Merge(e.answer, PlanOf(rows, e));
      if d.Some? && Apply(now, d.value).Some? { ApplyConsentOk(now, d.value); }
    } else if e.CloseWindow? {
      var d := RejectAll(PlanOf(rows, e));
      if Apply(now, d).Some? { ApplyConsentOk(now, d); }
    }
  }

  lemma {:induction false} ConsentNeedsAuthWit(rows: seq<Row>, events: seq<Event>, n: nat)
    requires Run(rows, events) && n < |rows| && ConsentOk(rows[0])
    ensures ConsentOk(rows[n])
  {
    if n > 0 {
      ConsentNeedsAuthWit(rows, events, n - 1);
      var before, e := RunStep(rows, events, n);
      StepConsentOk(before, e);
    }
  }

  /** The broad consent in force at row n: stored by event i - 1, and by every row from i to n. */
  ghost predicate BroadSince(rows: seq<Row>, events: seq<Event>, i: nat, n: nat)
    requires Run(rows, events) && n < |rows|
  {
    0 < i <= n && StoresBroadly(rows, events, i - 1) && BroadThroughout(rows, i, n)
  }

  /** Consent safety over whole runs of a fresh session: whenever an intent may sign silently, the
      row holds `canCreateAuthWit`, the call is within a held scope, and either a held pattern
      lists exactly its contract, or a broad consent given with an any-contract scope in view was
      stored and has been kept by every row since. */
  lemma {:induction false} ConsentSafety(rows: seq<Row>, events: seq<Event>, n: nat, intent: Value)
    requires Run(rows, events) && n < |rows|
    requires rows[0].consent == Undefined
    requires IntentCovered(intent, rows[n].grants)
    requires AuthorizationsEffective(rows[n].consent, rows[n].grants)
    ensures HoldsCanCreateAuthWit(rows[n].grants)
    ensures IntentListed(intent, rows[n].grants) || exists i :: BroadSince(rows, events, i, n)
  {
    ConsentNeedsAuthWit(rows, events, n);
    SilentSigningJustified(intent, rows[n].consent, rows[n].grants);
    if IsBroad(rows[n]) {
      var i := BroadConsentProvenance(rows, events, 0, n);
      assert BroadSince(rows, events, i, n);
    }
  }
}
