/** A consent given in the window: when the answer is taken, what it installs, and exactly when the
    consent signs silently at once. Every condition is about the inputs: the stored row, the
    request and the window's answer. */
module FreshConsent {
  import opened Wrappers
  import opened Seqs
  import opened Wire
  import opened FieldAddress
  import opened Capabilities
  import opened ScopeCheckers
  import opened Coverage
  import opened Session
  import opened Negotiation
  import opened NegotiationProofs
  import opened Convergence

  // ----- what an answer does to a type -----

  /** The window approves a type of the delta; selecting accounts approves the accounts type. */
  predicate Approves(answer: Answer, plan: Plan, kind: string)
  {
    Holds(plan.delta, kind) && (Names(answer.granted, kind) || (kind == ACCOUNTS && answer.selectedAccounts != []))
  }

  /** The window answers a type outside the delta that is stored all the same. */
  predicate Adds(answer: Answer, plan: Plan, kind: string)
  {
    && !Holds(plan.delta, kind) && Names(answer.granted, kind)
    && (!Holds(plan.existing, kind) || kind in plan.rejected)
  }

  predicate MembershipOnly(plan: Plan) { plan.widening.Some? && plan.widening.value.membershipOnly }

  /** The stored grants of the type give way to the answered one. */
  predicate Replaces(answer: Answer, plan: Plan, kind: string)
  {
    Approves(answer, plan, kind) && !(kind == ACCOUNTS && MembershipOnly(plan))
  }

  /** The answer installs a capability of the type for which p holds. */
  predicate Installs(answer: Answer, plan: Plan, kind: string, p: Capability -> bool)
  {
    if Replaces(answer, plan, kind) then
      var r := Replacement(EnsureAccounts(answer, plan.delta), plan, kind);
      r.Some? && p(r.value)
    else
      && Adds(answer, plan, kind)
      && exists w | w in answer.granted :: w.tag == kind && Project(w).Some? && p(Project(w).value)
  }

  lemma ResultNames(answer: Answer, plan: Plan, kind: string)
    ensures Approves(answer, plan, kind) <==>
            Holds(plan.delta, kind) && Names(EnsureAccounts(answer, plan.delta), kind)
  {
    var results, asked := EnsureAccounts(answer, plan.delta), FirstOfType(plan.delta, ACCOUNTS);
    if results != answer.granted {
      assert results[|answer.granted|] == Embed(asked.value) && Embed(asked.value).tag == ACCOUNTS;
      assert forall w :: w in results <==> w in answer.granted || w == Embed(asked.value);
    }
  }

  lemma ExtraEntries(answer: Answer, plan: Plan, w: WireCap)
    ensures var results := EnsureAccounts(answer, plan.delta);
      w in results && IsExtra(w, plan, DeltaApproved(results, plan.delta)) <==>
      w in answer.granted && Adds(answer, plan, w.tag)
  {
    var results := EnsureAccounts(answer, plan.delta);
    var asked := FirstOfType(plan.delta, ACCOUNTS);
    assert w in results ==> Names(results, w.tag);
    assert w in answer.granted ==> Names(answer.granted, w.tag);
    if results != answer.granted {
      assert forall x :: x in results <==> x in answer.granted || x == Embed(asked.value);
      assert Embed(asked.value).tag == ACCOUNTS;
    }
  }

  // ----- when an answer is taken -----

  lemma {:induction false} ExtrasExact(results: seq<WireCap>, plan: Plan, types: seq<string>)
    ensures Extras(results, plan, types).Some? <==>
            forall w | w in results && IsExtra(w, plan, types) :: Project(w).Some?
    ensures Extras(results, plan, types).Some? ==>
            forall c :: c in Extras(results, plan, types).value <==>
                        exists w | w in results :: IsExtra(w, plan, types) && Project(w) == Some(c)
  {
    if results != [] {
      var k := |results| - 1;
      assert results == results[..k] + [results[k]];
      ExtrasExact(results[..k], plan, types);
    }
  }

  lemma {:induction false} CandidatesExact(results: seq<WireCap>, kind: string)
    ensures Candidates(results, kind).Some? <==> forall w | w in results && w.tag == kind :: Project(w).Some?
  {
    if results != [] {
      var k := |results| - 1;
      assert results == results[..k] + [results[k]];
      CandidatesExact(results[..k], kind);
    }
  }

  lemma ReplacementExact(results: seq<WireCap>, plan: Plan, kind: string)
    requires Names(results, kind)
    ensures Replacement(results, plan, kind).Some? <==> forall w | w in results && w.tag == kind :: Project(w).Some?
  {
    CandidatesExact(results, kind);
    if Candidates(results, kind).Some? { CandidatesProper(results, kind); }
  }

  lemma {:induction false} ReplacementsExact(results: seq<WireCap>, plan: Plan, kinds: seq<string>)
    ensures Replacements(results, plan, kinds).Some? <==> forall t | t in kinds :: Replacement(results, plan, t).Some?
    ensures Replacements(results, plan, kinds).Some? ==>
            forall c :: c in Replacements(results, plan, kinds).value <==>
                        exists t | t in kinds :: Replacement(results, plan, t) == Some(c)
  {
    if kinds != [] {
      var k := |kinds| - 1;
      assert kinds == kinds[..k] + [kinds[k]];
      ReplacementsExact(results, plan, kinds[..k]);
    }
  }

  /** An entry of the answer that the decision reads: its type is approved or added. */
  predicate IsRead(answer: Answer, plan: Plan, w: WireCap)
  {
    Approves(answer, plan, w.tag) || Adds(answer, plan, w.tag)
  }

  predicate Legible(answer: Answer, plan: Plan)
  {
    forall w | w in answer.granted && IsRead(answer, plan, w) :: Project(w).Some?
  }

  lemma ResultProjects(answer: Answer, plan: Plan, w: WireCap)
    requires AllWellFormed(plan.delta) && w in EnsureAccounts(answer, plan.delta)
    ensures w in answer.granted || Project(w).Some?
  {
    var asked := FirstOfType(plan.delta, ACCOUNTS);
    if w !in answer.granted {
      assert w == Embed(asked.value);
      ProjectEmbed(asked.value);
    }
  }

  lemma GrantedInResults(answer: Answer, plan: Plan, w: WireCap)
    requires w in answer.granted
    ensures w in EnsureAccounts(answer, plan.delta)
  {
  }

  /** The decision exists, instead of an error, exactly when every entry it reads is well-formed. */
  lemma {:induction false} MergedExactly(answer: Answer, plan: Plan)
    requires AllWellFormed(plan.delta)
    ensures Merge(answer, plan).Some? <==> Legible(answer, plan)
  {
    var results := EnsureAccounts(answer, plan.delta);
    var approved := DeltaApproved(results, plan.delta);
    ExtrasExact(results, plan, approved);
    ReplacementsExact(results, plan, approved);
    forall t ensures t in approved <==> Approves(answer, plan, t) { ResultNames(answer, plan, t); }
    forall t | t in approved
      ensures Replacement(results, plan, t).Some? <==> forall w | w in results && w.tag == t :: Project(w).Some?
    {
      ReplacementExact(results, plan, t);
    }
    forall w ensures w in results && IsExtra(w, plan, approved) <==> w in answer.granted && Adds(answer, plan, w.tag) {
      ExtraEntries(answer, plan, w);
    }
    forall w | w in results ensures w in answer.granted || Project(w).Some? { ResultProjects(answer, plan, w); }
    forall w | w in answer.granted ensures w in results { GrantedInResults(answer, plan, w); }
  }

  /** A refusal happens: a session without any grant, asked for a transaction scope, whose window
      approves nothing and consents. */
  lemma {:induction false} ConsentAloneIsRefused(w: Wallet)
    ensures var row := Row([], map[], [], [], Undefined);
      var d := Merge(Answer([], [], [], Bool(true)), MakePlan([Transaction(AnyScope)], row, w));
      d.Some? && Apply(row, d.value).None?
  {
    var row, answer := Row([], map[], [], [], Undefined), Answer([], [], [], Bool(true));
    var requested := [Transaction(AnyScope)];
    var plan := MakePlan(requested, row, w);
    PlanFacts(requested, row, w);
    assert forall c | c in plan.delta :: c == Transaction(AnyScope);
    MergedExactly(answer, plan);
    WriterRefusesExactly(answer, requested, row, w);
  }

  // ----- what a decision installs -----

  ghost predicate HoldsSome(caps: seq<Capability>, kind: string, p: Capability -> bool)
  {
    exists c | c in caps :: TypeOf(c) == kind && p(c)
  }

  lemma {:induction false} NewGrantsOf(answer: Answer, plan: Plan, c: Capability)
    requires AllWellFormed(plan.delta) && Merge(answer, plan).Some?
    ensures var results := EnsureAccounts(answer, plan.delta);
      c in NewGrants(results, plan, DeltaApproved(results, plan.delta)).value <==>
        || (&& Adds(answer, plan, TypeOf(c))
            && exists w | w in answer.granted :: w.tag == TypeOf(c) && Project(w) == Some(c))
        || (Approves(answer, plan, TypeOf(c)) && Replacement(results, plan, TypeOf(c)) == Some(c))
  {
    var results := EnsureAccounts(answer, plan.delta);
    var approved := DeltaApproved(results, plan.delta);
    ExtrasExact(results, plan, approved);
    ReplacementsExact(results, plan, approved);
    forall w ensures w in results && IsExtra(w, plan, approved) <==> w in answer.granted && Adds(answer, plan, w.tag) {
      ExtraEntries(answer, plan, w);
    }
    forall w | Project(w) == Some(c) ensures w.tag == TypeOf(c) { ProjectWellFormed(w); }
    forall t | t in approved && Replacement(results, plan, t) == Some(c) ensures t == TypeOf(c) {
      ReplacementProper(results, plan, t);
    }
    ResultNames(answer, plan, TypeOf(c));
  }

  /** The records of a type are the chosen replacement when the type is replaced, and all the
      answered entries when it is only added. */
  lemma {:induction false} RecordsInstall(answer: Answer, plan: Plan, kind: string, p: Capability -> bool)
    requires AllWellFormed(plan.delta) && Merge(answer, plan).Some?
    ensures HoldsSome(Merge(answer, plan).value.grantRecords, kind, p) <==> Installs(answer, plan, kind, p)
  {
    var results := EnsureAccounts(answer, plan.delta);
    var approved := DeltaApproved(results, plan.delta);
    var grants := NewGrants(results, plan, approved).value;
    var records := Merge(answer, plan).value.grantRecords;
    ResultNames(answer, plan, ACCOUNTS);
    assert KeepsAccountsGrant(plan, approved) <==> MembershipOnly(plan) && Approves(answer, plan, ACCOUNTS);
    forall c | TypeOf(c) == kind
      ensures c in records <==> c in grants && !(kind == ACCOUNTS && KeepsAccountsGrant(plan, approved))
    {
    }
    forall c | TypeOf(c) == kind ensures c in grants <==>
        || (Adds(answer, plan, kind) && exists w | w in answer.granted :: w.tag == kind && Project(w) == Some(c))
        || (Approves(answer, plan, kind) && Replacement(results, plan, kind) == Some(c))
    {
      NewGrantsOf(answer, plan, c);
    }
    if Replaces(answer, plan, kind) {
      var r := Replacement(results, plan, kind);
      if r.Some? { ReplacementProper(results, plan, kind); }
    } else if Adds(answer, plan, kind) {
      forall w | w in answer.granted && w.tag == kind && Project(w).Some? ensures TypeOf(Project(w).value) == kind {
        ProjectWellFormed(w);
      }
    }
  }

  // ----- when the consent takes effect -----

  function CanSign(): Capability -> bool
  {
    (c: Capability) => c.Accounts? && On(c.canCreateAuthWit)
  }

  function Reaches(): Capability -> bool
  {
    (c: Capability) => ReachesAnyContract(c)
  }

  /** The row will hold `canCreateAuthWit`. */
  predicate Signs(answer: Answer, plan: Plan)
  {
    || Installs(answer, plan, ACCOUNTS, CanSign())
    || (HoldsCanCreateAuthWit(plan.existing) && !Replaces(answer, plan, ACCOUNTS))
  }

  const SCOPE_TYPES: set<string> := {TRANSACTION, SIMULATION}

  /** The consent is asked for with an any-contract scope in view: an installed one, or a stored
      one of a type the answer leaves alone. */
  predicate ShowsAnyContract(answer: Answer, plan: Plan)
  {
    exists kind | kind in SCOPE_TYPES ::
      || Installs(answer, plan, kind, Reaches())
      || (&& !Approves(answer, plan, kind) && !Adds(answer, plan, kind)
          && exists c | c in plan.existing :: TypeOf(c) == kind && ReachesAnyContract(c))
  }

  /** A stored any-contract grant that the answer neither replaces nor shows: its type carries a
      rejection, is outside the delta, and the window answers it all the same. */
  predicate HidesAnyContract(answer: Answer, plan: Plan)
  {
    exists c | c in plan.existing ::
      && ReachesAnyContract(c)
      && TypeOf(c) in plan.rejected && !Holds(plan.delta, TypeOf(c)) && Names(answer.granted, TypeOf(c))
  }

  lemma AfterSigns(row: Row, d: Decision)
    requires Apply(row, d).Some?
    ensures HoldsCanCreateAuthWit(Apply(row, d).value.grants) <==>
            || HoldsSome(d.grantRecords, ACCOUNTS, CanSign())
            || (HoldsCanCreateAuthWit(row.grants) && ACCOUNTS !in d.replaceTypes)
  {
    var kept := Filter(row.grants, (c: Capability) => TypeOf(c) !in d.replaceTypes);
    assert Apply(row, d).value.grants == kept + d.grantRecords;
    assert forall c :: c in kept + d.grantRecords <==> c in kept || c in d.grantRecords;
  }

  /** A stored grant that the records hide from the consent's view without replacing it. */
  predicate HiddenFromView(c: Capability, d: Decision)
  {
    TypeOf(c) !in d.replaceTypes && Holds(d.grantRecords, TypeOf(c))
  }

  lemma {:induction false} ConsentCore(row: Row, d: Decision)
    requires d.authorizations == SetConsent(CoversAnyContract(EffectiveGrants(row.grants, d.grantRecords)))
    requires Apply(row, d).Some?
    ensures var after := Apply(row, d).value;
      AuthorizationsEffective(after.consent, after.grants) <==>
        && HoldsCanCreateAuthWit(after.grants)
        && (CoversAnyContract(EffectiveGrants(row.grants, d.grantRecords)) ||
            !exists c | c in row.grants :: ReachesAnyContract(c) && HiddenFromView(c, d))
  {
    var viewed := CoversAnyContract(EffectiveGrants(row.grants, d.grantRecords));
    AppliedAuthorizations(row, d, viewed);
    if !viewed { UnviewedReaches(row, d); }
  }

  lemma AppliedAuthorizations(row: Row, d: Decision, broad: bool)
    requires d.authorizations == SetConsent(broad) && Apply(row, d).Some?
    ensures var after := Apply(row, d).value;
      AuthorizationsEffective(after.consent, after.grants) <==>
        HoldsCanCreateAuthWit(after.grants) && (broad || !CoversAnyContract(after.grants))
  {
    assert ReadConsent(ConsentValue(broad)) == Some(broad) && ReadConsent(Undefined).None?;
  }

  /** With no any-contract scope in view, the written row reaches any contract exactly through a
      hidden grant. */
  lemma {:induction false} UnviewedReaches(row: Row, d: Decision)
    requires Apply(row, d).Some? && !CoversAnyContract(EffectiveGrants(row.grants, d.grantRecords))
    ensures CoversAnyContract(Apply(row, d).value.grants) <==>
            exists c | c in row.grants :: ReachesAnyContract(c) && HiddenFromView(c, d)
  {
    AfterReaches(row, d);
    InView(row.grants, d.grantRecords);
    forall c | c in row.grants && ReachesAnyContract(c) ensures Holds(d.grantRecords, TypeOf(c)) {
    }
  }

  lemma {:induction false} AfterReaches(row: Row, d: Decision)
    requires Apply(row, d).Some?
    ensures CoversAnyContract(Apply(row, d).value.grants) <==>
            || CoversAnyContract(d.grantRecords)
            || exists c | c in row.grants :: ReachesAnyContract(c) && TypeOf(c) !in d.replaceTypes
  {
    var kept := Filter(row.grants, (c: Capability) => TypeOf(c) !in d.replaceTypes);
    assert Apply(row, d).value.grants == kept + d.grantRecords;
    assert forall c :: c in kept + d.grantRecords <==> c in kept || c in d.grantRecords;
  }

  lemma InView(existing: seq<Capability>, records: seq<Capability>)
    ensures forall c :: c in EffectiveGrants(existing, records) <==>
                        c in records || (c in existing && !Holds(records, TypeOf(c)))
  {
    var kept := Filter(existing, (c: Capability) => !Holds(records, TypeOf(c)));
    assert forall c :: c in kept + records <==> c in kept || c in records;
  }

  lemma ReachingType(c: Capability)
    requires ReachesAnyContract(c)
    ensures TypeOf(c) in SCOPE_TYPES && TypeOf(c) != ACCOUNTS
  {
  }

  /** Which types the decision's records and replacements cover. */
  lemma {:induction false} DecisionTypes(answer: Answer, plan: Plan, kind: string)
    requires AllWellFormed(plan.delta) && Merge(answer, plan).Some? && kind != ACCOUNTS
    ensures var d := Merge(answer, plan).value;
      && (Holds(d.grantRecords, kind) <==> Approves(answer, plan, kind) || Adds(answer, plan, kind))
      && (kind in d.replaceTypes <==> Approves(answer, plan, kind))
  {
    var any := (_: Capability) => true;
    RecordsInstall(answer, plan, kind, any);
    var records := Merge(answer, plan).value.grantRecords;
    assert HoldsSome(records, kind, any) <==> Holds(records, kind);
    ResultNames(answer, plan, kind);
    MergedExactly(answer, plan);
    if Approves(answer, plan, kind) {
      var results := EnsureAccounts(answer, plan.delta);
      ReplacementsExact(results, plan, DeltaApproved(results, plan.delta));
    }
    if Adds(answer, plan, kind) {
      var w :| w in answer.granted && w.tag == kind;
      assert IsRead(answer, plan, w);
    }
  }

  lemma AccountsReplaced(answer: Answer, plan: Plan)
    requires Merge(answer, plan).Some?
    ensures ACCOUNTS in Merge(answer, plan).value.replaceTypes <==> Replaces(answer, plan, ACCOUNTS)
  {
    ResultNames(answer, plan, ACCOUNTS);
  }

  lemma {:induction false} ViewExact(answer: Answer, plan: Plan)
    requires AllWellFormed(plan.delta) && Merge(answer, plan).Some?
    ensures CoversAnyContract(EffectiveGrants(plan.existing, Merge(answer, plan).value.grantRecords)) <==>
            ShowsAnyContract(answer, plan)
  {
    var records := Merge(answer, plan).value.grantRecords;
    var view := EffectiveGrants(plan.existing, records);
    InView(plan.existing, records);
    forall kind | kind in SCOPE_TYPES
      ensures HoldsSome(records, kind, Reaches()) <==> Installs(answer, plan, kind, Reaches())
      ensures Holds(records, kind) <==> Approves(answer, plan, kind) || Adds(answer, plan, kind)
    {
      RecordsInstall(answer, plan, kind, Reaches());
      DecisionTypes(answer, plan, kind);
    }
    if CoversAnyContract(view) {
      var c :| c in view && ReachesAnyContract(c);
      ReachingType(c);
      assert c in records ==> HoldsSome(records, TypeOf(c), Reaches());
    }
    if ShowsAnyContract(answer, plan) {
      var kind :| kind in SCOPE_TYPES &&
        (Installs(answer, plan, kind, Reaches()) ||
         (!Approves(answer, plan, kind) && !Adds(answer, plan, kind) &&
          exists c | c in plan.existing :: TypeOf(c) == kind && ReachesAnyContract(c)));
      if Installs(answer, plan, kind, Reaches()) {
        var c :| c in records && TypeOf(c) == kind && Reaches()(c);
        assert c in view && ReachesAnyContract(c);
      } else {
        var c :| c in plan.existing && TypeOf(c) == kind && ReachesAnyContract(c);
        assert c in view;
      }
    }
  }

  lemma {:induction false} HiddenExact(answer: Answer, plan: Plan)
    requires AllWellFormed(plan.delta) && Merge(answer, plan).Some?
    ensures HidesAnyContract(answer, plan) <==>
            exists c | c in plan.existing :: ReachesAnyContract(c) && HiddenFromView(c, Merge(answer, plan).value)
  {
    var d := Merge(answer, plan).value;
    forall c | c in plan.existing && ReachesAnyContract(c)
      ensures HiddenFromView(c, d) <==>
              TypeOf(c) in plan.rejected && !Holds(plan.delta, TypeOf(c)) && Names(answer.granted, TypeOf(c))
    {
      ReachingType(c);
      DecisionTypes(answer, plan, TypeOf(c));
      assert Holds(plan.existing, TypeOf(c));
    }
  }

  /** The answer is taken, the row is written, and the consent signs from then on. */
  predicate TakesEffect(answer: Answer, plan: Plan, row: Row)
  {
    var d := Merge(answer, plan);
    d.Some? && var after := Apply(row, d.value);
    after.Some? && AuthorizationsEffective(after.value.consent, after.value.grants)
  }

  /** With no write in between, a consent given in the window is effective at once exactly when the
      answer is legible, an accounts grant is asked for or held, the row will hold
      `canCreateAuthWit`, and no stored any-contract grant is hidden unless another is shown. */
  lemma {:induction false} FreshConsentExact(answer: Answer, requested: seq<Capability>, row: Row, w: Wallet)
    requires answer.consent == Bool(true) && ProperManifest(requested)
    ensures var plan := MakePlan(requested, row, w);
      TakesEffect(answer, plan, row) <==>
        && Legible(answer, plan)
        && (Holds(plan.delta, ACCOUNTS) || Holds(row.grants, ACCOUNTS))
        && Signs(answer, plan)
        && (ShowsAnyContract(answer, plan) || !HidesAnyContract(answer, plan))
  {
    var plan := MakePlan(requested, row, w);
    PlanFacts(requested, row, w);
    MergedExactly(answer, plan);
    if Legible(answer, plan) {
      var d := Merge(answer, plan).value;
      WriterRefusesExactly(answer, requested, row, w);
      if Apply(row, d).Some? {
        ConsentCore(row, d);
        AfterSigns(row, d);
        RecordsInstall(answer, plan, ACCOUNTS, CanSign());
        AccountsReplaced(answer, plan);
        ViewExact(answer, plan);
        HiddenExact(answer, plan);
      }
    }
  }

  /** Answers that name only delta types and grants held without a rejection. */
  predicate AnswersDeltaAndEchoes(answer: Answer, plan: Plan)
  {
    forall w | w in answer.granted ::
      Holds(plan.delta, w.tag) || (Holds(plan.existing, w.tag) && w.tag !in plan.rejected)
  }

  /** Such an answer hides nothing: its consent is effective at once whenever the answer is taken
      and the row will hold `canCreateAuthWit`. */
  lemma {:induction false} FreshConsentEffective(answer: Answer, requested: seq<Capability>, row: Row, w: Wallet)
    requires answer.consent == Bool(true) && ProperManifest(requested)
    requires AnswersDeltaAndEchoes(answer, MakePlan(requested, row, w))
    ensures var plan := MakePlan(requested, row, w);
      TakesEffect(answer, plan, row) <==>
        && Legible(answer, plan)
        && (Holds(plan.delta, ACCOUNTS) || Holds(row.grants, ACCOUNTS))
        && Signs(answer, plan)
  {
    FreshConsentExact(answer, requested, row, w);
    assert !HidesAnyContract(answer, MakePlan(requested, row, w));
  }

  // ----- a consent that does not take effect -----

  /** A session that may send f to any contract, with a later transaction request rejected. */
  function RejectedRow(f: string): Row
  {
    Row([], map[], [Accounts(Some(true), Some(true), None), Transaction(Listed([ScopePattern("*", f)]))],
        [TRANSACTION], Undefined)
  }

  const ASKS_BOOK: Capability := Data(Some(true), None)

  /** The window approves the data request, adds a transaction grant for one contract, and consents. */
  function NarrowerAnswer(address: string, f: string): Answer
  {
    Answer([Embed(ASKS_BOOK), Embed(Transaction(Listed([ScopePattern(address, f)])))], [], [], Bool(true))
  }

  lemma RejectedPlan(f: string, w: Wallet)
    ensures MakePlan([ASKS_BOOK], RejectedRow(f), w).delta == [ASKS_BOOK]
    ensures MakePlan([ASKS_BOOK], RejectedRow(f), w).widening.None?
  {
    var row := RejectedRow(f);
    assert !GrantsNothing(ASKS_BOOK) && NeedsWindow(ASKS_BOOK, row);
    FilterCons(ASKS_BOOK, [], (c: Capability) => !GrantsNothing(c));
    FilterCons(ASKS_BOOK, [], (c: Capability) => NeedsWindow(c, row));
    assert [ASKS_BOOK] + [] == [ASKS_BOOK];
    assert Negotiated([ASKS_BOOK]) == [ASKS_BOOK];
    assert BaseDelta([ASKS_BOOK], row) == [ASKS_BOOK];
    assert FirstOfType([ASKS_BOOK], ACCOUNTS).None?;
  }

  ghost predicate IsRejectedPlan(plan: Plan, f: string)
  {
    plan.existing == RejectedRow(f).grants && plan.rejected == [TRANSACTION] && plan.delta == [ASKS_BOOK]
  }

  lemma RejectedGrants(f: string)
    ensures var grants := RejectedRow(f).grants;
      && HoldsCanCreateAuthWit(grants) && Holds(grants, ACCOUNTS) && Holds(grants, TRANSACTION)
      && (forall c | c in grants :: c == grants[0] || c == grants[1])
      && !Holds(grants, SIMULATION) && grants[1] in grants && ReachesAnyContract(grants[1])
  {
    var grants := RejectedRow(f).grants;
    assert grants[0] in grants && grants[1] in grants;
    assert ScopePattern("*", f) in [ScopePattern("*", f)];
  }

  lemma AnswerNames(address: string, f: string, kind: string)
    ensures Names(NarrowerAnswer(address, f).granted, kind) <==> kind == DATA || kind == TRANSACTION
  {
    var granted := NarrowerAnswer(address, f).granted;
    assert granted[0].tag == DATA && granted[1].tag == TRANSACTION;
    assert forall w | w in granted :: w == granted[0] || w == granted[1];
  }

  lemma NarrowReach(address: string, f: string)
    requires IsFieldAddress(address)
    ensures !ReachesAnyContract(Transaction(Listed([ScopePattern(address, f)])))
  {
    assert address != "*";
    assert forall p | p in [ScopePattern(address, f)] :: p.contract == address;
  }

  lemma {:induction false} AnswerTypes(address: string, f: string, plan: Plan)
    requires IsRejectedPlan(plan, f)
    ensures var answer := NarrowerAnswer(address, f);
      && Adds(answer, plan, TRANSACTION) && !Approves(answer, plan, TRANSACTION)
      && !Adds(answer, plan, SIMULATION) && !Approves(answer, plan, SIMULATION)
      && !Approves(answer, plan, ACCOUNTS) && !Adds(answer, plan, ACCOUNTS)
  {
    AnswerNames(address, f, TRANSACTION);
    AnswerNames(address, f, SIMULATION);
    AnswerNames(address, f, ACCOUNTS);
    assert forall c | c in plan.delta :: c == ASKS_BOOK;
  }

  lemma {:induction false} NarrowInstallsNothingWide(address: string, f: string, plan: Plan)
    requires IsFieldAddress(address) && f != "" && IsRejectedPlan(plan, f)
    ensures !Installs(NarrowerAnswer(address, f), plan, TRANSACTION, Reaches())
  {
    var answer, narrow := NarrowerAnswer(address, f), Transaction(Listed([ScopePattern(address, f)]));
    AnswerTypes(address, f, plan);
    NarrowReach(address, f);
    ProjectEmbed(narrow);
    assert forall w | w in answer.granted && w.tag == TRANSACTION :: w == Embed(narrow);
  }

  lemma {:induction false} NarrowAnswerShowsNothing(address: string, f: string, plan: Plan)
    requires IsFieldAddress(address) && f != "" && IsRejectedPlan(plan, f)
    ensures !ShowsAnyContract(NarrowerAnswer(address, f), plan)
  {
    AnswerTypes(address, f, plan);
    RejectedGrants(f);
    NarrowInstallsNothingWide(address, f, plan);
    assert !Installs(NarrowerAnswer(address, f), plan, SIMULATION, Reaches());
  }

  lemma {:induction false} NarrowAnswerHides(address: string, f: string, plan: Plan)
    requires IsRejectedPlan(plan, f)
    ensures HidesAnyContract(NarrowerAnswer(address, f), plan)
  {
    RejectedGrants(f);
    AnswerNames(address, f, TRANSACTION);
    assert !Holds(plan.delta, TRANSACTION);
  }

  lemma {:induction false} NarrowAnswerIsTaken(address: string, f: string, plan: Plan)
    requires IsFieldAddress(address) && f != "" && IsRejectedPlan(plan, f)
    ensures Legible(NarrowerAnswer(address, f), plan) && Signs(NarrowerAnswer(address, f), plan)
  {
    var granted := NarrowerAnswer(address, f).granted;
    AnswerTypes(address, f, plan);
    RejectedGrants(f);
    ProjectEmbed(ASKS_BOOK);
    ProjectEmbed(Transaction(Listed([ScopePattern(address, f)])));
    assert forall w | w in granted :: w == granted[0] || w == granted[1];
  }

  /** The failing family is inhabited: the answer is taken and written and the row holds
      `canCreateAuthWit`, yet the consent just given signs nothing. */
  lemma {:induction false} HiddenConsentFails(address: string, f: string, w: Wallet)
    requires IsFieldAddress(address) && f != ""
    ensures var plan, answer := MakePlan([ASKS_BOOK], RejectedRow(f), w), NarrowerAnswer(address, f);
      && Legible(answer, plan) && Signs(answer, plan) && Holds(RejectedRow(f).grants, ACCOUNTS)
      && HidesAnyContract(answer, plan) && !ShowsAnyContract(answer, plan)
      && !TakesEffect(answer, plan, RejectedRow(f))
  {
    var plan := MakePlan([ASKS_BOOK], RejectedRow(f), w);
    RejectedPlan(f, w);
    PlanFacts([ASKS_BOOK], RejectedRow(f), w);
    RejectedGrants(f);
    NarrowAnswerShowsNothing(address, f, plan);
    NarrowAnswerHides(address, f, plan);
    NarrowAnswerIsTaken(address, f, plan);
    FreshConsentExact(NarrowerAnswer(address, f), [ASKS_BOOK], RejectedRow(f), w);
  }
}
