/** Approving a whole delta as requested settles the negotiation: the same manifest asked again
    needs no window. */
module Convergence {
  import opened Wrappers
  import opened Seqs
  import opened Wire
  import opened FieldAddress
  import opened Capabilities
  import opened Methods
  import opened ScopeCheckers
  import opened Coverage
  import opened Session
  import opened Negotiation
  import opened NegotiationProofs

  // ----- coverage is reflexive and local to a type -----

  lemma ScopeCoversItself(s: Scope)
    requires WellFormedScope(s)
    ensures ScopeCovers(s, s)
  {
    if s.Listed? {
      forall rp | rp in s.patterns ensures exists ep | ep in s.patterns :: PatternCovers(ep, rp) {
        assert PatternCovers(rp, rp);
      }
    }
  }

  lemma ListCoversItself(l: AddressList, addr: string)
    requires WellFormedList(l) && (l.Addresses? ==> addr in l.list)
    ensures ListsAddress(l, addr)
  {
    if l.Addresses? {
      assert SameFieldAddress(addr, addr);
    }
  }

  /** A held capability covers the identical request. */
  lemma CoversItself(c: Capability, grants: seq<Capability>)
    requires WellFormed(c) && !c.Unknown? && c in grants
    requires AllWellFormed(grants) && AtMostOnePerType(grants)
    ensures Covered(c, grants)
  {
    match c
    case Accounts(_, _, _) => FirstIsUnique(grants, c);
    case Contracts(l, _, _) =>
      if l.Addresses? {
        forall addr | addr in l.list ensures ListsAddress(l, addr) { ListCoversItself(l, addr); }
      }
    case ContractClasses(_, _) =>
    case Transaction(s) => ScopeCoversItself(s);
    case Simulation(t, u) =>
      if t.Some? { ScopeCoversItself(t.value); }
      if u.Some? { ScopeCoversItself(u.value); }
    case Data(_, e) =>
      if e.Some? && e.value.Addresses? {
        forall addr | addr in e.value.list ensures ListsAddress(e.value, addr) { ListCoversItself(e.value, addr); }
      }
  }

  lemma FirstIsUnique(grants: seq<Capability>, c: Capability)
    requires c in grants && AtMostOnePerType(grants)
    ensures FirstOfType(grants, TypeOf(c)) == Some(c)
  {
    var f := FirstOfType(grants, TypeOf(c)).value;
    var i :| 0 <= i < |grants| && grants[i] == c;
    var j :| 0 <= j < |grants| && grants[j] == f;
    assert i == j;
  }

  ghost predicate SameOfType(a: seq<Capability>, b: seq<Capability>, kind: string)
  {
    forall e | TypeOf(e) == kind :: e in a <==> e in b
  }

  lemma SameFirst(a: seq<Capability>, b: seq<Capability>, kind: string)
    requires SameOfType(a, b, kind) && AtMostOnePerType(a) && AtMostOnePerType(b)
    ensures FirstOfType(a, kind) == FirstOfType(b, kind)
  {
    var fa := FirstOfType(a, kind);
    if fa.Some? {
      FirstIsUnique(a, fa.value);
      FirstIsUnique(b, fa.value);
    }
  }

  /** Coverage reads only the grants of the request's own type. */
  lemma CoveredIsLocal(c: Capability, a: seq<Capability>, b: seq<Capability>)
    requires Covered(c, a) && AllWellFormed(a)
    requires SameOfType(a, b, TypeOf(c)) && AtMostOnePerType(a) && AtMostOnePerType(b)
    ensures Covered(c, b)
  {
    match c
    case Accounts(_, _, _) => SameFirst(a, b, ACCOUNTS);
    case Contracts(_, _, _) =>
      assert forall e | e in a && e.Contracts? :: TypeOf(e) == CONTRACTS && e in b;
    case Transaction(_) =>
      assert forall e | e in a && e.Transaction? :: TypeOf(e) == TRANSACTION && e in b;
    case Simulation(_, _) =>
      assert forall e | e in a && e.Simulation? :: TypeOf(e) == SIMULATION && e in b;
    case Data(_, _) =>
      assert forall e | e in a && e.Data? :: TypeOf(e) == DATA && e in b;
    case ContractClasses(_, _) =>
      var e :| e in a && TypeOf(e) == CONTRACT_CLASSES;
      assert e in b;
    case Unknown(_, _) =>
  }

  // ----- the window approves everything it was asked -----

  /** An answer entry that repeats one of these capabilities unchanged. */
  ghost predicate Echoes(w: WireCap, caps: seq<Capability>)
  {
    exists c | c in caps :: w == Embed(c)
  }

  function HeldWithoutRejection(plan: Plan): seq<Capability>
  {
    Filter(plan.existing, (c: Capability) => TypeOf(c) !in plan.rejected)
  }

  /** Every delta capability is granted as requested, and nothing is answered besides the delta
      and echoes of grants held without a rejection. */
  ghost predicate WholeApproval(answer: Answer, plan: Plan)
  {
    && (forall c | c in plan.delta :: Embed(c) in answer.granted)
    && (forall w | w in answer.granted :: Echoes(w, plan.delta) || Echoes(w, HeldWithoutRejection(plan)))
  }

  lemma EchoTag(w: WireCap, caps: seq<Capability>)
    requires Echoes(w, caps)
    ensures Holds(caps, w.tag)
  {
    var c :| c in caps && w == Embed(c);
    assert TypeOf(c) == w.tag;
  }

  lemma ApprovalNames(answer: Answer, plan: Plan, t: string)
    requires WholeApproval(answer, plan) && Holds(plan.delta, t)
    ensures Names(answer.granted, t)
  {
    var c :| c in plan.delta && TypeOf(c) == t;
    assert Embed(c) in answer.granted && Embed(c).tag == t;
  }

  lemma FirstIsMember(xs: seq<string>)
    ensures xs == [] || xs[0] in xs
  {
  }

  lemma {:induction false} WholeApprovalApproves(answer: Answer, plan: Plan)
    requires WholeApproval(answer, plan)
    ensures EnsureAccounts(answer, plan.delta) == answer.granted
    ensures forall t :: t in DeltaApproved(answer.granted, plan.delta) <==> Holds(plan.delta, t)
    ensures RejectedDelta(answer.granted, plan.delta) == []
  {
    forall t | Holds(plan.delta, t) ensures Names(answer.granted, t) { ApprovalNames(answer, plan, t); }
    var rejected := RejectedDelta(answer.granted, plan.delta);
    FirstIsMember(rejected);
  }

  lemma WholeApprovalAddsNoExtra(answer: Answer, plan: Plan, approved: seq<string>)
    requires WholeApproval(answer, plan)
    requires forall t :: t in approved <==> Holds(plan.delta, t)
    ensures Extras(answer.granted, plan, approved) == Some([])
  {
    forall w | w in answer.granted ensures !IsExtra(w, plan, approved) {
      if Echoes(w, plan.delta) {
        EchoTag(w, plan.delta);
      } else {
        var c :| c in HeldWithoutRejection(plan) && w == Embed(c);
        assert c in plan.existing && TypeOf(c) == w.tag;
      }
    }
    ExtrasNone(answer.granted, plan, approved);
  }

  /** Under a full approval every answer entry of a type is one of the requested capabilities or
      the stored grant. */
  lemma {:induction false} CandidatesOfApproval(results: seq<WireCap>, plan: Plan, kind: string)
    requires AllWellFormed(plan.delta) && AllWellFormed(plan.existing)
    requires forall w | w in results :: Echoes(w, plan.delta) || Echoes(w, HeldWithoutRejection(plan))
    ensures Candidates(results, kind).Some?
    ensures forall c | c in Candidates(results, kind).value ::
              TypeOf(c) == kind && (c in plan.delta || c in plan.existing)
  {
    if results != [] {
      var k := |results| - 1;
      var w := results[k];
      assert w in results && forall x | x in results[..k] :: x in results;
      CandidatesOfApproval(results[..k], plan, kind);
      var caps := if Echoes(w, plan.delta) then plan.delta else HeldWithoutRejection(plan);
      var c :| c in caps && w == Embed(c);
      assert c in plan.delta || c in plan.existing;
      ProjectEmbed(c);
    }
  }

  lemma {:induction false} CandidatesInclude(results: seq<WireCap>, kind: string, c: Capability)
    requires Candidates(results, kind).Some?
    requires WellFormed(c) && TypeOf(c) == kind && Embed(c) in results
    ensures c in Candidates(results, kind).value
  {
    var k := |results| - 1;
    if results[k] == Embed(c) {
      ProjectEmbed(c);
    } else {
      assert results == results[..k] + [results[k]];
      CandidatesInclude(results[..k], kind, c);
    }
  }

  /** Among candidates that are all either `c` or the stored grant, the last changed one is `c`. */
  lemma {:induction false} LastChangedIs(candidates: seq<Capability>, stored: Option<Capability>, c: Capability)
    requires c in candidates && forall x | x in candidates :: x == c || stored == Some(x)
    ensures LastChanged(candidates, stored) == Some(c)
  {
    var changed := Filter(candidates, (x: Capability) => stored != Some(x));
    if changed != [] {
      assert changed[|changed| - 1] in changed;
    } else {
      assert candidates[|candidates| - 1] in candidates;
      assert c !in changed;
    }
  }

  /** The stored record is the requested capability: echoes of the old grant never win. */
  lemma {:induction false} ReplacementIsRequested(answer: Answer, plan: Plan, c: Capability)
    requires AllWellFormed(plan.delta) && AllWellFormed(plan.existing) && AtMostOnePerType(plan.existing)
    requires WholeApproval(answer, plan)
    requires c in plan.delta && forall x | x in plan.delta && TypeOf(x) == TypeOf(c) :: x == c
    ensures Replacement(answer.granted, plan, TypeOf(c)) == Some(c)
  {
    var kind := TypeOf(c);
    CandidatesOfApproval(answer.granted, plan, kind);
    var candidates := Candidates(answer.granted, kind).value;
    var stored := FirstOfType(plan.existing, kind);
    CandidatesInclude(answer.granted, kind, c);
    forall x | x in candidates ensures x == c || stored == Some(x) {
      if x in plan.existing { FirstIsUnique(plan.existing, x); }
    }
    LastChangedIs(candidates, stored, c);
  }

  lemma {:induction false} ReplacementsExist(answer: Answer, plan: Plan, kinds: seq<string>)
    requires AllWellFormed(plan.delta) && AllWellFormed(plan.existing)
    requires WholeApproval(answer, plan)
    requires forall t | t in kinds :: Holds(plan.delta, t)
    ensures Replacements(answer.granted, plan, kinds).Some?
  {
    if kinds != [] {
      var k := |kinds| - 1;
      assert forall t | t in kinds[..k] :: t in kinds;
      assert kinds[k] in kinds;
      ReplacementsExist(answer, plan, kinds[..k]);
      CandidatesOfApproval(answer.granted, plan, kinds[k]);
    }
  }

  // ----- the plan of a projected manifest -----

  /** Requested capabilities come from projection: well-formed, known types once. */
  ghost predicate ProperManifest(requested: seq<Capability>)
  {
    AllWellFormed(requested) && KnownOnce(requested)
  }

  ghost predicate ProperRow(row: Row)
  {
    AllWellFormed(row.grants) && AtMostOnePerType(row.grants)
  }

  lemma OnlyOfKnownType(requested: seq<Capability>, c: Capability, x: Capability)
    requires KnownOnce(requested) && c in requested && x in requested
    requires TypeOf(c) in KNOWN_TYPES && TypeOf(x) == TypeOf(c)
    ensures x == c
  {
    var i :| 0 <= i < |requested| && requested[i] == c;
    var j :| 0 <= j < |requested| && requested[j] == x;
  }

  lemma PlanFacts(requested: seq<Capability>, row: Row, w: Wallet)
    requires ProperManifest(requested)
    ensures var plan := MakePlan(requested, row, w);
      && plan.existing == row.grants && plan.rejected == row.rejections
      && (forall c | c in plan.delta :: c in Negotiated(requested))
      && (forall c | c in Negotiated(requested) && NeedsWindow(c, row) :: c in plan.delta)
      && (forall c | c in plan.delta && !NeedsWindow(c, row) ::
            c.Accounts? && plan.widening.Some? && plan.widening.value.membershipOnly)
  {
  }

  /** A membership-only widening is planned exactly when the stored flags already agree. */
  lemma WideningKind(requested: seq<Capability>, row: Row, w: Wallet, c: Capability)
    requires ProperManifest(requested) && c in requested && c.Accounts?
    ensures var plan := MakePlan(requested, row, w);
      plan.widening.Some? && plan.widening.value.membershipOnly ==> Covered(c, row.grants)
  {
    var accounts := FirstOfType(requested, ACCOUNTS);
    OnlyOfKnownType(requested, c, accounts.value);
  }

  // ----- the row after a full approval -----

  lemma {:induction false} FilterKeepsUnique(caps: seq<Capability>, keep: Capability -> bool)
    requires AtMostOnePerType(caps)
    ensures AtMostOnePerType(Filter(caps, keep))
  {
    if caps != [] {
      assert forall i, j | 0 <= i < j < |caps[1..]| :: caps[1..][i] == caps[i + 1] && caps[1..][j] == caps[j + 1];
      FilterKeepsUnique(caps[1..], keep);
      var rest := Filter(caps[1..], keep);
      forall i | 0 <= i < |rest| ensures TypeOf(rest[i]) != TypeOf(caps[0]) {
        assert rest[i] in rest;
        var j :| 0 <= j < |caps[1..]| && caps[1..][j] == rest[i];
        assert caps[1..][j] == caps[j + 1];
      }
    }
  }

  lemma UniqueConcat(a: seq<Capability>, b: seq<Capability>)
    requires AtMostOnePerType(a) && AtMostOnePerType(b)
    requires forall x, y | x in a && y in b :: TypeOf(x) != TypeOf(y)
    ensures AtMostOnePerType(a + b)
  {
    forall i, j | 0 <= i < j < |a + b| ensures TypeOf((a + b)[i]) != TypeOf((a + b)[j]) {
      if i < |a| && j >= |a| {
        assert a[i] in a && b[j - |a|] in b;
      }
    }
  }

  /** The decision of a full approval: one record per replaced type, being the requested one. */
  ghost predicate Settles(d: Decision, plan: Plan)
  {
    var keep := plan.widening.Some? && plan.widening.value.membershipOnly && Holds(plan.delta, ACCOUNTS);
    && d.rejectedTypes == []
    && (forall t :: t in d.approvedTypes <==> Holds(plan.delta, t))
    && (forall t :: t in d.replaceTypes <==> Holds(plan.delta, t) && !(keep && t == ACCOUNTS))
    && AllWellFormed(d.grantRecords) && AtMostOnePerType(d.grantRecords)
    && (forall t :: Holds(d.grantRecords, t) <==> t in d.replaceTypes)
    && (forall c | c in d.grantRecords && TypeOf(c) in KNOWN_TYPES :: c in plan.delta)
  }

  lemma ReplacementsDistinct(rs: seq<Capability>, kinds: seq<string>)
    requires |rs| == |kinds| && Distinct(kinds) && forall i | 0 <= i < |kinds| :: TypeOf(rs[i]) == kinds[i]
    ensures AtMostOnePerType(rs)
    ensures forall t :: Holds(rs, t) <==> t in kinds
  {
    forall t | t in kinds ensures Holds(rs, t) {
      var i :| 0 <= i < |kinds| && kinds[i] == t;
      assert rs[i] in rs;
    }
    forall t | Holds(rs, t) ensures t in kinds {
      var c :| c in rs && TypeOf(c) == t;
      var i :| 0 <= i < |rs| && rs[i] == c;
      assert kinds[i] == t;
    }
  }

  /** The records left after a kept accounts grant is taken out. */
  lemma RecordsSettle(rs: seq<Capability>, approved: seq<string>, keep: bool)
    requires AllWellFormed(rs) && AtMostOnePerType(rs) && forall t :: Holds(rs, t) <==> t in approved
    ensures AllWellFormed(RecordsOf(rs, keep)) && AtMostOnePerType(RecordsOf(rs, keep))
    ensures forall t :: Holds(RecordsOf(rs, keep), t) <==> t in ReplaceTypesOf(approved, keep)
  {
    FilterKeepsUnique(rs, (c: Capability) => !(keep && TypeOf(c) == ACCOUNTS));
    var records := RecordsOf(rs, keep);
    forall t | t in ReplaceTypesOf(approved, keep) ensures Holds(records, t) {
      var c :| c in rs && TypeOf(c) == t;
      assert c in records;
    }
    forall t | Holds(records, t) ensures t in ReplaceTypesOf(approved, keep) {
      var c :| c in records && TypeOf(c) == t;
      assert c in rs && Holds(rs, t);
    }
  }

  lemma ReplacementsRequested(answer: Answer, plan: Plan, approved: seq<string>, rs: seq<Capability>)
    requires AllWellFormed(plan.delta) && KnownOnce(plan.delta)
    requires AllWellFormed(plan.existing) && AtMostOnePerType(plan.existing)
    requires WholeApproval(answer, plan)
    requires |rs| == |approved| && forall t | t in approved :: Holds(plan.delta, t)
    requires forall i | 0 <= i < |approved| :: Replacement(answer.granted, plan, approved[i]) == Some(rs[i])
    ensures forall c | c in rs && TypeOf(c) in KNOWN_TYPES :: c in plan.delta
  {
    forall c | c in rs && TypeOf(c) in KNOWN_TYPES ensures c in plan.delta {
      var i :| 0 <= i < |rs| && rs[i] == c;
      assert approved[i] in approved;
      ReplacementProper(answer.granted, plan, approved[i]);
      var x :| x in plan.delta && TypeOf(x) == TypeOf(c);
      forall y | y in plan.delta && TypeOf(y) == TypeOf(x) ensures y == x { OnlyOfKnownType(plan.delta, x, y); }
      ReplacementIsRequested(answer, plan, x);
    }
  }

  lemma WholeApprovalSettles(answer: Answer, plan: Plan)
    requires AllWellFormed(plan.delta) && KnownOnce(plan.delta)
    requires AllWellFormed(plan.existing) && AtMostOnePerType(plan.existing)
    requires WholeApproval(answer, plan)
    ensures Merge(answer, plan).Some? && Settles(Merge(answer, plan).value, plan)
  {
    var approved, rs := ApprovalGrants(answer, plan);
    ReplacementsDistinct(rs, approved);
    RecordsSettle(rs, approved, KeepsAccountsGrant(plan, approved));
    ReplacementsRequested(answer, plan, approved, rs);
  }

  /** A full approval rejects nothing and installs one replacement per type of the delta. */
  lemma {:induction false} ApprovalGrants(answer: Answer, plan: Plan)
    returns (approved: seq<string>, rs: seq<Capability>)
    requires AllWellFormed(plan.delta) && AllWellFormed(plan.existing) && WholeApproval(answer, plan)
    ensures EnsureAccounts(answer, plan.delta) == answer.granted
    ensures approved == DeltaApproved(answer.granted, plan.delta) && RejectedDelta(answer.granted, plan.delta) == []
    ensures forall t :: t in approved <==> Holds(plan.delta, t)
    ensures NewGrants(answer.granted, plan, approved) == Some(rs)
    ensures Replacements(answer.granted, plan, approved) == Some(rs)
    ensures AllWellFormed(rs) && AreReplacements(answer.granted, plan, approved, rs)
  {
    WholeApprovalApproves(answer, plan);
    approved := DeltaApproved(answer.granted, plan.delta);
    WholeApprovalAddsNoExtra(answer, plan, approved);
    ReplacementsExist(answer, plan, approved);
    ReplacementsProper(answer.granted, plan, approved);
    rs := Replacements(answer.granted, plan, approved).value;
    assert [] + rs == rs;
  }

  lemma SettledRow(d: Decision, plan: Plan, row: Row)
    requires plan.existing == row.grants && ProperRow(row) && Settles(d, plan)
    requires Apply(row, d).Some?
    ensures ProperRow(Apply(row, d).value)
    ensures forall t | t !in d.replaceTypes :: SameOfType(row.grants, Apply(row, d).value.grants, t)
    ensures forall c | c in d.grantRecords :: c in Apply(row, d).value.grants
    ensures forall t :: t in Apply(row, d).value.rejections <==> t in row.rejections && !Holds(plan.delta, t)
  {
    var keep := (c: Capability) => TypeOf(c) !in d.replaceTypes;
    var kept := Filter(row.grants, keep);
    FilterKeepsUnique(row.grants, keep);
    forall y | y in d.grantRecords ensures TypeOf(y) in d.replaceTypes {
      assert Holds(d.grantRecords, TypeOf(y));
    }
    UniqueConcat(kept, d.grantRecords);
    forall t, e | t !in d.replaceTypes && TypeOf(e) == t
      ensures e in row.grants <==> e in Apply(row, d).value.grants
    {
    }
  }

  /** After a full approval no negotiated capability needs a window. */
  lemma SettledNeedsNoWindow(requested: seq<Capability>, row: Row, w: Wallet, d: Decision, c: Capability)
    requires ProperManifest(requested) && ProperRow(row)
    requires Settles(d, MakePlan(requested, row, w)) && Apply(row, d).Some?
    requires c in Negotiated(requested)
    ensures !NeedsWindow(c, Apply(row, d).value)
  {
    var plan := MakePlan(requested, row, w);
    var row' := Apply(row, d).value;
    PlanFacts(requested, row, w);
    SettledRow(d, plan, row);
    var t := TypeOf(c);
    assert WellFormed(c);
    if t in d.replaceTypes {
      var r :| r in d.grantRecords && TypeOf(r) == t;
      assert r in row'.grants;
      if t in KNOWN_TYPES {
        OnlyOfKnownType(requested, c, r);
        CoversItself(c, row'.grants);
      }
    } else if Holds(plan.delta, t) {
      // the kept accounts grant of a membership-only widening
      WideningKind(requested, row, w, c);
      CoveredIsLocal(c, row.grants, row'.grants);
    } else {
      assert !NeedsWindow(c, row);
      if c.Unknown? || c.ContractClasses? {
        var e :| e in row.grants && TypeOf(e) == t;
        assert e in row'.grants;
      } else {
        CoveredIsLocal(c, row.grants, row'.grants);
      }
    }
  }

  /** Negotiation converges: from a row with at most one grant per type, approving a whole delta
      as requested stores only projected capabilities, keeps at most one grant per type, and the
      same manifest asked again has nothing to negotiate once no profile account is ungranted. */
  lemma NegotiationConverges(requested: seq<Capability>, row: Row, w: Wallet, answer: Answer, later: Wallet)
    requires ProperManifest(requested) && ProperRow(row)
    requires WholeApproval(answer, MakePlan(requested, row, w))
    ensures Merge(answer, MakePlan(requested, row, w)).Some?
    ensures Apply(row, Merge(answer, MakePlan(requested, row, w)).value).None? <==>
            && answer.consent == Bool(true)
            && !Holds(MakePlan(requested, row, w).delta, ACCOUNTS) && !Holds(row.grants, ACCOUNTS)
    ensures var after := Apply(row, Merge(answer, MakePlan(requested, row, w)).value);
      after.Some? ==>
        && ProperRow(after.value)
        && (Ungranted(later.profile, SessionAddresses(after.value.accounts, later.chainId)) == [] ==>
              MakePlan(requested, after.value, later).delta == [])
  {
    var plan := MakePlan(requested, row, w);
    PlanFacts(requested, row, w);
    DeltaKnownOnce(requested, row, w);
    WholeApprovalSettles(answer, plan);
    var d := Merge(answer, plan).value;
    WriterRefusesExactly(answer, requested, row, w);
    if Apply(row, d).Some? {
      var row' := Apply(row, d).value;
      SettledRow(d, plan, row);
      var base := BaseDelta(requested, row');
      if base != [] {
        assert base[0] in base;
        SettledNeedsNoWindow(requested, row, w, d, base[0]);
        assert false;
      }
    }
  }

  /** What an approval gives is what was asked for: after approving a whole delta, every call of a
      scoped type that the manifest alone would permit is permitted by the row, whether its
      capability was newly granted or judged covered by grants the row already held. */
  lemma {:induction false} ApprovedManifestPermits(
    requested: seq<Capability>, row: Row, w: Wallet, answer: Answer, m: Method, args: seq<Value>)
    requires ProperManifest(requested) && ProperRow(row)
    requires WholeApproval(answer, MakePlan(requested, row, w))
    requires RequiredType(m).Some? && RequiredType(m).value in SCOPED_TYPES && Permits(m, args, requested)
    ensures Merge(answer, MakePlan(requested, row, w)).Some?
    ensures Apply(row, Merge(answer, MakePlan(requested, row, w)).value).None? <==>
            && answer.consent == Bool(true)
            && !Holds(MakePlan(requested, row, w).delta, ACCOUNTS) && !Holds(row.grants, ACCOUNTS)
    ensures var after := Apply(row, Merge(answer, MakePlan(requested, row, w)).value);
      after.Some? ==> Permits(m, args, after.value.grants)
  {
    var plan := MakePlan(requested, row, w);
    PlanFacts(requested, row, w);
    DeltaKnownOnce(requested, row, w);
    WholeApprovalSettles(answer, plan);
    var d := Merge(answer, plan).value;
    WriterRefusesExactly(answer, requested, row, w);
    if Apply(row, d).Some? {
      var r := PermittedByOne(m, args, requested);
      PermitsSomething(m, args, r);
      assert r in Negotiated(requested);
      SettledNeedsNoWindow(requested, row, w, d, r);
      CoveredPermits(m, args, r, Apply(row, d).value);
    }
  }

  lemma PermitsSomething(m: Method, args: seq<Value>, r: Capability)
    requires RequiredType(m).Some? && RequiredType(m).value in SCOPED_TYPES && Permits(m, args, [r])
    requires TypeOf(r) == RequiredType(m).value && WellFormed(r)
    ensures !GrantsNothing(r)
  {
    assert forall c :: c in [r] <==> c == r;
  }

  lemma {:induction false} CoveredPermits(m: Method, args: seq<Value>, r: Capability, row: Row)
    requires RequiredType(m).Some? && RequiredType(m).value in SCOPED_TYPES && Permits(m, args, [r])
    requires TypeOf(r) == RequiredType(m).value && WellFormed(r) && !NeedsWindow(r, row)
    ensures Permits(m, args, row.grants)
  {
    assert forall c :: c in [r] <==> c == r;
    CoverageSound(m, args, [r], row.grants);
  }

  lemma {:induction false} FilterKnownOnce(caps: seq<Capability>, keep: Capability -> bool)
    requires KnownOnce(caps)
    ensures KnownOnce(Filter(caps, keep))
  {
    if caps != [] {
      assert forall i, j | 0 <= i < j < |caps[1..]| :: caps[1..][i] == caps[i + 1] && caps[1..][j] == caps[j + 1];
      FilterKnownOnce(caps[1..], keep);
      var rest := Filter(caps[1..], keep);
      forall i | 0 <= i < |rest| && TypeOf(caps[0]) in KNOWN_TYPES ensures TypeOf(rest[i]) != TypeOf(caps[0]) {
        assert rest[i] in rest;
        var j :| 0 <= j < |caps[1..]| && caps[1..][j] == rest[i];
        assert caps[1..][j] == caps[j + 1];
      }
    }
  }

  lemma DeltaKnownOnce(requested: seq<Capability>, row: Row, w: Wallet)
    requires ProperManifest(requested)
    ensures KnownOnce(MakePlan(requested, row, w).delta)
  {
    FilterKnownOnce(requested, (c: Capability) => !GrantsNothing(c));
    FilterKnownOnce(Negotiated(requested), (c: Capability) => NeedsWindow(c, row));
    var base := BaseDelta(requested, row);
    assert forall i | 0 <= i < |base| :: base[i] in base;
  }
}
