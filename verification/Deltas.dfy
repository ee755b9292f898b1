/** What a request asks the window for, read off the row and the request: the accounts flags, the
    rejections, the offered accounts; and what a whole approval then gives. */
module Deltas {
  import opened Wrappers
  import opened Text
  import opened Seqs
  import opened Wire
  import opened Capabilities
  import opened Methods
  import opened ScopeCheckers
  import opened Coverage
  import opened Session
  import opened Negotiation
  import opened NegotiationProofs
  import opened Convergence
  import opened Permissions

  // ----- accounts requests -----

  /** The row does what an accounts request asks, no more and no less: it lets accounts be listed
      exactly if that is asked, and authorizations be signed exactly if that is asked. */
  ghost predicate FlagsAgree(r: Capability, grants: seq<Capability>)
    requires r.Accounts?
  {
    && (MayListAccounts(grants) <==> r.canGet == Some(true))
    && (HoldsCanCreateAuthWit(grants) <==> r.canCreateAuthWit == Some(true))
  }

  lemma {:induction false} SoleAccounts(grants: seq<Capability>)
    requires AllWellFormed(grants) && AtMostOnePerType(grants)
    ensures StoredAccounts(grants).Some? <==> exists c | c in grants :: c.Accounts?
    ensures forall c | c in grants && c.Accounts? :: StoredAccounts(grants) == Some(c)
  {
    forall c | c in grants && c.Accounts? ensures StoredAccounts(grants) == Some(c) {
      FirstIsUnique(grants, c);
    }
  }

  /** An accounts request is covered exactly when an accounts grant is held and the row's flags are
      the requested ones: both a missing and a surplus flag ask again. */
  lemma {:induction false} AccountsCoveredExact(r: Capability, grants: seq<Capability>)
    requires r.Accounts? && AllWellFormed(grants) && AtMostOnePerType(grants)
    ensures Covered(r, grants) <==> (exists c | c in grants :: c.Accounts?) && FlagsAgree(r, grants)
  {
    SoleAccounts(grants);
    if c :| c in grants && c.Accounts? {
      assert MayListAccounts(grants) <==> c.canGet == Some(true);
      assert HoldsCanCreateAuthWit(grants) <==> c.canCreateAuthWit == Some(true);
    }
  }

  // ----- what joins the delta -----

  /** Some account of the profile is not held on the chain, spelling aside. */
  predicate LeavesAccountsOut(row: Row, w: Wallet)
  {
    exists a | a in w.profile ::
      forall h | h in SessionAddresses(row.accounts, w.chainId) :: Lower(h) != Lower(a)
  }

  lemma UngrantedExact(row: Row, w: Wallet)
    ensures Ungranted(w.profile, SessionAddresses(row.accounts, w.chainId)) != [] <==> LeavesAccountsOut(row, w)
  {
    var left := Ungranted(w.profile, SessionAddresses(row.accounts, w.chainId));
    if left != [] { assert left[0] in left; }
    if LeavesAccountsOut(row, w) {
      var a :| a in w.profile && forall h | h in SessionAddresses(row.accounts, w.chainId) :: Lower(h) != Lower(a);
      assert a in left;
    }
  }

  /** Why the window is asked about a capability. A request for a type the wallet does not know, or
      for contract classes, asks until it is held and not rejected; an accounts request when a flag
      differs or an account is left out; a contracts request only when it has a flag; the scoped
      types when they are not covered. */
  ghost predicate Asks(c: Capability, row: Row, w: Wallet)
  {
    match c
    case Unknown(tag, _) => tag in row.rejections || forall e | e in row.grants :: TypeOf(e) != tag
    case ContractClasses(_, _) =>
      CONTRACT_CLASSES in row.rejections || forall e | e in row.grants :: !e.ContractClasses?
    case Accounts(_, _, _) =>
      (forall e | e in row.grants :: !e.Accounts?) || !FlagsAgree(c, row.grants) || LeavesAccountsOut(row, w)
    case Contracts(_, register, metadata) =>
      (register == Some(true) || metadata == Some(true)) && !Covered(c, row.grants)
    case _ => !Covered(c, row.grants)
  }

  lemma {:induction false} NeedsWindowExact(c: Capability, row: Row)
    requires WellFormed(c) && ProperRow(row)
    ensures !GrantsNothing(c) && NeedsWindow(c, row) <==>
      match c
      case Accounts(_, _, _) => (forall e | e in row.grants :: !e.Accounts?) || !FlagsAgree(c, row.grants)
      case _ => Asks(c, row, Wallet(0, [], []))
  {
    if c.Accounts? { AccountsCoveredExact(c, row.grants); }
    HeldOfType(row.grants);
  }

  /** The accounts capability the plan widens with, when it does. */
  lemma {:induction false} SoleRequestedAccounts(requested: seq<Capability>, c: Capability)
    requires ProperManifest(requested) && c in requested && c.Accounts?
    ensures FirstOfType(requested, ACCOUNTS) == Some(c)
  {
    var first := FirstOfType(requested, ACCOUNTS);
    OnlyOfKnownType(requested, c, first.value);
  }

  /** The delta holds exactly the requested capabilities there is a reason to ask about. */
  lemma {:induction false} DeltaExact(requested: seq<Capability>, row: Row, w: Wallet, c: Capability)
    requires ProperManifest(requested) && ProperRow(row) && c in requested
    ensures c in MakePlan(requested, row, w).delta <==> Asks(c, row, w)
  {
    NeedsWindowExact(c, row);
    var base := BaseDelta(requested, row);
    assert c in base <==> !GrantsNothing(c) && NeedsWindow(c, row);
    if c.Accounts? {
      WidenedDelta(requested, row, w, c);
    } else {
      OtherDelta(requested, row, w, c);
    }
  }

  lemma {:induction false} OtherDelta(requested: seq<Capability>, row: Row, w: Wallet, c: Capability)
    requires !c.Accounts?
    ensures c in MakePlan(requested, row, w).delta <==> c in BaseDelta(requested, row)
  {
  }

  lemma {:induction false} WidenedDelta(requested: seq<Capability>, row: Row, w: Wallet, c: Capability)
    requires ProperManifest(requested) && ProperRow(row) && c in requested && c.Accounts?
    ensures c in MakePlan(requested, row, w).delta <==> Asks(c, row, w)
  {
    SoleRequestedAccounts(requested, c);
    SoleAccounts(row.grants);
    AccountsCoveredExact(c, row.grants);
    UngrantedExact(row, w);
    var base := BaseDelta(requested, row);
    assert c in base <==> NeedsWindow(c, row);
    if Holds(base, ACCOUNTS) {
      var x :| x in base && TypeOf(x) == ACCOUNTS;
      OnlyOfKnownType(requested, c, x);
    }
  }

  /** The plan of an accounts request widens a stored grant exactly when there is one and the
      request is asked about; it widens membership only exactly when the flags agree already. The
      window is offered the wallet's accounts exactly when the accounts request is asked about. */
  lemma {:induction false} WideningExact(requested: seq<Capability>, row: Row, w: Wallet, c: Capability)
    requires ProperManifest(requested) && ProperRow(row) && c in requested && c.Accounts?
    ensures var plan := MakePlan(requested, row, w);
      && (plan.widening.Some? <==> (exists e | e in row.grants :: e.Accounts?) && c in plan.delta)
      && (plan.widening.Some? ==> (plan.widening.value.membershipOnly <==> FlagsAgree(c, row.grants)))
      && plan.offers == if c in plan.delta then w.offers else []
  {
    SoleRequestedAccounts(requested, c);
    SoleAccounts(row.grants);
    AccountsCoveredExact(c, row.grants);
    var plan := MakePlan(requested, row, w);
    forall x | x in plan.delta && TypeOf(x) == ACCOUNTS ensures x == c {
      PlanFacts(requested, row, w);
      OnlyOfKnownType(requested, c, x);
    }
    assert Holds(plan.delta, ACCOUNTS) <==> c in plan.delta;
  }

  // ----- what a whole approval gives -----

  /** After a whole approval the row has exactly the accounts flags the manifest asks for: accounts
      may be listed, and authorizations asked for, if and only if the manifest said so. */
  lemma {:induction false} ApprovedAccountsFlags(
    requested: seq<Capability>, row: Row, w: Wallet, answer: Answer, r: Capability)
    requires ProperManifest(requested) && ProperRow(row) && r in requested && r.Accounts?
    requires WholeApproval(answer, MakePlan(requested, row, w))
    ensures Merge(answer, MakePlan(requested, row, w)).Some?
    ensures var after := Apply(row, Merge(answer, MakePlan(requested, row, w)).value);
      after.Some? ==>
        && (exists c | c in after.value.grants :: c.Accounts?)
        && FlagsAgree(r, after.value.grants)
  {
    var plan := MakePlan(requested, row, w);
    PlanFacts(requested, row, w);
    DeltaKnownOnce(requested, row, w);
    WholeApprovalSettles(answer, plan);
    var d := Merge(answer, plan).value;
    if Apply(row, d).Some? {
      SettledRow(d, plan, row);
      assert r in Negotiated(requested);
      SettledNeedsNoWindow(requested, row, w, d, r);
      AccountsCoveredExact(r, Apply(row, d).value.grants);
    }
  }
}
