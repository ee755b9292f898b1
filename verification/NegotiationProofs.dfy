/** What every window answer respects, and that a full approval settles the request. */
module NegotiationProofs {
  import opened Wrappers
  import opened Text
  import opened Seqs
  import opened Wire
  import opened Capabilities
  import opened ScopeCheckers
  import opened Coverage
  import opened Session
  import opened Negotiation

  // ----- the records of any answer -----

  lemma {:induction false} CandidatesProper(results: seq<WireCap>, kind: string)
    requires Candidates(results, kind).Some?
    ensures forall c | c in Candidates(results, kind).value ::
              WellFormed(c) && TypeOf(c) == kind && exists w | w in results :: w.tag == kind && Project(w) == Some(c)
    ensures Names(results, kind) ==> Candidates(results, kind).value != []
  {
    if results != [] {
      var k := |results| - 1;
      CandidatesProper(results[..k], kind);
      assert results == results[..k] + [results[k]];
      if results[k].tag == kind { ProjectWellFormed(results[k]); }
    }
  }

  lemma ReplacementProper(results: seq<WireCap>, plan: Plan, kind: string)
    requires AllWellFormed(plan.delta)
    requires Replacement(results, plan, kind).Some?
    ensures WellFormed(Replacement(results, plan, kind).value) && TypeOf(Replacement(results, plan, kind).value) == kind
  {
    CandidatesProper(results, kind);
    var candidates := Candidates(results, kind).value;
    var stored := FirstOfType(plan.existing, kind);
    var changed := Filter(candidates, (c: Capability) => stored != Some(c));
    if changed != [] {
      assert changed[|changed| - 1] in changed;
    }
  }

  /** One replacement per type, in order. */
  ghost predicate AreReplacements(results: seq<WireCap>, plan: Plan, kinds: seq<string>, rs: seq<Capability>)
  {
    |rs| == |kinds| &&
    forall i | 0 <= i < |kinds| :: TypeOf(rs[i]) == kinds[i] && Replacement(results, plan, kinds[i]) == Some(rs[i])
  }

  lemma AppendReplacement(
    results: seq<WireCap>, plan: Plan, kinds: seq<string>, rs: seq<Capability>, kind: string, r: Capability)
    requires AreReplacements(results, plan, kinds, rs)
    requires TypeOf(r) == kind && Replacement(results, plan, kind) == Some(r)
    ensures AreReplacements(results, plan, kinds + [kind], rs + [r])
  {
  }

  lemma {:induction false} ReplacementsProper(results: seq<WireCap>, plan: Plan, kinds: seq<string>)
    requires AllWellFormed(plan.delta)
    requires Replacements(results, plan, kinds).Some?
    ensures AllWellFormed(Replacements(results, plan, kinds).value)
    ensures AreReplacements(results, plan, kinds, Replacements(results, plan, kinds).value)
  {
    if kinds != [] {
      var k := |kinds| - 1;
      ReplacementsProper(results, plan, kinds[..k]);
      ReplacementProper(results, plan, kinds[k]);
      var head, r := Replacements(results, plan, kinds[..k]).value, Replacement(results, plan, kinds[k]).value;
      assert kinds == kinds[..k] + [kinds[k]];
      AppendReplacement(results, plan, kinds[..k], head, kinds[k], r);
    }
  }

  lemma {:induction false} ExtrasProper(results: seq<WireCap>, plan: Plan, types: seq<string>)
    requires Extras(results, plan, types).Some?
    ensures forall c | c in Extras(results, plan, types).value ::
              WellFormed(c) && TypeOf(c) !in types && Names(results, TypeOf(c))
  {
    if results != [] {
      var k := |results| - 1;
      ExtrasProper(results[..k], plan, types);
      assert results == results[..k] + [results[k]];
      if IsExtra(results[k], plan, types) { ProjectWellFormed(results[k]); }
    }
  }

  lemma {:induction false} ExtrasNone(results: seq<WireCap>, plan: Plan, types: seq<string>)
    requires forall w | w in results :: !IsExtra(w, plan, types)
    ensures Extras(results, plan, types) == Some([])
  {
    if results != [] {
      var k := |results| - 1;
      assert forall w | w in results[..k] :: w in results;
      ExtrasNone(results[..k], plan, types);
    }
  }

  /** Whatever the window answers, only validated capabilities are stored, each of a type the
      answer names. */
  lemma StoresOnlyProjected(answer: Answer, plan: Plan)
    requires AllWellFormed(plan.delta)
    requires Merge(answer, plan).Some?
    ensures AllWellFormed(Merge(answer, plan).value.grantRecords)
    ensures forall c | c in Merge(answer, plan).value.grantRecords ::
              Names(EnsureAccounts(answer, plan.delta), TypeOf(c))
  {
    var results := EnsureAccounts(answer, plan.delta);
    var approved := DeltaApproved(results, plan.delta);
    ExtrasProper(results, plan, approved);
    ReplacementsProper(results, plan, approved);
    var rs := Replacements(results, plan, approved).value;
    forall c | c in rs ensures WellFormed(c) && Names(results, TypeOf(c)) {
      var i :| 0 <= i < |rs| && rs[i] == c;
      assert approved[i] in approved;
    }
  }

  // ----- approved and rejected types -----

  /** Approved and rejected types partition the types of the delta. */
  lemma AnswerPartitionsDelta(answer: Answer, plan: Plan)
    requires Merge(answer, plan).Some?
    ensures var d := Merge(answer, plan).value;
            forall t :: (Holds(plan.delta, t) <==> t in d.approvedTypes || t in d.rejectedTypes) &&
                        !(t in d.approvedTypes && t in d.rejectedTypes)
  {
  }

  // ----- added accounts -----

  lemma {:induction false} AcceptedOnly(selected: seq<string>, plan: Plan, a: string)
    requires a in Accepted(selected, plan)
    ensures !IsHeld(plan, a) && OfferedAs(plan.offers, Lower(a)) == Some(a)
    ensures exists s | s in selected :: Lower(s) == Lower(a)
  {
    var k := |selected| - 1;
    assert selected[k] in selected;
    if a in Accepted(selected[..k], plan) {
      AcceptedOnly(selected[..k], plan, a);
      var s :| s in selected[..k] && Lower(s) == Lower(a);
      assert s in selected;
    }
  }

  lemma {:induction false} AcceptedAll(selected: seq<string>, plan: Plan, s: string)
    requires s in selected
    requires OfferedAs(plan.offers, Lower(s)).Some? && !IsHeld(plan, OfferedAs(plan.offers, Lower(s)).value)
    ensures OfferedAs(plan.offers, Lower(s)).value in Accepted(selected, plan)
  {
    var k := |selected| - 1;
    if s != selected[k] {
      assert selected == selected[..k] + [selected[k]];
      AcceptedAll(selected[..k], plan, s);
    }
  }

  /** Added accounts are exactly the selected ones the wallet offered and the session does not
      hold, in the wallet's own spelling and each identity once; aliases are written only for
      them. */
  lemma {:induction false} AddsOnlyOfferedAccounts(answer: Answer, plan: Plan)
    requires Merge(answer, plan).Some?
    ensures var d := Merge(answer, plan).value;
      && (forall a | a in d.addAccounts ::
            && (exists o | o in plan.offers :: a == FormatCaip(o.chainId, o.address))
            && !IsHeld(plan, a)
            && (exists s | s in answer.selectedAccounts :: Lower(s) == Lower(a)))
      && (forall s, o | s in answer.selectedAccounts && o in plan.offers && !IsHeld(plan, s)
                        && Lower(s) == Lower(FormatCaip(o.chainId, o.address)) ::
            exists a | a in d.addAccounts :: Lower(a) == Lower(s))
      && (forall a, b | a in d.addAccounts && b in d.addAccounts && Lower(a) == Lower(b) :: a == b)
      && (forall k | k in d.aliasPatch :: k in d.addAccounts)
  {
    var added := AddAccounts(answer, plan);
    forall a | a in added
      ensures !IsHeld(plan, a) && OfferedAs(plan.offers, Lower(a)) == Some(a)
      ensures exists s | s in answer.selectedAccounts :: Lower(s) == Lower(a)
    {
      AcceptedOnly(answer.selectedAccounts, plan, a);
    }
    forall s, o | s in answer.selectedAccounts && o in plan.offers && !IsHeld(plan, s)
                  && Lower(s) == Lower(FormatCaip(o.chainId, o.address))
      ensures exists a | a in added :: Lower(a) == Lower(s)
    {
      OfferedIsAdded(answer, plan, s, o);
    }
    AliasKeys(if answer.selectedAccounts == [] then [] else answer.aliases, added);
  }

  lemma {:induction false} OfferedIsAdded(answer: Answer, plan: Plan, s: string, o: Offer)
    requires s in answer.selectedAccounts && o in plan.offers && !IsHeld(plan, s)
    requires Lower(s) == Lower(FormatCaip(o.chainId, o.address))
    ensures exists a | a in AddAccounts(answer, plan) :: Lower(a) == Lower(s)
  {
    var a := OfferedAs(plan.offers, Lower(s)).value;
    assert !IsHeld(plan, a);
    AcceptedAll(answer.selectedAccounts, plan, s);
    assert a in AddAccounts(answer, plan) && Lower(a) == Lower(s);
  }

  lemma {:induction false} AliasKeys(aliases: seq<(string, string)>, added: seq<string>)
    ensures forall k | k in AliasPatch(aliases, added) :: k in added
  {
    if aliases != [] {
      AliasKeys(aliases[..|aliases| - 1], added);
    }
  }

  // ----- a membership-only widening -----

  function AccountsGrants(caps: seq<Capability>): seq<Capability>
  {
    Filter(caps, (c: Capability) => TypeOf(c) == ACCOUNTS)
  }

  lemma {:induction false} FilterTwice(xs: seq<Capability>, f: Capability -> bool, g: Capability -> bool)
    requires forall x | x in xs && g(x) :: f(x)
    ensures Filter(Filter(xs, f), g) == Filter(xs, g)
  {
    if xs != [] {
      FilterTwice(xs[1..], f, g);
      assert xs[0] in xs;
      if f(xs[0]) {
        var fx := [xs[0]] + Filter(xs[1..], f);
        assert fx[0] == xs[0] && fx[1..] == Filter(xs[1..], f);
      }
    }
  }

  lemma {:induction false} FilterNone(xs: seq<Capability>, f: Capability -> bool)
    requires forall x | x in xs :: !f(x)
    ensures Filter(xs, f) == []
  {
    if xs != [] { FilterNone(xs[1..], f); }
  }

  lemma PlanWideningInDelta(requested: seq<Capability>, row: Row, w: Wallet)
    ensures MakePlan(requested, row, w).widening.Some? ==> Holds(MakePlan(requested, row, w).delta, ACCOUNTS)
  {
  }

  lemma WideningNeedsAccounts(requested: seq<Capability>, row: Row, w: Wallet)
    ensures MakePlan(requested, row, w).widening.Some? ==> Holds(row.grants, ACCOUNTS)
  {
  }

  /** The writer refuses a decision planned against the row it finds exactly when the answer
      consents while neither the delta nor the row holds an accounts grant. */
  lemma WriterRefusesExactly(answer: Answer, requested: seq<Capability>, row: Row, w: Wallet)
    requires Merge(answer, MakePlan(requested, row, w)).Some?
    ensures Apply(row, Merge(answer, MakePlan(requested, row, w)).value).None? <==>
            && answer.consent == Bool(true)
            && !Holds(MakePlan(requested, row, w).delta, ACCOUNTS) && !Holds(row.grants, ACCOUNTS)
  {
    WideningNeedsAccounts(requested, row, w);
  }

  /** Whatever the window answers to a plan that widens membership only, and whatever the row has
      become meanwhile, the stored accounts grant is left as it is. */
  lemma MembershipOnlyKeepsGrant(answer: Answer, plan: Plan, requested: seq<Capability>, base: Row, w: Wallet, row: Row)
    requires plan == MakePlan(requested, base, w) && AllWellFormed(plan.delta)
    requires plan.widening.Some? && plan.widening.value.membershipOnly
    requires Merge(answer, plan).Some? && Apply(row, Merge(answer, plan).value).Some?
    ensures AccountsGrants(Apply(row, Merge(answer, plan).value).value.grants) == AccountsGrants(row.grants)
  {
    PlanWideningInDelta(requested, base, w);
    var d := Merge(answer, plan).value;
    var isAccounts := (c: Capability) => TypeOf(c) == ACCOUNTS;
    StoresOnlyProjected(answer, plan);
    assert forall c | c in d.grantRecords :: !isAccounts(c);
    assert ACCOUNTS !in d.replaceTypes;
    var kept := Filter(row.grants, (c: Capability) => TypeOf(c) !in d.replaceTypes);
    FilterAppend(kept, d.grantRecords, isAccounts);
    FilterNone(d.grantRecords, isAccounts);
    FilterTwice(row.grants, (c: Capability) => TypeOf(c) !in d.replaceTypes, isAccounts);
  }
}
