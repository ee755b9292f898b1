/** One capability request: the delta to negotiate, and the decision a window answer folds into
    (`computeCapabilityDelta` to `collectNewGrants` of packages/wallet-bridge/src/dispatcher.ts). */
module Negotiation {
  import opened Wrappers
  import opened Text
  import opened Seqs
  import opened Wire
  import opened Capabilities
  import opened ScopeCheckers
  import opened Coverage
  import opened Session

  // ----- the requested manifest -----

  /** `projectRequestedCapabilities`, as a specification: every entry projects, and no known type
      is named twice. */
  function ProjectAll(caps: seq<WireCap>): Option<seq<Capability>>
  {
    if caps == [] then Some([])
    else
      var k := |caps| - 1;
      var head :- ProjectAll(caps[..k]);
      var c :- Project(caps[k]);
      if TypeOf(c) in KNOWN_TYPES && Holds(head, TypeOf(c)) then None else Some(head + [c])
  }

  method ProjectRequested(caps: seq<WireCap>) returns (r: Option<seq<Capability>>)
    ensures r == ProjectAll(caps)
  {
    var out: seq<Capability> := [];
    var seen: set<string> := {};
    for i := 0 to |caps|
      invariant ProjectAll(caps[..i]) == Some(out)
      invariant forall t :: t in seen <==> t in KNOWN_TYPES && Holds(out, t)
    {
      ProjectStep(caps, i, out);
      var projected := Project(caps[i]);
      if projected.None? {
        FailsFrom(caps, i + 1);
        return None;
      }
      var kind := TypeOf(projected.value);
      if kind in seen {
        FailsFrom(caps, i + 1);
        return None;
      }
      HoldsAppend(out, projected.value);
      if kind in KNOWN_TYPES { seen := seen + {kind}; }
      out := out + [projected.value];
    }
    assert caps[..|caps|] == caps;
    return Some(out);
  }

  lemma {:induction false} ProjectStep(caps: seq<WireCap>, i: nat, out: seq<Capability>)
    requires i < |caps| && ProjectAll(caps[..i]) == Some(out)
    ensures var c := Project(caps[i]);
      ProjectAll(caps[..i + 1]) ==
        if c.None? || (TypeOf(c.value) in KNOWN_TYPES && Holds(out, TypeOf(c.value))) then None
        else Some(out + [c.value])
  {
    assert caps[..i + 1][..i] == caps[..i];
  }

  lemma HoldsAppend(caps: seq<Capability>, c: Capability)
    ensures forall t :: Holds(caps + [c], t) <==> Holds(caps, t) || TypeOf(c) == t
  {
    assert (caps + [c])[|caps|] == c;
    assert forall x :: x in caps + [c] <==> x in caps || x == c;
  }

  /** What a manifest negotiates: well-formed capabilities, at most one per known type. */
  lemma {:induction false} ProjectAllProper(caps: seq<WireCap>)
    requires ProjectAll(caps).Some?
    ensures |ProjectAll(caps).value| == |caps|
    ensures forall c | c in ProjectAll(caps).value :: WellFormed(c)
    ensures KnownOnce(ProjectAll(caps).value)
  {
    if caps != [] {
      var k := |caps| - 1;
      ProjectAllProper(caps[..k]);
      ProjectWellFormed(caps[k]);
      var head := ProjectAll(caps[..k]).value;
      assert forall i | 0 <= i < |head| :: head[i] in head;
    }
  }

  predicate KnownOnce(caps: seq<Capability>)
  {
    forall i, j | 0 <= i < j < |caps| && TypeOf(caps[i]) in KNOWN_TYPES :: TypeOf(caps[i]) != TypeOf(caps[j])
  }

  lemma {:induction false} FailsFrom(caps: seq<WireCap>, k: nat)
    requires k <= |caps| && ProjectAll(caps[..k]).None?
    ensures ProjectAll(caps).None?
    decreases |caps| - k
  {
    if k < |caps| {
      assert caps[..k + 1][..k] == caps[..k];
      FailsFrom(caps, k + 1);
    } else {
      assert caps[..k] == caps;
    }
  }

  /** A contracts permission with neither flag is answered as asked and never negotiated. */
  predicate GrantsNothing(c: Capability)
  {
    c.Contracts? && !On(c.canRegister) && !On(c.canGetMetadata)
  }

  // ----- the plan -----

  datatype Offer = Offer(address: string, chainId: nat)

  datatype Widening = Widening(granted: set<string>, membershipOnly: bool)

  datatype Plan = Plan(
    existing: seq<Capability>,
    rejected: seq<string>,
    delta: seq<Capability>,
    sessionAccounts: set<string>,
    offers: seq<Offer>,
    widening: Option<Widening>)

  /** Whether a requested capability joins the delta. */
  predicate NeedsWindow(c: Capability, row: Row)
  {
    if c.Unknown? then TypeOf(c) in row.rejections || !Holds(row.grants, TypeOf(c))
    else (c.ContractClasses? && CONTRACT_CLASSES in row.rejections) || !Covered(c, row.grants)
  }

  function Negotiated(requested: seq<Capability>): seq<Capability>
  {
    Filter(requested, (c: Capability) => !GrantsNothing(c))
  }

  function BaseDelta(requested: seq<Capability>, row: Row): seq<Capability>
  {
    Filter(Negotiated(requested), (c: Capability) => NeedsWindow(c, row))
  }

  /** Profile accounts the session does not hold on this chain, compared without case. */
  function Ungranted(profile: seq<string>, held: set<string>): seq<string>
  {
    Filter(profile, (a: string) => forall h | h in held :: Lower(h) != Lower(a))
  }

  function Widen(plan: Plan, requested: Capability, held: set<string>, ungranted: seq<string>): Plan
    requires requested.Accounts?
  {
    var stored := StoredAccounts(plan.existing);
    if stored.None? then plan
    else
      var membershipOnly := AccountsEqual(stored.value, requested);
      var delta :=
        if membershipOnly && ungranted != [] && !Holds(plan.delta, ACCOUNTS) then plan.delta + [requested]
        else plan.delta;
      plan.(delta := delta,
            widening := if Holds(delta, ACCOUNTS) then Some(Widening(held, membershipOnly)) else None)
  }

  /** The wallet's side of one request: its chain, the profile's accounts when the plan is made,
      and the rows the picker offers. */
  datatype Wallet = Wallet(chainId: nat, profile: seq<string>, offers: seq<Offer>)

  function MakePlan(requested: seq<Capability>, row: Row, w: Wallet): Plan
  {
    var base := Plan(row.grants, row.rejections, BaseDelta(requested, row), SessionAccountsOf(row.accounts), [], None);
    var accounts := FirstOfType(requested, ACCOUNTS);
    var widened :=
      if accounts.Some? && accounts.value.Accounts? && StoredAccounts(row.grants).Some? then
        var held := SessionAddresses(row.accounts, w.chainId);
        Widen(base, accounts.value, held, Ungranted(w.profile, held))
      else base;
    widened.(offers := if Holds(widened.delta, ACCOUNTS) then w.offers else [])
  }

  // ----- the window's answer -----

  /** What the capability window returns, unvalidated. */
  datatype Answer = Answer(
    granted: seq<WireCap>,
    selectedAccounts: seq<string>,
    aliases: seq<(string, string)>,
    consent: Value)

  predicate Names(results: seq<WireCap>, kind: string)
  {
    exists w | w in results :: w.tag == kind
  }

  /** `ensureAccountsGrant`: selecting accounts approves the requested accounts capability. */
  function EnsureAccounts(answer: Answer, delta: seq<Capability>): seq<WireCap>
  {
    var asked := FirstOfType(delta, ACCOUNTS);
    if answer.selectedAccounts != [] && !Names(answer.granted, ACCOUNTS) && asked.Some?
    then answer.granted + [Embed(asked.value)]
    else answer.granted
  }

  function DeltaApproved(results: seq<WireCap>, delta: seq<Capability>): (types: seq<string>)
    ensures Distinct(types)
    ensures forall t :: t in types <==> Holds(delta, t) && Names(results, t)
  {
    var approved := Filter(delta, (c: Capability) => Names(results, TypeOf(c)));
    var types := seq(|approved|, i requires 0 <= i < |approved| => TypeOf(approved[i]));
    assert forall t :: t in types <==> exists c | c in approved :: TypeOf(c) == t by {
      forall c | c in approved ensures TypeOf(c) in types {
        var i :| 0 <= i < |approved| && approved[i] == c;
        assert types[i] == TypeOf(c);
      }
    }
    Dedup(types)
  }

  function RejectedDelta(results: seq<WireCap>, delta: seq<Capability>): (types: seq<string>)
    ensures forall t :: t in types <==> Holds(delta, t) && !Names(results, t)
  {
    var refused := Filter(delta, (c: Capability) => !Names(results, TypeOf(c)));
    var types := seq(|refused|, i requires 0 <= i < |refused| => TypeOf(refused[i]));
    assert forall t :: t in types <==> exists c | c in refused :: TypeOf(c) == t by {
      forall c | c in refused ensures TypeOf(c) in types {
        var i :| 0 <= i < |refused| && refused[i] == c;
        assert types[i] == TypeOf(c);
      }
    }
    types
  }

  // ----- the records a decision installs -----

  /** Projected answer entries of one type, in order; None when one of them is malformed. */
  function Candidates(results: seq<WireCap>, kind: string): Option<seq<Capability>>
  {
    if results == [] then Some([])
    else
      var k := |results| - 1;
      var head :- Candidates(results[..k], kind);
      if results[k].tag != kind then Some(head)
      else
        var c :- Project(results[k]);
        Some(head + [c])
  }

  /** The last candidate that differs from the stored grant, else the last candidate. */
  function LastChanged(candidates: seq<Capability>, stored: Option<Capability>): Option<Capability>
  {
    var changed := Filter(candidates, (c: Capability) => stored != Some(c));
    if changed != [] then Some(changed[|changed| - 1])
    else if candidates != [] then Some(candidates[|candidates| - 1])
    else None
  }

  function Replacement(results: seq<WireCap>, plan: Plan, kind: string): Option<Capability>
  {
    var candidates :- Candidates(results, kind);
    var chosen := LastChanged(candidates, FirstOfType(plan.existing, kind));
    if chosen.Some? then chosen else FirstOfType(plan.delta, kind)
  }

  function Replacements(results: seq<WireCap>, plan: Plan, kinds: seq<string>): Option<seq<Capability>>
  {
    if kinds == [] then Some([])
    else
      var k := |kinds| - 1;
      var head :- Replacements(results, plan, kinds[..k]);
      var c :- Replacement(results, plan, kinds[k]);
      Some(head + [c])
  }

  /** An answer entry outside the approved delta that is stored all the same: a type the session
      does not hold, or holds beside a rejection. */
  predicate IsExtra(w: WireCap, plan: Plan, deltaApproved: seq<string>)
  {
    w.tag !in deltaApproved && (!Holds(plan.existing, w.tag) || w.tag in plan.rejected)
  }

  function Extras(results: seq<WireCap>, plan: Plan, deltaApproved: seq<string>): Option<seq<Capability>>
  {
    if results == [] then Some([])
    else
      var k := |results| - 1;
      var head :- Extras(results[..k], plan, deltaApproved);
      if !IsExtra(results[k], plan, deltaApproved) then Some(head)
      else
        var c :- Project(results[k]);
        Some(head + [c])
  }

  function NewGrants(results: seq<WireCap>, plan: Plan, deltaApproved: seq<string>): Option<seq<Capability>>
  {
    var extras :- Extras(results, plan, deltaApproved);
    var replaced :- Replacements(results, plan, deltaApproved);
    Some(extras + replaced)
  }

  /** `collectNewGrants`: two passes that push into one list. */
  method CollectNewGrants(results: seq<WireCap>, plan: Plan, deltaApproved: seq<string>)
    returns (r: Option<seq<Capability>>)
    ensures r == NewGrants(results, plan, deltaApproved)
  {
    var newGrants: seq<Capability> := [];
    for i := 0 to |results|
      invariant Extras(results[..i], plan, deltaApproved) == Some(newGrants)
    {
      assert results[..i + 1][..i] == results[..i];
      if IsExtra(results[i], plan, deltaApproved) {
        var c := Project(results[i]);
        if c.None? {
          ExtrasFail(results, plan, deltaApproved, i + 1);
          return None;
        }
        newGrants := newGrants + [c.value];
      }
    }
    assert results[..|results|] == results;
    ghost var extras := newGrants;
    for i := 0 to |deltaApproved|
      invariant Replacements(results, plan, deltaApproved[..i]).Some?
      invariant newGrants == extras + Replacements(results, plan, deltaApproved[..i]).value
    {
      assert deltaApproved[..i + 1][..i] == deltaApproved[..i];
      var c := Replacement(results, plan, deltaApproved[i]);
      if c.None? {
        ReplacementsFail(results, plan, deltaApproved, i + 1);
        return None;
      }
      newGrants := newGrants + [c.value];
    }
    assert deltaApproved[..|deltaApproved|] == deltaApproved;
    return Some(newGrants);
  }

  lemma {:induction false} ExtrasFail(results: seq<WireCap>, plan: Plan, types: seq<string>, k: nat)
    requires k <= |results| && Extras(results[..k], plan, types).None?
    ensures Extras(results, plan, types).None?
    decreases |results| - k
  {
    if k < |results| {
      assert results[..k + 1][..k] == results[..k];
      ExtrasFail(results, plan, types, k + 1);
    } else {
      assert results[..k] == results;
    }
  }

  lemma {:induction false} ReplacementsFail(results: seq<WireCap>, plan: Plan, types: seq<string>, k: nat)
    requires k <= |types| && Replacements(results, plan, types[..k]).None?
    ensures Replacements(results, plan, types).None?
    decreases |types| - k
  {
    if k < |types| {
      assert types[..k + 1][..k] == types[..k];
      ReplacementsFail(results, plan, types, k + 1);
    } else {
      assert types[..k] == types;
    }
  }

  // ----- accounts and aliases -----

  /** The wallet's own spelling of an offered account, by case-folded identity. */
  function OfferedAs(offers: seq<Offer>, key: string): (r: Option<string>)
    ensures r.Some? ==> Lower(r.value) == key && exists o | o in offers :: r.value == FormatCaip(o.chainId, o.address)
    ensures r.None? ==> forall o | o in offers :: Lower(FormatCaip(o.chainId, o.address)) != key
  {
    if offers == [] then None
    else
      var k := |offers| - 1;
      var last := FormatCaip(offers[k].chainId, offers[k].address);
      assert offers == offers[..k] + [offers[k]];
      if Lower(last) == key then Some(last) else OfferedAs(offers[..k], key)
  }

  predicate IsHeld(plan: Plan, caip: string)
  {
    exists entry | entry in plan.sessionAccounts :: Lower(entry) == Lower(caip)
  }

  function Accepted(selected: seq<string>, plan: Plan): seq<string>
  {
    if selected == [] then []
    else
      var k := |selected| - 1;
      var head := Accepted(selected[..k], plan);
      var offered := OfferedAs(plan.offers, Lower(selected[k]));
      if offered.Some? && !IsHeld(plan, offered.value) then head + [offered.value] else head
  }

  function AddAccounts(answer: Answer, plan: Plan): seq<string>
  {
    Dedup(Accepted(answer.selectedAccounts, plan))
  }

  function AcceptedAs(added: seq<string>, key: string): (r: Option<string>)
    ensures r.Some? ==> r.value in added && Lower(r.value) == key
    ensures r.None? ==> forall a | a in added :: Lower(a) != key
  {
    if added == [] then None
    else
      var k := |added| - 1;
      assert added == added[..k] + [added[k]];
      if Lower(added[k]) == key then Some(added[k]) else AcceptedAs(added[..k], key)
  }

  function AliasPatch(aliases: seq<(string, string)>, added: seq<string>): map<string, string>
  {
    if aliases == [] then map[]
    else
      var k := |aliases| - 1;
      var head := AliasPatch(aliases[..k], added);
      var canonical := AcceptedAs(added, Lower(aliases[k].0));
      if canonical.Some? then head[canonical.value := aliases[k].1] else head
  }

  /** The alias loop of `accountsAdditions`. */
  method CollectAliases(aliases: seq<(string, string)>, added: seq<string>) returns (patch: map<string, string>)
    ensures patch == AliasPatch(aliases, added)
    ensures forall k | k in patch :: k in added
  {
    patch := map[];
    for i := 0 to |aliases|
      invariant patch == AliasPatch(aliases[..i], added)
      invariant forall k | k in patch :: k in added
    {
      assert aliases[..i + 1][..i] == aliases[..i];
      var canonical := AcceptedAs(added, Lower(aliases[i].0));
      if canonical.Some? {
        patch := patch[canonical.value := aliases[i].1];
      }
    }
    assert aliases[..|aliases|] == aliases;
  }

  // ----- the decision -----

  function ConsentOf(answer: Answer, plan: Plan, records: seq<Capability>): ConsentChange
  {
    if answer.consent == Bool(false) then DeleteConsent
    else if answer.consent != Bool(true) then KeepConsent
    else SetConsent(CoversAnyContract(EffectiveGrants(plan.existing, records)))
  }

  predicate KeepsAccountsGrant(plan: Plan, deltaApproved: seq<string>)
  {
    plan.widening.Some? && plan.widening.value.membershipOnly && ACCOUNTS in deltaApproved
  }

  function RecordsOf(newGrants: seq<Capability>, keepAccounts: bool): seq<Capability>
  {
    Filter(newGrants, (c: Capability) => !(keepAccounts && TypeOf(c) == ACCOUNTS))
  }

  function ReplaceTypesOf(deltaApproved: seq<string>, keepAccounts: bool): seq<string>
  {
    Filter(deltaApproved, (t: string) => !(keepAccounts && t == ACCOUNTS))
  }

  /** `mergeGrantsAndRejections`: None is the projection error of a malformed answer entry. */
  function Merge(answer: Answer, plan: Plan): Option<Decision>
  {
    var results := EnsureAccounts(answer, plan.delta);
    var approved := DeltaApproved(results, plan.delta);
    var newGrants :- NewGrants(results, plan, approved);
    var keep := KeepsAccountsGrant(plan, approved);
    var records := RecordsOf(newGrants, keep);
    var added := AddAccounts(answer, plan);
    Some(Decision(
      added,
      AliasPatch(if answer.selectedAccounts == [] then [] else answer.aliases, added),
      records,
      ReplaceTypesOf(approved, keep),
      approved,
      RejectedDelta(results, plan.delta),
      (plan.widening.Some? && ACCOUNTS in approved) ||
      (answer.consent == Bool(true) && !Holds(plan.delta, ACCOUNTS)),
      ConsentOf(answer, plan, records)))
  }

  /** The decision a closed window records: every delta type rejected, nothing else. */
  function RejectAll(plan: Plan): Decision
  {
    var types := seq(|plan.delta|, i requires 0 <= i < |plan.delta| => TypeOf(plan.delta[i]));
    Decision([], map[], [], [], [], types, false, KeepConsent)
  }
}
