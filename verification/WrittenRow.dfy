/** The row after a window closes, field by field, for any answer that is taken and whatever the row
    has become meanwhile; every condition is about the answer, the plan and the row found. */
module WrittenRow {
  import opened Wrappers
  import opened Text
  import opened Seqs
  import opened Wire
  import opened Capabilities
  import opened ScopeCheckers
  import opened Session
  import opened Negotiation
  import opened NegotiationProofs
  import opened FreshConsent

  // ----- rejections -----

  lemma {:induction false} DecidedTypes(answer: Answer, plan: Plan, t: string)
    requires Merge(answer, plan).Some?
    ensures var d := Merge(answer, plan).value;
      && (t in d.approvedTypes <==> Approves(answer, plan, t))
      && (t in d.rejectedTypes <==> Holds(plan.delta, t) && !Approves(answer, plan, t))
  {
    ResultNames(answer, plan, t);
  }

  /** A type the window was asked about is rejected afterwards exactly when the answer does not
      approve it; any other type exactly when it was before. */
  lemma {:induction false} RejectionsWritten(answer: Answer, plan: Plan, now: Row, t: string)
    requires Merge(answer, plan).Some? && Apply(now, Merge(answer, plan).value).Some?
    ensures t in Apply(now, Merge(answer, plan).value).value.rejections <==>
            if Holds(plan.delta, t) then !Approves(answer, plan, t) else t in now.rejections
  {
    DecidedTypes(answer, plan, t);
  }

  /** A closed window is never refused: it leaves every type it asked about rejected and drops no
      other rejection, and it changes neither accounts, aliases nor grants. */
  lemma {:induction false} ClosedWindowWritten(plan: Plan, now: Row, t: string)
    ensures var after := Apply(now, RejectAll(plan));
      && after.Some?
      && (t in after.value.rejections <==> Holds(plan.delta, t) || t in now.rejections)
      && after.value.accounts == now.accounts && after.value.aliases == now.aliases && after.value.grants == now.grants
      && after.value.consent == if HoldsCanCreateAuthWit(now.grants) then now.consent else Undefined
  {
    var d := RejectAll(plan);
    assert t in d.rejectedTypes <==> Holds(plan.delta, t) by {
      if Holds(plan.delta, t) {
        var c :| c in plan.delta && TypeOf(c) == t;
        var i :| 0 <= i < |plan.delta| && plan.delta[i] == c;
        assert d.rejectedTypes[i] == t;
      }
    }
    var keep := (c: Capability) => TypeOf(c) !in d.replaceTypes;
    KeepsAll(now.grants, keep);
    assert now.grants + [] == now.grants;
    assert now.aliases + map[] == now.aliases;
  }

  lemma {:induction false} KeepsAll(xs: seq<Capability>, keep: Capability -> bool)
    requires forall x | x in xs :: keep(x)
    ensures Filter(xs, keep) == xs
  {
    if xs != [] {
      KeepsAll(xs[1..], keep);
      assert [xs[0]] + xs[1..] == xs;
    }
  }

  // ----- grants -----

  lemma {:induction false} ReplacedTypes(answer: Answer, plan: Plan, t: string)
    requires Merge(answer, plan).Some?
    ensures t in Merge(answer, plan).value.replaceTypes <==> Replaces(answer, plan, t)
  {
    ResultNames(answer, plan, t);
    ResultNames(answer, plan, ACCOUNTS);
  }

  /** A capability of a type is held afterwards exactly when the answer installs such a one, or the
      row held such a one and the answer does not replace the type. */
  lemma {:induction false} GrantsWritten(answer: Answer, plan: Plan, now: Row, kind: string, p: Capability -> bool)
    requires AllWellFormed(plan.delta)
    requires Merge(answer, plan).Some? && Apply(now, Merge(answer, plan).value).Some?
    ensures HoldsSome(Apply(now, Merge(answer, plan).value).value.grants, kind, p) <==>
            Installs(answer, plan, kind, p) || (HoldsSome(now.grants, kind, p) && !Replaces(answer, plan, kind))
  {
    var d := Merge(answer, plan).value;
    RecordsInstall(answer, plan, kind, p);
    ReplacedTypes(answer, plan, kind);
    var kept := Filter(now.grants, (c: Capability) => TypeOf(c) !in d.replaceTypes);
    assert Apply(now, d).value.grants == kept + d.grantRecords;
    assert forall c :: c in kept + d.grantRecords <==> c in kept || c in d.grantRecords;
  }

  // ----- the consent -----

  /** The consent afterwards: none without `canCreateAuthWit`; otherwise a given consent is broad
      exactly when an any-contract scope was in view, a declined one is deleted, and no answer
      leaves the stored one. */
  lemma {:induction false} ConsentWritten(answer: Answer, plan: Plan, now: Row)
    requires AllWellFormed(plan.delta)
    requires Merge(answer, plan).Some? && Apply(now, Merge(answer, plan).value).Some?
    ensures var after := Apply(now, Merge(answer, plan).value).value;
      after.consent ==
        if !HoldsCanCreateAuthWit(after.grants) || answer.consent == Bool(false) then Undefined
        else if answer.consent == Bool(true) then Obj(map["broad" := Bool(ShowsAnyContract(answer, plan))])
        else now.consent
  {
    ViewExact(answer, plan);
  }

  /** A stored consent is read strictly: exactly an object with the one field `broad`, a boolean. */
  lemma ConsentReadExactly(v: Value, broad: bool)
    ensures ReadConsent(v) == Some(broad) <==> v == Obj(map["broad" := Bool(broad)])
  {
    if ReadConsent(v) == Some(broad) {
      assert v.fields == map["broad" := Bool(broad)];
    }
  }

  // ----- accounts and aliases -----

  /** The last alias the answer gives for an account, spelling aside. */
  function AliasFor(aliases: seq<(string, string)>, account: string): Option<string>
  {
    if aliases == [] then None
    else
      var k := |aliases| - 1;
      if Lower(aliases[k].0) == Lower(account) then Some(aliases[k].1) else AliasFor(aliases[..k], account)
  }

  lemma {:induction false} PatchedAlias(aliases: seq<(string, string)>, added: seq<string>, a: string)
    requires a in added && forall x, y | x in added && y in added && Lower(x) == Lower(y) :: x == y
    ensures var patch := AliasPatch(aliases, added);
      if a in patch then AliasFor(aliases, a) == Some(patch[a]) else AliasFor(aliases, a).None?
  {
    if aliases != [] {
      var k := |aliases| - 1;
      PatchedAlias(aliases[..k], added, a);
      var canonical := AcceptedAs(added, Lower(aliases[k].0));
    }
  }

  /** Members afterwards are those before and the accounts added; an added account carries the last
      alias the answer gives it, and every other alias is as it was. */
  lemma {:induction false} AccountsWritten(answer: Answer, plan: Plan, now: Row, a: string)
    requires Merge(answer, plan).Some? && Apply(now, Merge(answer, plan).value).Some?
    ensures var after, added := Apply(now, Merge(answer, plan).value).value, AddAccounts(answer, plan);
      && (a in after.accounts <==> a in now.accounts || a in added)
      && (if a in added && AliasFor(answer.aliases, a).Some?
          then a in after.aliases && after.aliases[a] == AliasFor(answer.aliases, a).value
          else (a in after.aliases <==> a in now.aliases) && (a in now.aliases ==> after.aliases[a] == now.aliases[a]))
  {
    AddsOnlyOfferedAccounts(answer, plan);
    var d := Merge(answer, plan).value;
    var aliases := if answer.selectedAccounts == [] then [] else answer.aliases;
    AliasKeys(aliases, d.addAccounts);
    if a in d.addAccounts {
      PatchedAlias(aliases, d.addAccounts, a);
      var s :| s in answer.selectedAccounts && Lower(s) == Lower(a);
      assert aliases == answer.aliases;
    }
  }

  lemma {:induction false} DedupExtends(xs: seq<string>, ys: seq<string>)
    requires Distinct(xs)
    ensures xs <= Dedup(xs + ys)
    decreases |ys|, |xs|
  {
    if ys != [] {
      var k := |ys| - 1;
      DedupExtends(xs, ys[..k]);
      assert (xs + ys)[..|xs + ys| - 1] == xs + ys[..k];
    } else if xs != [] {
      var k := |xs| - 1;
      DedupExtends(xs[..k], []);
      assert xs[..k] + [] == xs[..k] && xs + [] == xs && xs == xs[..k] + [xs[k]];
      DedupLength(xs[..k]);
    }
  }

  lemma {:induction false} DedupLength(xs: seq<string>)
    ensures |Dedup(xs)| <= |xs|
  {
    if xs != [] { DedupLength(xs[..|xs| - 1]); }
  }

  /** Members keep their places, and no account becomes a member twice. */
  lemma {:induction false} MembersOnce(now: Row, d: Decision)
    requires Apply(now, d).Some? && Distinct(now.accounts)
    ensures now.accounts <= Apply(now, d).value.accounts && Distinct(Apply(now, d).value.accounts)
  {
    DedupExtends(now.accounts, d.addAccounts);
  }

  // ----- refusal -----

  /** The writer refuses exactly when the row it finds holds no accounts grant and the answer needs
      one: it widens accounts, or consents without asking for accounts. */
  lemma {:induction false} RefusedExactly(answer: Answer, plan: Plan, now: Row)
    requires Merge(answer, plan).Some?
    ensures Apply(now, Merge(answer, plan).value).None? <==>
            && !Holds(now.grants, ACCOUNTS)
            && ((plan.widening.Some? && Approves(answer, plan, ACCOUNTS)) ||
                (answer.consent == Bool(true) && !Holds(plan.delta, ACCOUNTS)))
  {
    ResultNames(answer, plan, ACCOUNTS);
  }
}
