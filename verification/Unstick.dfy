/** The release auto-unstick runner (scripts/release/auto-unstick.ts and auto-unstick-run.ts):
    one decision, then tag, label and release effects that a crash may cut short. */
module Unstick {
  import opened Wrappers

  const PENDING := "autorelease: pending"
  const TAGGED := "autorelease: tagged"

  datatype MergedPr = MergedPr(number: nat, merged: bool, baseRef: string, mergeSha: string)

  /** What GitHub holds: the PR a commit resolves to, each PR's labels, tags and releases. */
  datatype Hub = Hub(
    prs: map<string, MergedPr>,
    labels: map<nat, set<string>>,
    tags: map<string, string>,
    releases: map<string, bool>)

  datatype Opts = Opts(enabled: bool, releaseCreated: bool, eventName: string, headSha: string, version: string)

  datatype Action = Disabled | Noop | Create(tagSha: string, pr: nat) | Skip(pr: nat) | Abort

  datatype Found = Found(pr: MergedPr, labels: set<string>)

  // ----- the decision -----

  function Decide(o: Opts, found: Option<Found>, existingTagSha: Option<string>): Action
  {
    if !o.enabled then Disabled
    else if o.releaseCreated || o.eventName != "push" then Noop
    else if found.None? || !found.value.pr.merged then Noop
    else if found.value.pr.baseRef != "main" || PENDING !in found.value.labels then Noop
    else if existingTagSha.None? then Create(found.value.pr.mergeSha, found.value.pr.number)
    else if existingTagSha.value == found.value.pr.mergeSha then Skip(found.value.pr.number)
    else Abort
  }

  function LabelsOf(h: Hub, pr: nat): set<string>
  {
    if pr in h.labels then h.labels[pr] else {}
  }

  function Resolve(h: Hub, sha: string): Option<Found>
  {
    if sha in h.prs then Some(Found(h.prs[sha], LabelsOf(h, h.prs[sha].number))) else None
  }

  function TagName(version: string): string { "v" + version }

  /** What the runner decides on the hub as it stands; lookups only when eligible. */
  function Decision(o: Opts, h: Hub): Action
  {
    var eligible := o.enabled && !o.releaseCreated && o.eventName == "push";
    var found := if eligible then Resolve(h, o.headSha) else None;
    var tag := TagName(o.version);
    Decide(o, found, if found.Some? && tag in h.tags then Some(h.tags[tag]) else None)
  }

  // ----- effects -----

  datatype Effect =
    | CreateTag(tag: string, sha: string)
    | Relabel(pr: nat)
    | EnsureRelease(tag: string, prerelease: bool)

  function Effects(o: Opts, a: Action): seq<Effect>
  {
    var tag := TagName(o.version);
    var release := EnsureRelease(tag, '-' in o.version);
    match a
    case Create(sha, pr) => [CreateTag(tag, sha), Relabel(pr), release]
    case Skip(pr) => [release, Relabel(pr)]
    case _ => []
  }

  /** One effect. Creating a tag that exists fails, like creating a release for a missing tag. */
  function Perform(h: Hub, e: Effect): Option<Hub>
  {
    match e
    case CreateTag(tag, sha) => if tag in h.tags then None else Some(h.(tags := h.tags[tag := sha]))
    case Relabel(pr) => Some(h.(labels := h.labels[pr := LabelsOf(h, pr) + {TAGGED} - {PENDING}]))
    case EnsureRelease(tag, prerelease) =>
      if tag in h.releases then Some(h)
      else if tag !in h.tags then None
      else Some(h.(releases := h.releases[tag := prerelease]))
  }

  function PerformAll(h: Hub, es: seq<Effect>): Hub
    decreases |es|
  {
    if es == [] then h
    else
      var next := Perform(h, es[0]);
      if next.None? then h else PerformAll(next.value, es[1..])
  }

  lemma PerformSteps(h: Hub, a: Effect, b: Effect, c: Effect)
    ensures PerformAll(h, []) == h
    ensures PerformAll(h, [a]) == if Perform(h, a).Some? then Perform(h, a).value else h
    ensures PerformAll(h, [a, b]) == if Perform(h, a).Some? then PerformAll(Perform(h, a).value, [b]) else h
    ensures PerformAll(h, [a, b, c]) == if Perform(h, a).Some? then PerformAll(Perform(h, a).value, [b, c]) else h
  {
    assert [a][1..] == [] && [a, b][1..] == [b] && [a, b, c][1..] == [b, c];
  }

  lemma Prefixes(a: Effect, b: Effect, c: Effect)
    ensures [a, b, c][..0] == [] && [a, b, c][..1] == [a] && [a, b, c][..2] == [a, b]
    ensures [a, b][..0] == [] && [a, b][..1] == [a]
  {
  }

  /** A run that is cut before effect `crash`, or completes when `crash` is past the last one. */
  function RunUntil(h: Hub, o: Opts, crash: nat): Hub
  {
    var es := Effects(o, Decision(o, h));
    PerformAll(h, if crash < |es| then es[..crash] else es)
  }

  function Complete(h: Hub, o: Opts): Hub
  {
    RunUntil(h, o, 3)
  }

  class Runner {
    var hub: Hub

    constructor (h: Hub)
      ensures hub == h
    {
      hub := h;
    }

    /** One effect, unless the run was cut before it or an earlier effect failed. */
    method Try(alive: bool, e: Effect) returns (ok: bool)
      modifies this
      ensures hub == if alive && Perform(old(hub), e).Some? then Perform(old(hub), e).value else old(hub)
      ensures ok == (alive && Perform(old(hub), e).Some?)
    {
      ok := false;
      if alive {
        var next := Perform(hub, e);
        if next.Some? {
          hub := next.value;
          ok := true;
        }
      }
    }

    method PerformCreate(o: Opts, sha: string, pr: nat, crash: nat) returns (ok: bool)
      requires Decision(o, hub) == Create(sha, pr)
      modifies this
      ensures hub == RunUntil(old(hub), o, crash)
      ensures ok <==> crash >= 3
    {
      var tag := TagName(o.version);
      var release := EnsureRelease(tag, '-' in o.version);
      Prefixes(CreateTag(tag, sha), Relabel(pr), release);
      PerformSteps(hub, CreateTag(tag, sha), Relabel(pr), release);
      ok := Try(crash > 0, CreateTag(tag, sha));
      PerformSteps(hub, Relabel(pr), release, release);
      ok := Try(ok && crash > 1, Relabel(pr));
      PerformSteps(hub, release, release, release);
      ok := Try(ok && crash > 2, release);
    }

    method PerformSkip(o: Opts, pr: nat, crash: nat) returns (ok: bool)
      requires Decision(o, hub) == Skip(pr)
      modifies this
      ensures hub == RunUntil(old(hub), o, crash)
      ensures ok <==> crash >= 2
    {
      var release := EnsureRelease(TagName(o.version), '-' in o.version);
      Prefixes(release, Relabel(pr), release);
      PerformSteps(hub, release, Relabel(pr), release);
      ok := Try(crash > 0, release);
      PerformSteps(hub, Relabel(pr), release, release);
      ok := Try(ok && crash > 1, Relabel(pr));
    }

    /** `runUnstick` with the first effect that fails, or before which the process dies, made
        explicit: it exits 0 exactly when it does not abort and gets through all its effects. */
    method RunUnstick(o: Opts, crash: nat) returns (exitCode: nat)
      modifies this
      ensures hub == RunUntil(old(hub), o, crash)
      ensures exitCode <= 1
      ensures exitCode == 0 <==>
        Decision(o, old(hub)) != Abort && |Effects(o, Decision(o, old(hub)))| <= crash
    {
      var eligible := o.enabled && !o.releaseCreated && o.eventName == "push";
      var found := if eligible then Resolve(hub, o.headSha) else None;
      var tag := TagName(o.version);
      var decision := Decide(o, found, if found.Some? && tag in hub.tags then Some(hub.tags[tag]) else None);
      exitCode := 0;
      match decision {
        case Create(sha, pr) =>
          var ok := PerformCreate(o, sha, pr, crash);
          exitCode := if ok then 0 else 1;
        case Skip(pr) =>
          var ok := PerformSkip(o, pr, crash);
          exitCode := if ok then 0 else 1;
        case Abort =>
          exitCode := 1;
        case _ =>
      }
    }
  }

  // ----- no run moves a tag -----

  lemma {:induction false} EffectsKeepTags(h: Hub, es: seq<Effect>, tag: string)
    requires tag in h.tags
    ensures tag in PerformAll(h, es).tags && PerformAll(h, es).tags[tag] == h.tags[tag]
    decreases |es|
  {
    if es != [] && Perform(h, es[0]).Some? {
      EffectsKeepTags(Perform(h, es[0]).value, es[1..], tag);
    }
  }

  /** The hub after a series of runs, each with its own options and crash point. */
  function After(h: Hub, runs: seq<(Opts, nat)>): Hub
  {
    if runs == [] then h
    else RunUntil(After(h, runs[..|runs| - 1]), runs[|runs| - 1].0, runs[|runs| - 1].1)
  }

  /** Over any series of runs, crashed or not, an existing tag keeps its commit. */
  lemma {:induction false} TagsNeverMove(h: Hub, runs: seq<(Opts, nat)>, tag: string)
    requires tag in h.tags
    ensures tag in After(h, runs).tags && After(h, runs).tags[tag] == h.tags[tag]
  {
    if runs != [] {
      var k := |runs| - 1;
      TagsNeverMove(h, runs[..k], tag);
      var mid := After(h, runs[..k]);
      var es := Effects(runs[k].0, Decision(runs[k].0, mid));
      EffectsKeepTags(mid, if runs[k].1 < |es| then es[..runs[k].1] else es, tag);
    }
  }

  // ----- healing -----

  predicate Enabled(o: Opts) { o.enabled && !o.releaseCreated && o.eventName == "push" }

  /** A stuck Release PR at the pushed commit, with the tag absent or at the merge commit. */
  predicate Stuck(h: Hub, o: Opts)
  {
    && o.headSha in h.prs && h.prs[o.headSha].merged && h.prs[o.headSha].baseRef == "main"
    && PENDING in LabelsOf(h, h.prs[o.headSha].number)
    && (TagName(o.version) in h.tags ==> h.tags[TagName(o.version)] == h.prs[o.headSha].mergeSha)
  }

  /** The goal: tag at the merge commit, a release for it, and the PR labelled as tagged. */
  predicate Published(h: Hub, o: Opts)
  {
    && o.headSha in h.prs
    && TagName(o.version) in h.tags && h.tags[TagName(o.version)] == h.prs[o.headSha].mergeSha
    && TagName(o.version) in h.releases
    && TAGGED in LabelsOf(h, h.prs[o.headSha].number) && PENDING !in LabelsOf(h, h.prs[o.headSha].number)
  }

  lemma CreateEffects(h: Hub, o: Opts, crash: nat)
    requires Enabled(o) && Stuck(h, o) && TagName(o.version) !in h.tags
    ensures var pr := h.prs[o.headSha]; var tag := TagName(o.version);
      var tagged := h.(tags := h.tags[tag := pr.mergeSha]);
      var labelled := tagged.(labels := h.labels[pr.number := LabelsOf(h, pr.number) + {TAGGED} - {PENDING}]);
      && Decision(o, h) == Create(pr.mergeSha, pr.number)
      && (crash == 0 ==> RunUntil(h, o, crash) == h)
      && (crash == 1 ==> RunUntil(h, o, crash) == tagged)
      && (crash == 2 ==> RunUntil(h, o, crash) == labelled)
      && (crash >= 3 ==>
            (RunUntil(h, o, crash) ==
             if tag in h.releases then labelled else labelled.(releases := h.releases[tag := '-' in o.version])))
  {
    var pr := h.prs[o.headSha];
    var tag := TagName(o.version);
    var c, l, r := CreateTag(tag, pr.mergeSha), Relabel(pr.number), EnsureRelease(tag, '-' in o.version);
    assert Effects(o, Decision(o, h)) == [c, l, r];
    Prefixes(c, l, r);
    PerformSteps(h, c, l, r);
    var tagged := Perform(h, c).value;
    PerformSteps(tagged, l, r, r);
    PerformSteps(Perform(tagged, l).value, r, r, r);
  }

  lemma SkipEffects(h: Hub, o: Opts, crash: nat)
    requires Enabled(o) && Stuck(h, o) && TagName(o.version) in h.tags
    ensures var pr := h.prs[o.headSha]; var tag := TagName(o.version);
      var released := if tag in h.releases then h else h.(releases := h.releases[tag := '-' in o.version]);
      && Decision(o, h) == Skip(pr.number)
      && (crash == 0 ==> RunUntil(h, o, crash) == h)
      && (crash == 1 ==> RunUntil(h, o, crash) == released)
      && (crash >= 2 ==>
            (RunUntil(h, o, crash) ==
             released.(labels := h.labels[pr.number := LabelsOf(h, pr.number) + {TAGGED} - {PENDING}])))
  {
    var pr := h.prs[o.headSha];
    var l, r := Relabel(pr.number), EnsureRelease(TagName(o.version), '-' in o.version);
    assert Effects(o, Decision(o, h)) == [r, l];
    Prefixes(r, l, l);
    PerformSteps(h, r, l, l);
    PerformSteps(Perform(h, r).value, l, l, l);
  }

  /** One completed enabled push run publishes a stuck release. */
  lemma CompletedRunPublishes(h: Hub, o: Opts)
    requires Enabled(o) && Stuck(h, o)
    ensures Published(Complete(h, o), o)
  {
    if TagName(o.version) in h.tags { SkipEffects(h, o, 3); } else { CreateEffects(h, o, 3); }
  }

  /** The one unrecoverable cut: a creating run stopped after the relabel and before the release. */
  predicate CutBeforeRelease(h: Hub, o: Opts, crash: nat)
  {
    Decision(o, h).Create? && crash == 2 && TagName(o.version) !in h.releases
  }

  /** Healing is exact: after a run of a stuck release cut at any point, a completed rerun
      publishes it if and only if the cut did not fall between relabelling and releasing. */
  lemma RerunHealsExactly(h: Hub, o: Opts, crash: nat)
    requires Enabled(o) && Stuck(h, o)
    ensures Published(Complete(RunUntil(h, o, crash), o), o) <==> !CutBeforeRelease(h, o, crash)
  {
    var mid := RunUntil(h, o, crash);
    if TagName(o.version) in h.tags { SkipEffects(h, o, crash); } else { CreateEffects(h, o, crash); }
    if Stuck(mid, o) {
      CompletedRunPublishes(mid, o);
    } else {
      assert PENDING !in LabelsOf(mid, mid.prs[o.headSha].number);
      assert Decision(o, mid) == Noop;
      assert Complete(mid, o) == mid;
    }
  }

  /** After that cut no later run of the commit, however often repeated, creates the release: the
      pending label that would trigger it is gone. */
  lemma {:induction false} CutNeverHeals(h: Hub, o: Opts, reruns: seq<nat>)
    requires Enabled(o) && Stuck(h, o) && CutBeforeRelease(h, o, 2)
    ensures var runs := seq(|reruns|, i requires 0 <= i < |reruns| => (o, reruns[i]));
      TagName(o.version) !in After(RunUntil(h, o, 2), runs).releases
  {
    CreateEffects(h, o, 2);
    var mid := RunUntil(h, o, 2);
    var runs := seq(|reruns|, i requires 0 <= i < |reruns| => (o, reruns[i]));
    NoopsForever(mid, o, runs);
  }

  lemma {:induction false} NoopsForever(h: Hub, o: Opts, runs: seq<(Opts, nat)>)
    requires Decision(o, h) == Noop && forall i | 0 <= i < |runs| :: runs[i].0 == o
    ensures After(h, runs) == h
  {
    if runs != [] {
      NoopsForever(h, o, runs[..|runs| - 1]);
    }
  }

  // ----- every run, whatever the hub holds -----

  /** The pushed commit is a Release PR merged to main that still waits for its release. */
  predicate Awaiting(h: Hub, o: Opts)
  {
    && o.enabled && !o.releaseCreated && o.eventName == "push"
    && o.headSha in h.prs && h.prs[o.headSha].merged && h.prs[o.headSha].baseRef == "main"
    && h.prs[o.headSha].number in h.labels && "autorelease: pending" in h.labels[h.prs[o.headSha].number]
  }

  /** The version's tag is at some other commit. */
  predicate TagElsewhere(h: Hub, o: Opts)
    requires o.headSha in h.prs
  {
    ("v" + o.version) in h.tags && h.tags["v" + o.version] != h.prs[o.headSha].mergeSha
  }

  /** The hub a published release leaves: the tag at the merge commit, the one label replaced by the
      other, and a release, marked a prerelease when the version has a dash, unless there was one. */
  function Released(h: Hub, o: Opts): Hub
    requires Awaiting(h, o)
  {
    var pr, tag := h.prs[o.headSha], "v" + o.version;
    h.(tags := h.tags[tag := pr.mergeSha],
       labels := h.labels[pr.number := h.labels[pr.number] + {"autorelease: tagged"} - {"autorelease: pending"}],
       releases := if tag in h.releases then h.releases else h.releases[tag := '-' in o.version])
  }

  /** A completed run releases an awaiting commit whose tag is free or already there, aborts when the
      tag is elsewhere, and otherwise leaves the hub alone. */
  lemma {:induction false} CompletedRunExactly(h: Hub, o: Opts)
    ensures Decision(o, h) == Abort <==> Awaiting(h, o) && TagElsewhere(h, o)
    ensures Complete(h, o) == if Awaiting(h, o) && !TagElsewhere(h, o) then Released(h, o) else h
  {
    if Awaiting(h, o) && !TagElsewhere(h, o) {
      assert Stuck(h, o);
      if TagName(o.version) in h.tags {
        SkipEffects(h, o, 3);
        assert h.tags == h.tags[TagName(o.version) := h.prs[o.headSha].mergeSha];
      } else {
        CreateEffects(h, o, 3);
      }
    } else {
      assert Effects(o, Decision(o, h)) == [];
    }
  }
}
