/** How the Chrome Web Store's answers are read (scripts/release/publish-chrome-store.ts). */
module StorePublish {
  import opened Wrappers
  import opened Wire
  import opened StoreVersion

  const KNOWN_STATES := {"PENDING_REVIEW", "STAGED", "PUBLISHED", "PUBLISHED_TO_TESTERS", "REJECTED", "CANCELLED"}
  const ACCEPTED_WARNINGS := {"BROAD_HOST_USAGE"}
  const ERROR_INFO := "type.googleapis.com/google.rpc.ErrorInfo"
  const WARNINGS_INFO := "type.googleapis.com/google.chrome.webstore.v2.WarningsInfo"
  const INERT_DETAILS := {"type.googleapis.com/google.rpc.LocalizedMessage", "type.googleapis.com/google.rpc.Help"}

  // ----- preflight -----

  datatype Revision = Absent | Known(revision: Value) | Unknown

  function RevisionState(revision: Value): Revision
  {
    if revision.Undefined? then Absent
    else if !IsObject(revision) then Unknown
    else
      var state := Field(revision, "state");
      if state.Str? && state.s in KNOWN_STATES then Known(revision) else Unknown
  }

  /** The version a distribution channel lists, when it is readable. */
  function ChannelVersion(channel: Value): (r: Option<seq<nat>>)
    ensures r.Some? ==> IsVersion(r.value)
  {
    var crx := Field(channel, "crxVersion");
    if crx.Str? then ParseStoreVersion(crx.s) else None
  }

  /** Every channel of a list is readable and strictly below `ours`. */
  ghost predicate AllBelow(channels: seq<Value>, ours: seq<nat>)
    requires IsVersion(ours)
  {
    forall c | c in channels :: ChannelVersion(c).Some? && Below(ChannelVersion(c).value, ours)
  }

  /** A revision leaves room for `ours`: absent, or known with every listed channel below. */
  ghost predicate Outranked(revision: Value, ours: seq<nat>)
    requires IsVersion(ours)
  {
    || revision.Undefined?
    || (&& RevisionState(revision).Known?
        && var channels := Field(revision, "distributionChannels");
           channels.Undefined? || (channels.Arr? && AllBelow(channels.items, ours)))
  }

  /** An upload of `version` to `item` may proceed. */
  ghost predicate Eligible(status: Value, item: string, version: string)
  {
    && Field(status, "itemId") == Str(item)
    && Field(status, "takenDown") != Bool(true)
    && Field(Field(status, "submittedItemRevisionStatus"), "state") != Str("PENDING_REVIEW")
    && ParseStoreVersion(version).Some?
    && Outranked(Field(status, "submittedItemRevisionStatus"), ParseStoreVersion(version).value)
    && Outranked(Field(status, "publishedItemRevisionStatus"), ParseStoreVersion(version).value)
  }

  method CheckChannels(revision: Revision, ours: seq<nat>) returns (ok: bool)
    requires IsVersion(ours)
    ensures revision.Known? ==>
      var channels := Field(revision.revision, "distributionChannels");
      ok <==> channels.Undefined? || (channels.Arr? && AllBelow(channels.items, ours))
    ensures !revision.Known? ==> ok
  {
    if !revision.Known? {
      return true;
    }
    var channels := Field(revision.revision, "distributionChannels");
    if channels.Undefined? {
      return true;
    }
    if !channels.Arr? {
      return false;
    }
    for i := 0 to |channels.items|
      invariant AllBelow(channels.items[..i], ours)
    {
      var theirs := ChannelVersion(channels.items[i]);
      assert channels.items[i] in channels.items;
      if theirs.None? {
        return false;
      }
      var c := CompareStoreVersions(theirs.value, ours);
      if c >= 0 {
        StrictTotalOrder(ours, theirs.value, ours);
        return false;
      }
      assert channels.items[..i + 1] == channels.items[..i] + [channels.items[i]];
    }
    assert channels.items[..|channels.items|] == channels.items;
    return true;
  }

  /** `interpretPreflight`: accepts exactly the eligible statuses. */
  method InterpretPreflight(status: Value, item: string, version: string) returns (ok: bool)
    ensures ok <==> Eligible(status, item, version)
  {
    if Field(status, "itemId") != Str(item) || Field(status, "takenDown") == Bool(true) {
      return false;
    }
    var ours := ParseStoreVersion(version);
    if ours.None? {
      return false;
    }
    var submitted := RevisionState(Field(status, "submittedItemRevisionStatus"));
    if submitted.Unknown? || (submitted.Known? && Field(submitted.revision, "state") == Str("PENDING_REVIEW")) {
      return false;
    }
    var published := RevisionState(Field(status, "publishedItemRevisionStatus"));
    if published.Unknown? {
      return false;
    }
    ok := CheckChannels(published, ours.value);
    if ok {
      ok := CheckChannels(submitted, ours.value);
    }
  }

  /** The version of any channel of either revision. */
  ghost predicate Listed(status: Value, theirs: seq<nat>)
  {
    exists key, c | key in {"submittedItemRevisionStatus", "publishedItemRevisionStatus"} ::
      && Field(Field(status, key), "distributionChannels").Arr?
      && c in Field(Field(status, key), "distributionChannels").items
      && ChannelVersion(c) == Some(theirs)
  }

  /** Nothing the store lists as published or submitted is at or above the uploaded version. */
  lemma {:induction false} EligibleOutranksListed(status: Value, item: string, version: string, theirs: seq<nat>)
    requires Eligible(status, item, version) && Listed(status, theirs)
    ensures IsVersion(theirs) && Rank(theirs) < Rank(ParseStoreVersion(version).value)
  {
    var key, c :| key in {"submittedItemRevisionStatus", "publishedItemRevisionStatus"} &&
      Field(Field(status, key), "distributionChannels").Arr? &&
      c in Field(Field(status, key), "distributionChannels").items && ChannelVersion(c) == Some(theirs);
    OutranksChannel(Field(status, key), c, ParseStoreVersion(version).value);
  }

  lemma {:induction false} OutranksChannel(revision: Value, channel: Value, ours: seq<nat>)
    requires IsVersion(ours) && Outranked(revision, ours) && ChannelVersion(channel).Some?
    requires Field(revision, "distributionChannels").Arr? && channel in Field(revision, "distributionChannels").items
    ensures Rank(ChannelVersion(channel).value) < Rank(ours)
  {
    OrderIsNumeric(ChannelVersion(channel).value, ours);
  }

  // ----- upload -----

  datatype Upload = Done | Poll | Failed

  function InterpretUpload(res: Value, item: string, version: string): Upload
  {
    if Field(res, "itemId") != Str(item) then Failed
    else if Field(res, "uploadState") == Str("SUCCEEDED") then
      var crx := Field(res, "crxVersion");
      var ours := ParseStoreVersion(version);
      if crx.Str? && ours.Some? && ParseStoreVersion(crx.s) == ours then Done else Failed
    else if Field(res, "uploadState") in {Str("IN_PROGRESS"), Str("UPLOAD_IN_PROGRESS")} then Poll
    else Failed
  }

  function InterpretAsyncUploadState(status: Value, item: string): Upload
  {
    if Field(status, "itemId") != Str(item) then Failed
    else
      var state := Field(status, "lastAsyncUploadState");
      if state == Str("SUCCEEDED") then Done
      else if state in {Str("IN_PROGRESS"), Str("UPLOAD_IN_PROGRESS")} then Poll
      else Failed
  }

  // ----- warnings -----

  predicate NamesReason(entry: Value)
  {
    Field(entry, "reason").Str? && Field(entry, "reason").s != ""
  }

  /** `readWarnings`, reduced to the reasons: readable exactly when every entry names one. */
  method ReadWarnings(value: Value) returns (r: Option<seq<string>>)
    ensures r == WarningsIn(value)
  {
    if !value.Arr? {
      return None;
    }
    var reasons := [];
    for i := 0 to |value.items|
      invariant |reasons| == i
      invariant forall j | 0 <= j < i :: NamesReason(value.items[j]) && reasons[j] == Field(value.items[j], "reason").s
    {
      if !NamesReason(value.items[i]) {
        return None;
      }
      reasons := reasons + [Field(value.items[i], "reason").s];
    }
    assert reasons == WarningsIn(value).value;
    return Some(reasons);
  }

  function WarningsIn(value: Value): Option<seq<string>>
  {
    if value.Arr? && forall i | 0 <= i < |value.items| :: NamesReason(value.items[i]) then
      Some(seq(|value.items|, i requires 0 <= i < |value.items| => Field(value.items[i], "reason").s))
    else None
  }

  datatype Detail = Confirmation | Warnings(reasons: seq<string>) | Inert | Unreadable

  function ClassifyDetail(detail: Value, item: string): Detail
  {
    var kind := Field(detail, "@type");
    if !kind.Str? then Unreadable
    else if kind.s in INERT_DETAILS then Inert
    else if kind.s == WARNINGS_INFO then
      match WarningsIn(Field(detail, "warnings"))
      case Some(reasons) => Warnings(reasons)
      case None => Unreadable
    else if kind.s != ERROR_INFO then Unreadable
    else if && Field(detail, "reason") == Str("MANUAL_CONFIRMATION_REQUIRED")
            && Field(detail, "domain") == Str("chromewebstore.googleapis.com")
            && Field(Field(detail, "metadata"), "itemId") == Str(item) then Confirmation
    else Unreadable
  }

  function Classified(details: seq<Value>, item: string): (ds: seq<Detail>)
    ensures |ds| == |details| && forall i | 0 <= i < |ds| :: ds[i] == ClassifyDetail(details[i], item)
  {
    seq(|details|, i requires 0 <= i < |details| => ClassifyDetail(details[i], item))
  }

  function Reasons(ds: seq<Detail>): seq<string>
  {
    if ds == [] then [] else (if ds[0].Warnings? then ds[0].reasons else []) + Reasons(ds[1..])
  }

  function Confirmations(ds: seq<Detail>): nat
  {
    if ds == [] then 0 else (if ds[0].Confirmation? then 1 else 0) + Confirmations(ds[1..])
  }

  /** `acceptedWarnings`: the reasons a refused publish may proceed past. */
  function AcceptedWarnings(res: Value, status: int, item: string): Option<seq<string>>
  {
    var error := Field(res, "error");
    if status != 400 || Field(error, "status") != Str("FAILED_PRECONDITION") || !Field(error, "details").Arr? then None
    else if !Field(res, "state").Undefined? || !Field(res, "warningInfo").Undefined? then None
    else
      var ds := Classified(Field(error, "details").items, item);
      var reasons := Reasons(ds);
      if (exists d | d in ds :: d.Unreadable?) || Confirmations(ds) != 1 then None
      else if reasons != [] && forall r | r in reasons :: r in ACCEPTED_WARNINGS then Some(reasons)
      else None
  }

  lemma {:induction false} ReasonsHold(ds: seq<Detail>, d: Detail, r: string)
    requires d in ds && d.Warnings? && r in d.reasons
    ensures r in Reasons(ds)
  {
    if ds[0] != d { ReasonsHold(ds[1..], d, r); }
  }

  lemma {:induction false} OneConfirmation(ds: seq<Detail>, i: nat, j: nat)
    requires i < j < |ds| && ds[i].Confirmation? && ds[j].Confirmation?
    ensures Confirmations(ds) >= 2
  {
    if i > 0 {
      OneConfirmation(ds[1..], i - 1, j - 1);
    } else {
      SomeConfirmation(ds[1..], j - 1);
    }
  }

  lemma {:induction false} SomeConfirmation(ds: seq<Detail>, i: nat)
    requires i < |ds| && ds[i].Confirmation?
    ensures Confirmations(ds) >= 1
  {
    if i > 0 { SomeConfirmation(ds[1..], i - 1); }
  }

  /** A refusal that licenses a retry hides nothing: every one of its details is understood, every
      warning any of them carries is the one accepted reason, and no two details confirm our item. */
  lemma LicenceHidesNothing(res: Value, status: int, item: string, i: nat)
    requires AcceptedWarnings(res, status, item).Some?
    requires i < |Field(Field(res, "error"), "details").items|
    ensures var detail := Field(Field(res, "error"), "details").items[i];
      && (Field(detail, "@type") == Str(WARNINGS_INFO) ==>
            && Field(detail, "warnings").Arr?
            && forall w | w in Field(detail, "warnings").items :: Field(w, "reason") == Str("BROAD_HOST_USAGE"))
      && (Field(detail, "@type") == Str(ERROR_INFO) ==>
            && Field(Field(detail, "metadata"), "itemId") == Str(item)
            && forall j | 0 <= j < |Field(Field(res, "error"), "details").items| && j != i ::
                 Field(Field(Field(res, "error"), "details").items[j], "@type") != Str(ERROR_INFO))
      && Field(detail, "@type") in {Str(WARNINGS_INFO), Str(ERROR_INFO)} + set t | t in INERT_DETAILS :: Str(t)
  {
    var details := Field(Field(res, "error"), "details").items;
    var ds := Classified(details, item);
    assert ds[i] in ds && !ds[i].Unreadable?;
    if ds[i].Warnings? {
      forall w | w in Field(details[i], "warnings").items ensures Field(w, "reason") == Str("BROAD_HOST_USAGE") {
        var k :| 0 <= k < |Field(details[i], "warnings").items| && Field(details[i], "warnings").items[k] == w;
        assert Field(w, "reason").s == ds[i].reasons[k];
        ReasonsHold(ds, ds[i], ds[i].reasons[k]);
      }
    }
    if Field(details[i], "@type") == Str(ERROR_INFO) {
      assert ds[i].Confirmation?;
      forall j | 0 <= j < |details| && j != i ensures Field(details[j], "@type") != Str(ERROR_INFO) {
        assert ds[j] in ds && !ds[j].Unreadable?;
        if ds[j].Confirmation? {
          if i < j { OneConfirmation(ds, i, j); } else { OneConfirmation(ds, j, i); }
        }
      }
    }
  }

  // ----- publish -----

  function InterpretPublish(res: Value, status: int): bool
  {
    status < 400 &&
    Field(res, "state") in {Str("PENDING_REVIEW"), Str("STAGED"), Str("PUBLISHED"), Str("PUBLISHED_TO_TESTERS")}
  }

  /** The verdict on the retry: a taken submission that lists a stranger warning is a failure. */
  function InterpretAcceptedPublish(res: Value, status: int): bool
  {
    var info := Field(res, "warningInfo");
    InterpretPublish(res, status) &&
    (info.Undefined? ||
     (info.Obj? &&
      var listed := if IsNullish(Field(info, "warnings")) then Arr([]) else Field(info, "warnings");
      WarningsIn(listed).Some? && forall r | r in WarningsIn(listed).value :: r in ACCEPTED_WARNINGS))
  }

  /** A refusal that licenses the retry is never itself a success. */
  lemma RefusalIsNoSuccess(res: Value, status: int, item: string)
    requires AcceptedWarnings(res, status, item).Some?
    ensures !InterpretPublish(res, status) && !InterpretAcceptedPublish(res, status)
  {
  }

  // ----- the answers' fields -----

  /** The answer is about our item. */
  predicate ForItem(v: Value, item: string) { Field(v, "itemId") == Str(item) }

  predicate SaysInProgress(state: Value) { state == Str("IN_PROGRESS") || state == Str("UPLOAD_IN_PROGRESS") }

  /** The upload answered that it is complete, for our item and at our version. */
  predicate UploadComplete(res: Value, item: string, version: string)
  {
    var crx, ours := Field(res, "crxVersion"), ParseStoreVersion(version);
    && ForItem(res, item) && Field(res, "uploadState") == Str("SUCCEEDED") && ours.Some?
    && crx.Str? && ParseStoreVersion(crx.s).Some? && Rank(ParseStoreVersion(crx.s).value) == Rank(ours.value)
  }

  lemma {:induction false} UploadReadExactly(res: Value, item: string, version: string)
    ensures InterpretUpload(res, item, version) == Done <==> UploadComplete(res, item, version)
    ensures InterpretUpload(res, item, version) == Poll <==>
            ForItem(res, item) && SaysInProgress(Field(res, "uploadState"))
  {
    var crx, ours := Field(res, "crxVersion"), ParseStoreVersion(version);
    if crx.Str? && ours.Some? && ParseStoreVersion(crx.s).Some? {
      OrderIsNumeric(ParseStoreVersion(crx.s).value, ours.value);
    }
  }

  lemma {:induction false} AsyncReadExactly(status: Value, item: string)
    ensures InterpretAsyncUploadState(status, item) == Done <==>
            ForItem(status, item) && Field(status, "lastAsyncUploadState") == Str("SUCCEEDED")
    ensures InterpretAsyncUploadState(status, item) == Poll <==>
            ForItem(status, item) && SaysInProgress(Field(status, "lastAsyncUploadState"))
  {
  }

  /** A revision the store lists leaves room for our version: there is none, or its state is one of
      the six documented ones and every channel it lists is at a lower version. */
  predicate LeavesRoom(revision: Value, ours: seq<nat>)
    requires IsVersion(ours)
  {
    var state, channels := Field(revision, "state"), Field(revision, "distributionChannels");
    revision == Undefined ||
    (&& state in {Str("PENDING_REVIEW"), Str("STAGED"), Str("PUBLISHED"), Str("PUBLISHED_TO_TESTERS"),
                  Str("REJECTED"), Str("CANCELLED")}
     && (channels == Undefined ||
         (channels.Arr? && forall c | c in channels.items ::
            && Field(c, "crxVersion").Str? && ParseStoreVersion(Field(c, "crxVersion").s).Some?
            && Rank(ParseStoreVersion(Field(c, "crxVersion").s).value) < Rank(ours))))
  }

  /** The status lets our version be uploaded: it is our item's, the item is up, nothing is pending
      review, and both revisions leave room. */
  predicate MayUpload(status: Value, item: string, version: string)
  {
    && ForItem(status, item) && Field(status, "takenDown") != Bool(true)
    && ParseStoreVersion(version).Some?
    && Field(Field(status, "submittedItemRevisionStatus"), "state") != Str("PENDING_REVIEW")
    && LeavesRoom(Field(status, "submittedItemRevisionStatus"), ParseStoreVersion(version).value)
    && LeavesRoom(Field(status, "publishedItemRevisionStatus"), ParseStoreVersion(version).value)
  }

  lemma {:induction false} RoomExact(revision: Value, ours: seq<nat>)
    requires IsVersion(ours)
    ensures Outranked(revision, ours) <==> LeavesRoom(revision, ours)
  {
    var channels := Field(revision, "distributionChannels");
    if channels.Arr? {
      forall c | c in channels.items && ChannelVersion(c).Some?
        ensures Below(ChannelVersion(c).value, ours) <==> Rank(ChannelVersion(c).value) < Rank(ours)
      {
        OrderIsNumeric(ChannelVersion(c).value, ours);
      }
    }
  }

  lemma {:induction false} EligibleExact(status: Value, item: string, version: string)
    ensures Eligible(status, item, version) <==> MayUpload(status, item, version)
  {
    if ParseStoreVersion(version).Some? {
      RoomExact(Field(status, "submittedItemRevisionStatus"), ParseStoreVersion(version).value);
      RoomExact(Field(status, "publishedItemRevisionStatus"), ParseStoreVersion(version).value);
    }
  }

  // ----- the refusal that licenses a retry -----

  predicate IsWarnings(d: Value)
  {
    && Field(d, "@type") == Str("type.googleapis.com/google.chrome.webstore.v2.WarningsInfo")
    && Field(d, "warnings").Arr?
    && forall w | w in Field(d, "warnings").items :: Field(w, "reason") == Str("BROAD_HOST_USAGE")
  }

  predicate Confirms(d: Value, item: string)
  {
    && Field(d, "@type") == Str("type.googleapis.com/google.rpc.ErrorInfo")
    && Field(d, "reason") == Str("MANUAL_CONFIRMATION_REQUIRED")
    && Field(d, "domain") == Str("chromewebstore.googleapis.com")
    && ForItem(Field(d, "metadata"), item)
  }

  predicate SaysNothing(d: Value)
  {
    || Field(d, "@type") == Str("type.googleapis.com/google.rpc.LocalizedMessage")
    || Field(d, "@type") == Str("type.googleapis.com/google.rpc.Help")
  }

  ghost predicate AcceptedDetails(details: seq<Value>, item: string)
  {
    && (forall d | d in details :: IsWarnings(d) || Confirms(d, item) || SaysNothing(d))
    && (exists i :: ConfirmsOnlyAt(details, item, i))
    && (exists d | d in details :: IsWarnings(d) && Field(d, "warnings").items != [])
  }

  /** A refusal on accepted warnings alone: HTTP 400, a failed precondition, no success field, every
      detail a list of accepted warnings, inert, or the one confirmation for our item, and at least
      one warning. */
  ghost predicate RefusedOnAcceptedWarnings(res: Value, status: int, item: string)
  {
    var error := Field(res, "error");
    var details := Field(error, "details");
    && status == 400 && Field(error, "status") == Str("FAILED_PRECONDITION") && details.Arr?
    && Field(res, "state") == Undefined && Field(res, "warningInfo") == Undefined
    && AcceptedDetails(details.items, item)
  }

  predicate Acceptable(d: Detail) { d.Warnings? ==> forall r | r in d.reasons :: r == "BROAD_HOST_USAGE" }

  /** What a classified detail says, and that an unreadable one or one with a strange warning is none
      of the three admitted kinds. */
  lemma {:induction false} DetailExact(d: Value, item: string)
    ensures var c := ClassifyDetail(d, item);
      && (c.Confirmation? <==> Confirms(d, item))
      && (c.Warnings? && Acceptable(c) <==> IsWarnings(d))
      && (c.Inert? <==> SaysNothing(d))
      && (c.Warnings? && Acceptable(c) ==> (c.reasons == [] <==> Field(d, "warnings").items == []))
  {
    var c, warnings := ClassifyDetail(d, item), Field(d, "warnings");
    if c.Warnings? {
      assert forall i | 0 <= i < |c.reasons| :: c.reasons[i] == Field(warnings.items[i], "reason").s;
      if Acceptable(c) {
        forall w | w in warnings.items ensures Field(w, "reason") == Str("BROAD_HOST_USAGE") {
          var i :| 0 <= i < |warnings.items| && warnings.items[i] == w;
          assert c.reasons[i] in c.reasons;
        }
      }
      if IsWarnings(d) {
        forall r | r in c.reasons ensures r == "BROAD_HOST_USAGE" {
          var i :| 0 <= i < |c.reasons| && c.reasons[i] == r;
          assert warnings.items[i] in warnings.items;
        }
      }
    }
    if IsWarnings(d) {
      forall i | 0 <= i < |warnings.items| ensures NamesReason(warnings.items[i]) {
        assert warnings.items[i] in warnings.items;
      }
      assert WarningsIn(warnings).Some?;
    }
  }

  lemma {:induction false} ReasonsExact(ds: seq<Detail>)
    ensures (forall r | r in Reasons(ds) :: r == "BROAD_HOST_USAGE") <==> forall d | d in ds :: Acceptable(d)
    ensures Reasons(ds) != [] <==> exists d | d in ds :: d.Warnings? && d.reasons != []
  {
    if ds != [] {
      var first := if ds[0].Warnings? then ds[0].reasons else [];
      ReasonsExact(ds[1..]);
      assert forall d :: d in ds <==> d == ds[0] || d in ds[1..];
      assert forall r :: r in Reasons(ds) <==> r in first || r in Reasons(ds[1..]);
      assert Acceptable(ds[0]) <==> forall r | r in first :: r == "BROAD_HOST_USAGE";
    }
  }

  lemma {:induction false} NoConfirmation(ds: seq<Detail>)
    requires forall j | 0 <= j < |ds| :: !ds[j].Confirmation?
    ensures Confirmations(ds) == 0
  {
    if ds != [] { NoConfirmation(ds[1..]); }
  }

  /** Exactly one detail confirms. */
  predicate OnlyAt(ds: seq<Detail>, i: nat)
  {
    i < |ds| && ds[i].Confirmation? && forall j | 0 <= j < |ds| && j != i :: !ds[j].Confirmation?
  }

  lemma {:induction false} OneConfirms(ds: seq<Detail>)
    ensures Confirmations(ds) == 1 <==> exists i :: OnlyAt(ds, i)
  {
    if i :| OnlyAt(ds, i) {
      OnlyAtCounts(ds, i);
    }
    if Confirmations(ds) == 1 {
      if forall j | 0 <= j < |ds| :: !ds[j].Confirmation? {
        NoConfirmation(ds);
      } else {
        var i :| 0 <= i < |ds| && ds[i].Confirmation?;
        forall j | 0 <= j < |ds| && j != i ensures !ds[j].Confirmation? {
          if ds[j].Confirmation? {
            if i < j { OneConfirmation(ds, i, j); } else { OneConfirmation(ds, j, i); }
          }
        }
        assert OnlyAt(ds, i);
      }
    }
  }

  lemma {:induction false} OnlyAtCounts(ds: seq<Detail>, i: nat)
    requires OnlyAt(ds, i)
    ensures Confirmations(ds) == 1
  {
    if i == 0 {
      NoConfirmation(ds[1..]);
    } else {
      assert OnlyAt(ds[1..], i - 1);
      OnlyAtCounts(ds[1..], i - 1);
    }
  }

  lemma {:induction false} DetailsExact(details: seq<Value>, item: string)
    ensures var ds := Classified(details, item);
      && ((forall d | d in ds :: !d.Unreadable? && Acceptable(d)) <==>
          forall d | d in details :: IsWarnings(d) || Confirms(d, item) || SaysNothing(d))
  {
    var ds := Classified(details, item);
    forall i | 0 <= i < |details|
      ensures !ds[i].Unreadable? && Acceptable(ds[i]) <==>
              IsWarnings(details[i]) || Confirms(details[i], item) || SaysNothing(details[i])
    {
      DetailExact(details[i], item);
    }
    if forall d | d in details :: IsWarnings(d) || Confirms(d, item) || SaysNothing(d) {
      forall d | d in ds ensures !d.Unreadable? && Acceptable(d) {
        var i :| 0 <= i < |ds| && ds[i] == d;
        assert details[i] in details;
      }
    }
    if forall d | d in ds :: !d.Unreadable? && Acceptable(d) {
      forall d | d in details ensures IsWarnings(d) || Confirms(d, item) || SaysNothing(d) {
        var i :| 0 <= i < |details| && details[i] == d;
        assert ds[i] in ds;
      }
    }
  }

  predicate ConfirmsOnlyAt(details: seq<Value>, item: string, i: nat)
  {
    && i < |details| && Confirms(details[i], item)
    && forall j | 0 <= j < |details| && j != i :: !Confirms(details[j], item)
  }

  lemma {:induction false} OnlyAtExact(details: seq<Value>, item: string, i: nat)
    ensures OnlyAt(Classified(details, item), i) <==> ConfirmsOnlyAt(details, item, i)
  {
    var ds := Classified(details, item);
    forall j | 0 <= j < |details| ensures ds[j].Confirmation? <==> Confirms(details[j], item) {
      DetailExact(details[j], item);
    }
  }

  lemma {:induction false} ConfirmedExact(details: seq<Value>, item: string)
    ensures Confirmations(Classified(details, item)) == 1 <==> exists i :: ConfirmsOnlyAt(details, item, i)
  {
    OneConfirms(Classified(details, item));
    forall i: nat ensures OnlyAt(Classified(details, item), i) <==> ConfirmsOnlyAt(details, item, i) {
      OnlyAtExact(details, item, i);
    }
  }

  lemma {:induction false} WarnedExact(details: seq<Value>, item: string)
    requires forall d | d in Classified(details, item) :: Acceptable(d)
    ensures Reasons(Classified(details, item)) != [] <==>
            exists d | d in details :: IsWarnings(d) && Field(d, "warnings").items != []
  {
    var ds := Classified(details, item);
    ReasonsExact(ds);
    forall i | 0 <= i < |details|
      ensures ds[i].Warnings? && ds[i].reasons != [] <==>
              IsWarnings(details[i]) && Field(details[i], "warnings").items != []
    {
      DetailExact(details[i], item);
      assert ds[i] in ds;
    }
    if d :| d in ds && d.Warnings? && d.reasons != [] {
      var i :| 0 <= i < |ds| && ds[i] == d;
      assert details[i] in details;
    }
    if d :| d in details && IsWarnings(d) && Field(d, "warnings").items != [] {
      var i :| 0 <= i < |details| && details[i] == d;
      assert ds[i] in ds;
    }
  }

  /** What the runner makes of the details it classified. */
  predicate Licenses(ds: seq<Detail>)
  {
    && !(exists d | d in ds :: d.Unreadable?) && Confirmations(ds) == 1
    && Reasons(ds) != [] && forall r | r in Reasons(ds) :: r in ACCEPTED_WARNINGS
  }

  lemma {:induction false} LicensingDetails(details: seq<Value>, item: string)
    ensures Licenses(Classified(details, item)) <==> AcceptedDetails(details, item)
  {
    var ds := Classified(details, item);
    DetailsExact(details, item);
    ConfirmedExact(details, item);
    ReasonsExact(ds);
    if forall d | d in ds :: Acceptable(d) { WarnedExact(details, item); }
  }

  /** A refusal licenses the retry exactly when it is one on accepted warnings alone. */
  lemma {:induction false} LicenceExact(res: Value, status: int, item: string)
    ensures AcceptedWarnings(res, status, item).Some? <==> RefusedOnAcceptedWarnings(res, status, item)
  {
    var details := Field(Field(res, "error"), "details");
    if details.Arr? { LicensingDetails(details.items, item); }
  }

  // ----- the submission -----

  /** The store took the submission. */
  predicate Took(res: Value, status: int)
  {
    var state := Field(res, "state");
    status < 400 && (state == Str("PENDING_REVIEW") || state == Str("STAGED") || state == Str("PUBLISHED") ||
                     state == Str("PUBLISHED_TO_TESTERS"))
  }

  /** It took it and lists no warning it was not asked to ignore. */
  predicate TookWithAccepted(res: Value, status: int)
  {
    var info := Field(res, "warningInfo");
    var listed := Field(info, "warnings");
    && Took(res, status)
    && (info == Undefined ||
        (info.Obj? &&
         (listed == Undefined || listed == Null ||
          (listed.Arr? && forall w | w in listed.items :: Field(w, "reason") == Str("BROAD_HOST_USAGE")))))
  }

  lemma {:induction false} TakenExact(res: Value, status: int)
    ensures InterpretPublish(res, status) <==> Took(res, status)
    ensures InterpretAcceptedPublish(res, status) <==> TookWithAccepted(res, status)
  {
    var listed := Field(Field(res, "warningInfo"), "warnings");
    if listed.Arr? { ListedExact(listed); }
  }

  lemma {:induction false} ListedExact(listed: Value)
    requires listed.Arr?
    ensures WarningsIn(listed).Some? && (forall r | r in WarningsIn(listed).value :: r in ACCEPTED_WARNINGS) <==>
            forall w | w in listed.items :: Field(w, "reason") == Str("BROAD_HOST_USAGE")
  {
    if forall w | w in listed.items :: Field(w, "reason") == Str("BROAD_HOST_USAGE") {
      forall i | 0 <= i < |listed.items| ensures NamesReason(listed.items[i]) {
        assert listed.items[i] in listed.items;
      }
    }
    if WarningsIn(listed).Some? {
      var rs := WarningsIn(listed).value;
      assert forall i | 0 <= i < |listed.items| :: rs[i] == Field(listed.items[i], "reason").s && rs[i] in rs;
      assert forall i | 0 <= i < |listed.items| :: listed.items[i] in listed.items;
    }
  }
}
