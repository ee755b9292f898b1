/** The publish runner (scripts/release/publish-chrome-store-run.ts): preflight, upload, poll,
    publish and at most one retry, as a protocol over the events it leaves behind. */
module PublishRun {
  import opened Wrappers
  import opened Wire
  import opened Text
  import opened StoreVersion
  import opened StorePublish

  const UPLOAD_DEADLINE_MS := 180_000
  const POLL_INTERVAL_MS := 5_000

  /** What one publishing run is about; `version` is the manifest's store version. */
  datatype Job = Job(publisher: string, item: string, version: string, publishType: string, zip: seq<bv8>)

  datatype Request =
    | StatusRequest(publisher: string, item: string)
    | UploadRequest(publisher: string, item: string, zip: seq<bv8>)
    | PublishRequest(publisher: string, item: string, publishType: string, blockOnWarnings: bool)

  /** A request may time out; otherwise the store answers with a status and a JSON body. */
  datatype Answer = Lost | Answer(status: int, json: Value)

  /** A request with its answer, or a line written to the job summary. */
  datatype Event = Exchange(request: Request, answer: Answer) | Note

  /** `call`'s verdict on an answer. */
  predicate Usable(a: Answer, keep4xx: bool)
  {
    a.Answer? && IsObject(a.json) && (a.status < 400 || (keep4xx && a.status < 500))
  }

  // ----- the protocol -----

  datatype Phase =
    | Preflight | Uploading | Polling | Publishing | Warned | Retrying
    | Closing(ok: bool) | Stopped(ok: bool)

  /** The event a run in a given phase may produce next, whatever the store answers. */
  predicate Emits(p: Phase, e: Event, job: Job)
  {
    match p
    case Preflight => e.Exchange? && e.request == StatusRequest(job.publisher, job.item)
    case Uploading => e.Exchange? && e.request == UploadRequest(job.publisher, job.item, job.zip)
    case Polling => e.Exchange? && e.request == StatusRequest(job.publisher, job.item)
    case Publishing => e.Exchange? && e.request == PublishRequest(job.publisher, job.item, job.publishType, true)
    case Warned => e.Note?
    case Retrying => e.Exchange? && e.request == PublishRequest(job.publisher, job.item, job.publishType, false)
    case Closing(_) => e.Note?
    case Stopped(_) => false
  }

  function AfterUpload(u: Upload): Phase
  {
    match u
    case Done => Publishing
    case Poll => Polling
    case Failed => Stopped(false)
  }

  ghost function AfterPreflight(a: Answer, job: Job): Phase
  {
    if Usable(a, false) && Eligible(a.json, job.item, job.version) then Uploading else Stopped(false)
  }

  ghost function AfterPublish(a: Answer, job: Job): Phase
  {
    if !Usable(a, true) then Stopped(false)
    else if AcceptedWarnings(a.json, a.status, job.item).Some? then Warned
    else Stopped(InterpretPublish(a.json, a.status))
  }

  ghost function Next(p: Phase, e: Event, job: Job): Phase
    requires Emits(p, e, job)
  {
    match p
    case Preflight => AfterPreflight(e.answer, job)
    case Uploading =>
      AfterUpload(if Usable(e.answer, false) then InterpretUpload(e.answer.json, job.item, job.version) else Failed)
    case Polling =>
      AfterUpload(if Usable(e.answer, false) then InterpretAsyncUploadState(e.answer.json, job.item) else Failed)
    case Publishing => AfterPublish(e.answer, job)
    case Warned => Retrying
    case Retrying => Closing(Usable(e.answer, true) && InterpretAcceptedPublish(e.answer.json, e.answer.status))
    case Closing(ok) => Stopped(ok)
  }

  /** The phase the first k events lead to, when each of them is one the protocol may produce. */
  ghost function PhaseAt(t: seq<Event>, k: nat, job: Job): Option<Phase>
    requires k <= |t|
  {
    if k == 0 then Some(Preflight) else Follow(PhaseAt(t, k - 1, job), t[k - 1], job)
  }

  ghost function Follow(before: Option<Phase>, e: Event, job: Job): Option<Phase>
  {
    if before.Some? && Emits(before.value, e, job) then Some(Next(before.value, e, job)) else None
  }

  ghost function PhaseAfter(t: seq<Event>, job: Job): Option<Phase> { PhaseAt(t, |t|, job) }

  ghost predicate Conforms(t: seq<Event>, job: Job) { PhaseAfter(t, job).Some? }

  lemma {:induction false} PhaseOfPrefix(t: seq<Event>, e: Event, k: nat, job: Job)
    requires k <= |t|
    ensures PhaseAt(t + [e], k, job) == PhaseAt(t, k, job)
  {
    if k > 0 {
      PhaseOfPrefix(t, e, k - 1, job);
      assert (t + [e])[k - 1] == t[k - 1];
    }
  }

  lemma PhaseExtends(t: seq<Event>, e: Event, job: Job)
    requires Conforms(t, job) && Emits(PhaseAfter(t, job).value, e, job)
    ensures PhaseAfter(t + [e], job) == Some(Next(PhaseAfter(t, job).value, e, job))
  {
    PhaseOfPrefix(t, e, |t|, job);
  }

  lemma {:induction false} PrefixConforms(t: seq<Event>, job: Job, i: nat, k: nat)
    requires i < k <= |t| && PhaseAt(t, k, job).Some?
    ensures PhaseAt(t, i, job).Some? && Emits(PhaseAt(t, i, job).value, t[i], job)
  {
    if i < k - 1 { PrefixConforms(t, job, i, k - 1); }
  }

  // ----- what a trace says, by the fields of the store's answers -----

  /** The request was answered with a JSON object below the given status. */
  predicate Answered(e: Event, request: Request, below: int)
  {
    && e.Exchange? && e.request == request
    && e.answer.Answer? && (e.answer.json.Obj? || e.answer.json.Arr?) && e.answer.status < below
  }

  /** The preflight's status is our item's and leaves room for our version. */
  predicate Accepting(e: Event, job: Job)
  {
    Answered(e, StatusRequest(job.publisher, job.item), 400) && MayUpload(e.answer.json, job.item, job.version)
  }

  predicate UploadDone(e: Event, job: Job)
  {
    && Answered(e, UploadRequest(job.publisher, job.item, job.zip), 400)
    && UploadComplete(e.answer.json, job.item, job.version)
  }

  predicate UploadGoing(e: Event, job: Job)
  {
    && Answered(e, UploadRequest(job.publisher, job.item, job.zip), 400)
    && ForItem(e.answer.json, job.item) && SaysInProgress(Field(e.answer.json, "uploadState"))
  }

  predicate PollDone(e: Event, job: Job)
  {
    && Answered(e, StatusRequest(job.publisher, job.item), 400)
    && ForItem(e.answer.json, job.item) && Field(e.answer.json, "lastAsyncUploadState") == Str("SUCCEEDED")
  }

  predicate PollGoing(e: Event, job: Job)
  {
    && Answered(e, StatusRequest(job.publisher, job.item), 400)
    && ForItem(e.answer.json, job.item) && SaysInProgress(Field(e.answer.json, "lastAsyncUploadState"))
  }

  /** The first k events: an accepting preflight, then an upload the store says is still going, then
      only such polls. */
  predicate StillUploading(t: seq<Event>, k: nat, job: Job)
    requires k <= |t|
  {
    k >= 2 && Accepting(t[0], job) && UploadGoing(t[1], job) && forall j | 2 <= j < k :: PollGoing(t[j], job)
  }

  /** The first k events: an accepting preflight and a completed upload naming our item, at once or
      through polls. */
  predicate Uploaded(t: seq<Event>, k: nat, job: Job)
    requires k <= |t|
  {
    || (k == 2 && Accepting(t[0], job) && UploadDone(t[1], job))
    || (k > 2 && StillUploading(t, k - 1, job) && PollDone(t[k - 1], job))
  }

  ghost predicate Refused(e: Event, job: Job)
  {
    && Answered(e, PublishRequest(job.publisher, job.item, job.publishType, true), 500)
    && RefusedOnAcceptedWarnings(e.answer.json, e.answer.status, job.item)
  }

  /** A completed upload, then a publish refused on accepted warnings alone. */
  ghost predicate Licensed(t: seq<Event>, k: nat, job: Job)
    requires k <= |t|
  {
    k >= 1 && Uploaded(t, k - 1, job) && Refused(t[k - 1], job)
  }

  /** The retry was taken, with no warning but accepted ones. */
  predicate TakenAnyway(e: Event, job: Job)
  {
    && Answered(e, PublishRequest(job.publisher, job.item, job.publishType, false), 400)
    && TookWithAccepted(e.answer.json, e.answer.status)
  }

  /** Licence, summary line, and the retry with the given verdict. */
  ghost predicate Retried(t: seq<Event>, k: nat, job: Job, ok: bool)
    requires k <= |t|
  {
    && k >= 2 && Licensed(t, k - 2, job) && t[k - 2].Note? && t[k - 1].Exchange?
    && t[k - 1].request == PublishRequest(job.publisher, job.item, job.publishType, false)
    && ok == TakenAnyway(t[k - 1], job)
  }

  predicate TakenAtOnce(e: Event, job: Job)
  {
    && Answered(e, PublishRequest(job.publisher, job.item, job.publishType, true), 400)
    && Took(e.answer.json, e.answer.status)
  }

  /** Event m is where the store took the submission: the first publish, or the line after the
      licensed retry. */
  ghost predicate TakenAt(t: seq<Event>, m: nat, job: Job)
    requires m < |t|
  {
    || (Uploaded(t, m, job) && TakenAtOnce(t[m], job))
    || (Retried(t, m, job, true) && t[m].Note?)
  }

  ghost predicate Succeeded(t: seq<Event>, k: nat, job: Job)
    requires k <= |t|
  {
    k >= 1 && TakenAt(t, k - 1, job)
  }

  /** No answer to the event's request lets the run go on or succeed. */
  ghost predicate Stops(p: Phase, e: Event, job: Job)
  {
    match p
    case Preflight => !Accepting(e, job)
    case Uploading => !UploadDone(e, job) && !UploadGoing(e, job)
    case Polling => !PollDone(e, job) && !PollGoing(e, job)
    case Publishing => !Refused(e, job) && !TakenAtOnce(e, job)
    case Closing(ok) => !ok
    case _ => false
  }

  /** The run was in the phase, and the answer to its next request lets it go no further. */
  ghost predicate RefutedIn(q: Phase, t: seq<Event>, k: nat, job: Job)
    requires k <= |t|
  {
    k >= 1 && Underway(q, t, k - 1, job) && Emits(q, t[k - 1], job) && Stops(q, t[k - 1], job)
  }

  ghost predicate Refuted(t: seq<Event>, k: nat, job: Job)
    requires k <= |t|
  {
    exists q :: RefutedIn(q, t, k, job)
  }

  /** What it means for a run to be in a phase it may go on from. */
  ghost predicate Underway(p: Phase, t: seq<Event>, k: nat, job: Job)
    requires k <= |t|
  {
    match p
    case Preflight => k == 0
    case Uploading => k == 1 && Accepting(t[0], job)
    case Polling => StillUploading(t, k, job)
    case Publishing => Uploaded(t, k, job)
    case Warned => Licensed(t, k, job)
    case Retrying => k >= 1 && t[k - 1].Note? && Licensed(t, k - 1, job)
    case Closing(ok) => Retried(t, k, job, ok)
    case Stopped(_) => false
  }

  ghost predicate Means(p: Phase, t: seq<Event>, k: nat, job: Job)
    requires k <= |t|
  {
    match p
    case Stopped(ok) => if ok then Succeeded(t, k, job) else Refuted(t, k, job)
    case _ => Underway(p, t, k, job)
  }

  /** A trace leads to a phase exactly when its answers' fields say what the phase means. */
  lemma {:induction false} PhaseExact(t: seq<Event>, k: nat, job: Job, p: Phase)
    requires k <= |t|
    ensures PhaseAt(t, k, job) == Some(p) <==> Means(p, t, k, job)
  {
    if PhaseAt(t, k, job).Some? { PhaseMeaning(t, k, job); }
    if Means(p, t, k, job) {
      if p == Stopped(false) { RefutedReached(t, k, job); } else { MeaningReached(t, k, job, p); }
    }
  }

  lemma {:induction false} PhaseMeaning(t: seq<Event>, k: nat, job: Job)
    requires k <= |t| && PhaseAt(t, k, job).Some?
    ensures Means(PhaseAt(t, k, job).value, t, k, job)
  {
    if k > 0 {
      var p := PhaseAt(t, k - 1, job).value;
      PhaseMeaning(t, k - 1, job);
      StopsExact(p, t[k - 1], job);
      if Stops(p, t[k - 1], job) {
        assert RefutedIn(p, t, k, job);
      } else {
        Carried(t, k, job, p);
      }
    }
  }

  /** One event carries the meaning of a phase to that of the next. */
  lemma {:induction false} Carried(t: seq<Event>, k: nat, job: Job, p: Phase)
    requires 0 < k <= |t| && Underway(p, t, k - 1, job)
    requires Emits(p, t[k - 1], job) && !Stops(p, t[k - 1], job)
    ensures Means(Next(p, t[k - 1], job), t, k, job)
  {
    if p.Preflight? || p.Uploading? {
      UploadingStep(t, k, job, p);
    } else if p.Polling? {
      PollingStep(t, k, job);
    } else if p.Publishing? {
      PublishingStep(t, k, job);
    } else if p.Retrying? {
      RetryLeads(t[k - 1], job, TakenAnyway(t[k - 1], job));
    }
  }

  lemma {:induction false} UploadingStep(t: seq<Event>, k: nat, job: Job, p: Phase)
    requires 0 < k <= |t| && (p.Preflight? || p.Uploading?) && Underway(p, t, k - 1, job)
    requires Emits(p, t[k - 1], job) && !Stops(p, t[k - 1], job)
    ensures Means(Next(p, t[k - 1], job), t, k, job)
  {
    EligibleExact(t[k - 1].answer.json, job.item, job.version);
    UploadReadExactly(t[k - 1].answer.json, job.item, job.version);
  }

  lemma {:induction false} PollingStep(t: seq<Event>, k: nat, job: Job)
    requires 0 < k <= |t| && StillUploading(t, k - 1, job)
    requires Emits(Polling, t[k - 1], job) && !Stops(Polling, t[k - 1], job)
    ensures Means(Next(Polling, t[k - 1], job), t, k, job)
  {
    AsyncReadExactly(t[k - 1].answer.json, job.item);
  }

  lemma {:induction false} StopsExact(p: Phase, e: Event, job: Job)
    requires Emits(p, e, job)
    ensures Next(p, e, job) == Stopped(false) <==> Stops(p, e, job)
  {
    if e.Exchange? && e.answer.Answer? {
      match p
      case Preflight => EligibleExact(e.answer.json, job.item, job.version);
      case Uploading => UploadReadExactly(e.answer.json, job.item, job.version);
      case Polling => AsyncReadExactly(e.answer.json, job.item);
      case Publishing =>
        LicenceExact(e.answer.json, e.answer.status, job.item);
        TakenExact(e.answer.json, e.answer.status);
      case _ =>
    }
  }

  lemma {:induction false} PublishingStep(t: seq<Event>, k: nat, job: Job)
    requires 0 < k <= |t| && Uploaded(t, k - 1, job)
    requires Emits(Publishing, t[k - 1], job) && !Stops(Publishing, t[k - 1], job)
    ensures Means(Next(Publishing, t[k - 1], job), t, k, job)
  {
    var e := t[k - 1];
    LicenceExact(e.answer.json, e.answer.status, job.item);
    TakenExact(e.answer.json, e.answer.status);
  }

  lemma {:induction false} RetryLeads(e: Event, job: Job, ok: bool)
    requires Emits(Retrying, e, job) && ok == TakenAnyway(e, job)
    ensures Next(Retrying, e, job) == Closing(ok)
  {
    if e.answer.Answer? { TakenExact(e.answer.json, e.answer.status); }
  }

  /** What one more event leads to. */
  lemma {:induction false} Reached(t: seq<Event>, k: nat, job: Job, q: Phase)
    requires 0 < k <= |t| && PhaseAt(t, k - 1, job) == Some(q) && Emits(q, t[k - 1], job)
    ensures PhaseAt(t, k, job) == Some(Next(q, t[k - 1], job))
  {
  }

  lemma {:induction false} AcceptingReached(t: seq<Event>, job: Job)
    requires |t| >= 1 && Accepting(t[0], job)
    ensures PhaseAt(t, 1, job) == Some(Uploading)
  {
    EligibleExact(t[0].answer.json, job.item, job.version);
    assert PhaseAt(t, 0, job) == Some(Preflight);
  }

  lemma {:induction false} UploadReached(t: seq<Event>, job: Job)
    requires |t| >= 2 && Accepting(t[0], job)
    ensures UploadDone(t[1], job) ==> PhaseAt(t, 2, job) == Some(Publishing)
    ensures UploadGoing(t[1], job) ==> PhaseAt(t, 2, job) == Some(Polling)
  {
    AcceptingReached(t, job);
    if UploadDone(t[1], job) || UploadGoing(t[1], job) {
      UploadReadExactly(t[1].answer.json, job.item, job.version);
    }
  }

  lemma {:induction false} PollingReached(t: seq<Event>, k: nat, job: Job)
    requires k <= |t| && StillUploading(t, k, job)
    ensures PhaseAt(t, k, job) == Some(Polling)
  {
    if k == 2 {
      UploadReached(t, job);
    } else {
      PollingReached(t, k - 1, job);
      assert PollGoing(t[k - 1], job);
      AsyncReadExactly(t[k - 1].answer.json, job.item);
    }
  }

  lemma {:induction false} UploadedReached(t: seq<Event>, k: nat, job: Job)
    requires k <= |t| && Uploaded(t, k, job)
    ensures PhaseAt(t, k, job) == Some(Publishing)
  {
    if k == 2 {
      UploadReached(t, job);
    } else {
      PollingReached(t, k - 1, job);
      AsyncReadExactly(t[k - 1].answer.json, job.item);
    }
  }

  lemma {:induction false} LicensedReached(t: seq<Event>, k: nat, job: Job)
    requires k <= |t| && Licensed(t, k, job)
    ensures PhaseAt(t, k, job) == Some(Warned)
  {
    UploadedReached(t, k - 1, job);
    LicenceLeads(t[k - 1], job);
    Reached(t, k, job, Publishing);
  }

  lemma {:induction false} LicenceLeads(e: Event, job: Job)
    requires Refused(e, job)
    ensures Emits(Publishing, e, job) && Next(Publishing, e, job) == Warned
  {
    LicenceExact(e.answer.json, e.answer.status, job.item);
  }

  lemma {:induction false} RetryingReached(t: seq<Event>, k: nat, job: Job)
    requires 0 < k <= |t| && t[k - 1].Note? && Licensed(t, k - 1, job)
    ensures PhaseAt(t, k, job) == Some(Retrying)
  {
    LicensedReached(t, k - 1, job);
    NoteRetries(t, k, job);
  }

  lemma {:induction false} NoteRetries(t: seq<Event>, k: nat, job: Job)
    requires 0 < k <= |t| && t[k - 1].Note? && PhaseAt(t, k - 1, job) == Some(Warned)
    ensures PhaseAt(t, k, job) == Some(Retrying)
  {
  }

  lemma {:induction false} RetriedReached(t: seq<Event>, k: nat, job: Job, ok: bool)
    requires k <= |t| && Retried(t, k, job, ok)
    ensures PhaseAt(t, k, job) == Some(Closing(ok))
  {
    RetryingReached(t, k - 1, job);
    RetryLeads(t[k - 1], job, ok);
    Reached(t, k, job, Retrying);
  }

  lemma {:induction false} TakenAtReached(t: seq<Event>, m: nat, k: nat, job: Job)
    requires k == m + 1 <= |t| && TakenAt(t, m, job)
    ensures PhaseAt(t, k, job) == Some(Stopped(true))
  {
    if Retried(t, m, job, true) && t[m].Note? {
      ClosedReached(t, m, k, job, true);
    } else {
      TakenReached(t, m, k, job);
    }
  }

  lemma {:induction false} ClosedReached(t: seq<Event>, m: nat, k: nat, job: Job, ok: bool)
    requires k == m + 1 <= |t| && Retried(t, m, job, ok) && t[m].Note?
    ensures PhaseAt(t, k, job) == Some(Stopped(ok))
  {
    RetriedReached(t, m, job, ok);
    NoteCloses(t, m, k, job, ok);
  }

  lemma {:induction false} NoteCloses(t: seq<Event>, m: nat, k: nat, job: Job, ok: bool)
    requires k == m + 1 <= |t| && PhaseAt(t, m, job) == Some(Closing(ok)) && t[m].Note?
    ensures PhaseAt(t, k, job) == Some(Stopped(ok))
  {
  }

  lemma {:induction false} TakenReached(t: seq<Event>, m: nat, k: nat, job: Job)
    requires k == m + 1 <= |t| && Uploaded(t, m, job) && TakenAtOnce(t[m], job)
    ensures PhaseAt(t, k, job) == Some(Stopped(true))
  {
    UploadedReached(t, m, job);
    TakenLeads(t[m], job);
    Reached(t, k, job, Publishing);
  }

  lemma {:induction false} TakenLeads(e: Event, job: Job)
    requires TakenAtOnce(e, job)
    ensures Emits(Publishing, e, job) && Next(Publishing, e, job) == Stopped(true)
  {
    TakenExact(e.answer.json, e.answer.status);
    if AcceptedWarnings(e.answer.json, e.answer.status, job.item).Some? {
      RefusalIsNoSuccess(e.answer.json, e.answer.status, job.item);
    }
  }

  lemma {:induction false} MeaningReached(t: seq<Event>, k: nat, job: Job, p: Phase)
    requires k <= |t| && Means(p, t, k, job) && p != Stopped(false)
    ensures PhaseAt(t, k, job) == Some(p)
  {
    match p
    case Preflight =>
    case Uploading => AcceptingReached(t, job);
    case Polling => PollingReached(t, k, job);
    case Publishing => UploadedReached(t, k, job);
    case Warned => LicensedReached(t, k, job);
    case Retrying => RetryingReached(t, k, job);
    case Closing(ok) => RetriedReached(t, k, job, ok);
    case Stopped(_) => TakenAtReached(t, k - 1, k, job);
  }

  lemma {:induction false} RefutedReached(t: seq<Event>, k: nat, job: Job)
    requires k <= |t| && Refuted(t, k, job)
    ensures PhaseAt(t, k, job) == Some(Stopped(false))
  {
    var q :| RefutedIn(q, t, k, job);
    MeaningReached(t, k - 1, job, q);
    StopsExact(q, t[k - 1], job);
    Reached(t, k, job, q);
  }

  // ----- safety of every trace -----

  /** Every publish request of a conforming trace follows an accepting preflight and a completed
      upload that names our item; one that does not block on warnings comes right after the
      refusal that licenses it, with only its summary line in between. */
  lemma PublishSafety(t: seq<Event>, job: Job, i: nat)
    requires Conforms(t, job) && i < |t| && t[i].Exchange? && t[i].request.PublishRequest?
    ensures t[i].request == PublishRequest(job.publisher, job.item, job.publishType, t[i].request.blockOnWarnings)
    ensures t[i].request.blockOnWarnings ==> Uploaded(t, i, job)
    ensures !t[i].request.blockOnWarnings ==>
      i >= 2 && t[i - 1].Note? && Refused(t[i - 2], job) && Uploaded(t, i - 2, job)
  {
    PrefixConforms(t, job, i, |t|);
    PhaseMeaning(t, i, job);
  }

  predicate Publishes(e: Event) { e.Exchange? && e.request.PublishRequest? }

  lemma {:induction false} UploadedSendsNoPublish(t: seq<Event>, k: nat, job: Job)
    requires k <= |t| && Uploaded(t, k, job)
    ensures forall i | 0 <= i < k :: !Publishes(t[i])
  {
    forall i | 0 <= i < k ensures !Publishes(t[i]) {
      if 2 <= i < k - 1 { assert PollGoing(t[i], job); }
    }
  }

  /** What went before a publish, by its kind. */
  lemma {:induction false} PublishesBefore(t: seq<Event>, job: Job, j: nat)
    requires Conforms(t, job) && j < |t| && Publishes(t[j])
    ensures t[j].request.blockOnWarnings ==> forall i | 0 <= i < j :: !Publishes(t[i])
    ensures !t[j].request.blockOnWarnings ==>
      && j >= 2 && t[j - 1].Note? && Publishes(t[j - 2]) && t[j - 2].request.blockOnWarnings
      && forall i | 0 <= i < j - 2 :: !Publishes(t[i])
  {
    PublishSafety(t, job, j);
    UploadedSendsNoPublish(t, if t[j].request.blockOnWarnings then j else j - 2, job);
  }

  /** At most one publish of each kind is ever sent: `blockOnWarnings: false` never twice. */
  lemma NoSecondPublish(t: seq<Event>, job: Job, i: nat, j: nat)
    requires Conforms(t, job) && i < j < |t|
    requires t[i].Exchange? && t[i].request.PublishRequest? && t[j].Exchange? && t[j].request.PublishRequest?
    ensures t[i].request.blockOnWarnings && !t[j].request.blockOnWarnings && j == i + 2
  {
    PublishesBefore(t, job, j);
    assert Publishes(t[i]);
  }

  /** Whatever is published lies strictly above every version the preflight listed. */
  lemma PublishedOutranksListed(t: seq<Event>, job: Job, i: nat, theirs: seq<nat>)
    requires Conforms(t, job) && i < |t| && t[i].Exchange? && t[i].request.PublishRequest?
    requires t[0].Exchange? && t[0].answer.Answer? && Listed(t[0].answer.json, theirs)
    ensures IsVersion(theirs) && ParseStoreVersion(job.version).Some?
    ensures Rank(theirs) < Rank(ParseStoreVersion(job.version).value)
  {
    PublishFollowsPreflight(t, job, i);
    EligibleExact(t[0].answer.json, job.item, job.version);
    EligibleOutranksListed(t[0].answer.json, job.item, job.version, theirs);
  }

  lemma PublishFollowsPreflight(t: seq<Event>, job: Job, i: nat)
    requires Conforms(t, job) && i < |t| && t[i].Exchange? && t[i].request.PublishRequest?
    ensures Accepting(t[0], job)
  {
    PublishSafety(t, job, i);
  }

  function Requests(t: seq<Event>): nat
  {
    if t == [] then 0 else Requests(t[..|t| - 1]) + if t[|t| - 1].Exchange? then 1 else 0
  }

  lemma RequestsExtend(t: seq<Event>, e: Event)
    ensures Requests(t + [e]) == Requests(t) + if e.Exchange? then 1 else 0
  {
    assert (t + [e])[..|t|] == t;
  }

  /** Every answer in the trace is the one the store gave. */
  ghost predicate Heard(t: seq<Event>, answers: nat -> Answer)
  {
    var n := |t| - 1;
    t == [] || (Heard(t[..n], answers) && (t[n].Exchange? ==> t[n].answer == answers(n)))
  }

  lemma HeardExtends(t: seq<Event>, e: Event, answers: nat -> Answer)
    requires e.Exchange? ==> e.answer == answers(|t|)
    ensures Heard(t + [e], answers) <==> Heard(t, answers)
  {
    assert (t + [e])[..|t|] == t;
  }

  lemma {:induction false} HeardAt(t: seq<Event>, answers: nat -> Answer, i: nat)
    requires Heard(t, answers) && i < |t| && t[i].Exchange?
    ensures t[i].answer == answers(i)
  {
    if i < |t| - 1 { HeardAt(t[..|t| - 1], answers, i); }
  }

  // ----- the inputs -----

  function Env(env: map<string, string>, key: string): string
  {
    if key in env then env[key] else ""
  }

  /** `readManifest`: the store version, when the zip is the Chrome build of `version`. */
  function ReadManifest(manifest: Option<Value>, version: string): (r: Option<string>)
    ensures r.Some? ==>
      ParseStoreVersion(r.value).Some? && ParseStoreVersion(r.value) == ParseStoreVersion(Split(version, '-')[0])
    ensures r.Some? <==>
      && manifest.Some? && IsObject(manifest.value) && !Has(manifest.value, "browser_specific_settings")
      && Field(manifest.value, "version_name") == Str(version) && Field(manifest.value, "version").Str?
      && |Split(Field(manifest.value, "version").s, '.')| == 4
      && ParseStoreVersion(Field(manifest.value, "version").s).Some?
      && ParseStoreVersion(Field(manifest.value, "version").s) == ParseStoreVersion(Split(version, '-')[0])
  {
    if manifest.None? || !IsObject(manifest.value) then None
    else if Has(manifest.value, "browser_specific_settings") then None
    else if Field(manifest.value, "version_name") != Str(version) then None
    else
      var v := Field(manifest.value, "version");
      var storeVersion := if v.Str? then v.s else "";
      var tuple := ParseStoreVersion(storeVersion);
      if tuple.None? || |Split(storeVersion, '.')| != 4 then None
      else if ParseStoreVersion(Split(version, '-')[0]) != tuple then None
      else Some(storeVersion)
  }

  /** The checks of `run` and `runPublish` that come before the dry-run exit. */
  function PublishInputs(env: map<string, string>, manifest: Option<Value>): (r: Option<string>)
    ensures r.Some? <==>
      && Env(env, "MODE") == "publish" && Env(env, "CWS_PUBLISHER_ID") != "" && Env(env, "CWS_ITEM_ID") != ""
      && (Env(env, "DRY_RUN") == "true" || Env(env, "DRY_RUN") == "false")
      && (Env(env, "CWS_PUBLISH_TYPE") == "DEFAULT_PUBLISH" || Env(env, "CWS_PUBLISH_TYPE") == "STAGED_PUBLISH")
      && Env(env, "VERSION") != "" && Env(env, "ZIP_PATH") != "" && ReadManifest(manifest, Env(env, "VERSION")).Some?
  {
    if Env(env, "MODE") != "publish" || Env(env, "CWS_PUBLISHER_ID") == "" || Env(env, "CWS_ITEM_ID") == "" then None
    else if Env(env, "DRY_RUN") !in {"true", "false"} then None
    else if Env(env, "CWS_PUBLISH_TYPE") !in {"DEFAULT_PUBLISH", "STAGED_PUBLISH"} then None
    else if Env(env, "VERSION") == "" || Env(env, "ZIP_PATH") == "" then None
    else ReadManifest(manifest, Env(env, "VERSION"))
  }

  function JobOf(env: map<string, string>, manifest: Option<Value>, zip: Option<seq<bv8>>): Job
  {
    var version := PublishInputs(env, manifest);
    Job(Env(env, "CWS_PUBLISHER_ID"), Env(env, "CWS_ITEM_ID"), if version.Some? then version.value else "",
        Env(env, "CWS_PUBLISH_TYPE"), if zip.Some? then zip.value else [])
  }

  /** Why a run gives up: the store's answers stop it, the zip cannot be read once the preflight has
      passed, or the upload is still going when the deadline passes. */
  ghost predicate GaveUp(t: seq<Event>, job: Job, zip: Option<seq<bv8>>, elapsed: int)
  {
    || Refuted(t, |t|, job)
    || (zip.None? && |t| == 1 && Accepting(t[0], job))
    || (StillUploading(t, |t|, job) && elapsed >= UPLOAD_DEADLINE_MS)
  }

  // ----- the runner -----

  /** A run against an arbitrary store and an arbitrary clock that never runs backwards: request
      `n` gets the answer `answers(n)`, and each wait takes at least the time asked for. */
  class Runner {
    const answers: nat -> Answer
    const latency: nat -> nat
    const oversleep: nat -> nat
    var trace: seq<Event>
    var clock: int

    constructor (answers: nat -> Answer, latency: nat -> nat, oversleep: nat -> nat, start: int)
      ensures this.answers == answers && this.latency == latency && this.oversleep == oversleep
      ensures trace == [] && clock == start
    {
      this.answers := answers;
      this.latency := latency;
      this.oversleep := oversleep;
      trace := [];
      clock := start;
    }

    method Fetch(request: Request) returns (a: Answer)
      modifies this
      ensures a == answers(|old(trace)|) && trace == old(trace) + [Exchange(request, a)]
      ensures clock >= old(clock)
      ensures Requests(trace) == Requests(old(trace)) + 1 && (Heard(trace, answers) <==> Heard(old(trace), answers))
    {
      a := answers(|trace|);
      clock := clock + latency(|trace|);
      RequestsExtend(trace, Exchange(request, a));
      HeardExtends(trace, Exchange(request, a), answers);
      trace := trace + [Exchange(request, a)];
    }

    method Summary()
      modifies this`trace
      ensures trace == old(trace) + [Note] && Requests(trace) == Requests(old(trace))
      ensures Heard(trace, answers) <==> Heard(old(trace), answers)
    {
      RequestsExtend(trace, Note);
      HeardExtends(trace, Note, answers);
      trace := trace + [Note];
    }

    method Sleep(ms: nat)
      modifies this`clock
      ensures clock >= old(clock) + ms
    {
      clock := clock + ms + oversleep(|trace|);
    }

    /** `pollUpload`: at most 36 status requests, since each round waits five of the 180 seconds. */
    method PollUpload(job: Job) returns (outcome: Upload)
      requires PhaseAfter(trace, job) == Some(Polling)
      modifies this
      ensures Conforms(trace, job) && !outcome.Poll? && clock >= old(clock)
      ensures Heard(trace, answers) <==> Heard(old(trace), answers)
      ensures outcome.Done? <==> PhaseAfter(trace, job) == Some(Publishing)
      ensures outcome.Failed? <==> PhaseAfter(trace, job).value in {Stopped(false), Polling}
      ensures PhaseAfter(trace, job) == Some(Polling) ==> clock >= old(clock) + UPLOAD_DEADLINE_MS
      ensures Requests(trace) <= Requests(old(trace)) + 36
    {
      var start := clock;
      var deadline := start + UPLOAD_DEADLINE_MS;
      while clock < deadline
        invariant PhaseAfter(trace, job) == Some(Polling)
        invariant Heard(trace, answers) <==> Heard(old(trace), answers)
        invariant Requests(trace) >= Requests(old(trace))
        invariant clock >= start + POLL_INTERVAL_MS * (Requests(trace) - Requests(old(trace)))
        invariant Requests(trace) <= Requests(old(trace)) + 36
        decreases deadline - clock
      {
        Sleep(POLL_INTERVAL_MS);
        ghost var before := trace;
        var a := Fetch(StatusRequest(job.publisher, job.item));
        PhaseExtends(before, trace[|before|], job);
        if !Usable(a, false) {
          return Failed;
        }
        outcome := InterpretAsyncUploadState(a.json, job.item);
        if !outcome.Poll? {
          return outcome;
        }
      }
      return Failed;
    }

    /** `publish`: one blocking request and, past a licensed refusal, one that does not block. */
    method Publish(job: Job) returns (exitCode: nat)
      requires PhaseAfter(trace, job) == Some(Publishing)
      modifies this
      ensures PhaseAfter(trace, job) == Some(Stopped(exitCode == 0)) && exitCode <= 1
      ensures Heard(trace, answers) <==> Heard(old(trace), answers)
      ensures Requests(trace) <= Requests(old(trace)) + 2
    {
      ghost var before := trace;
      var first := Fetch(PublishRequest(job.publisher, job.item, job.publishType, true));
      PhaseExtends(before, trace[|before|], job);
      if !Usable(first, true) {
        return 1;
      }
      var accepted := AcceptedWarnings(first.json, first.status, job.item);
      if accepted.None? {
        return if InterpretPublish(first.json, first.status) then 0 else 1;
      }
      before := trace;
      Summary();
      PhaseExtends(before, Note, job);
      before := trace;
      var retry := Fetch(PublishRequest(job.publisher, job.item, job.publishType, false));
      PhaseExtends(before, trace[|before|], job);
      var ok := Usable(retry, true) && InterpretAcceptedPublish(retry.json, retry.status);
      before := trace;
      Summary();
      PhaseExtends(before, Note, job);
      return if ok then 0 else 1;
    }

    /** The requests of `runPublish`, from the preflight on. */
    method Deliver(job: Job, zip: Option<seq<bv8>>) returns (exitCode: nat)
      requires trace == [] && (zip.Some? ==> job.zip == zip.value)
      modifies this
      ensures exitCode <= 1 && Requests(trace) <= 40
      ensures Conforms(trace, job) && Heard(trace, answers)
      ensures exitCode == 0 <==> Succeeded(trace, |trace|, job)
      ensures exitCode == 1 ==> GaveUp(trace, job, zip, clock - old(clock))
    {
      exitCode := Attempt(job, zip);
      forall p: Phase ensures PhaseAfter(trace, job) == Some(p) <==> Means(p, trace, |trace|, job) {
        PhaseExact(trace, |trace|, job, p);
      }
    }

    method Attempt(job: Job, zip: Option<seq<bv8>>) returns (exitCode: nat)
      requires trace == [] && (zip.Some? ==> job.zip == zip.value)
      modifies this
      ensures exitCode <= 1 && Requests(trace) <= 40
      ensures Conforms(trace, job) && Heard(trace, answers)
      ensures exitCode == 0 <==> PhaseAfter(trace, job) == Some(Stopped(true))
      ensures exitCode == 1 ==>
        || PhaseAfter(trace, job) == Some(Stopped(false))
        || (PhaseAfter(trace, job) == Some(Uploading) && zip.None?)
        || (PhaseAfter(trace, job) == Some(Polling) && clock >= old(clock) + UPLOAD_DEADLINE_MS)
    {
      var pre := Fetch(StatusRequest(job.publisher, job.item));
      PhaseExtends([], trace[0], job);
      if !Usable(pre, false) {
        return 1;
      }
      var eligible := InterpretPreflight(pre.json, job.item, job.version);
      if !eligible || zip.None? {
        return 1;
      }
      ghost var before := trace;
      var up := Fetch(UploadRequest(job.publisher, job.item, zip.value));
      PhaseExtends(before, trace[|before|], job);
      if !Usable(up, false) {
        return 1;
      }
      var outcome := InterpretUpload(up.json, job.item, job.version);
      if outcome.Poll? {
        outcome := PollUpload(job);
      }
      if outcome.Failed? {
        return 1;
      }
      exitCode := Publish(job);
    }

    /** `run` with `runPublish`: a dry run sends nothing; any other run conforms to the protocol,
        sends at most 40 requests, and exits 0 exactly when the store took the submission. */
    method RunPublish(env: map<string, string>, manifest: Option<Value>, zip: Option<seq<bv8>>) returns (exitCode: nat)
      requires trace == []
      modifies this
      ensures exitCode <= 1 && Requests(trace) <= 40
      ensures PublishInputs(env, manifest).None? ==> exitCode == 1 && trace == []
      ensures Env(env, "DRY_RUN") == "true" ==> trace == [] && (exitCode == 0 <==> PublishInputs(env, manifest).Some?)
      ensures Env(env, "CWS_ACCESS_TOKEN") == "" ==> trace == []
      ensures Conforms(trace, JobOf(env, manifest, zip)) && Heard(trace, answers)
      ensures Env(env, "DRY_RUN") != "true" ==>
        (exitCode == 0 <==> Succeeded(trace, |trace|, JobOf(env, manifest, zip)))
      ensures PublishInputs(env, manifest).Some? && Env(env, "DRY_RUN") != "true" && exitCode == 1 ==>
        Env(env, "CWS_ACCESS_TOKEN") == "" || GaveUp(trace, JobOf(env, manifest, zip), zip, clock - old(clock))
    {
      var version := PublishInputs(env, manifest);
      if version.None? {
        return 1;
      }
      if Env(env, "DRY_RUN") == "true" {
        return 0;
      }
      if Env(env, "CWS_ACCESS_TOKEN") == "" {
        return 1;
      }
      exitCode := Deliver(JobOf(env, manifest, zip), zip);
    }

    /** `run` with `runCheck`: one status request, and the item it answers for must be ours. */
    method RunCheck(env: map<string, string>) returns (exitCode: nat)
      requires trace == [] && Env(env, "MODE") == "check"
      modifies this
      ensures Requests(trace) == |trace| <= 1 && exitCode <= 1 && Heard(trace, answers)
      ensures trace == [] <==>
        "" in {Env(env, "CWS_PUBLISHER_ID"), Env(env, "CWS_ITEM_ID"), Env(env, "CWS_ACCESS_TOKEN")}
      ensures forall e | e in trace ::
        e.Exchange? && e.request == StatusRequest(Env(env, "CWS_PUBLISHER_ID"), Env(env, "CWS_ITEM_ID"))
      ensures exitCode == 0 <==>
        && |trace| == 1 && Answered(trace[0], StatusRequest(Env(env, "CWS_PUBLISHER_ID"), Env(env, "CWS_ITEM_ID")), 400)
        && ForItem(trace[0].answer.json, Env(env, "CWS_ITEM_ID"))
    {
      var publisher, item := Env(env, "CWS_PUBLISHER_ID"), Env(env, "CWS_ITEM_ID");
      if publisher == "" || item == "" || Env(env, "CWS_ACCESS_TOKEN") == "" {
        return 1;
      }
      var a := Fetch(StatusRequest(publisher, item));
      return if Usable(a, false) && Field(a.json, "itemId") == Str(item) then 0 else 1;
    }
  }

  /** What the exit code says: a run outside a dry run exits 0 exactly when its trace is one in which
      the store took the submission. */
  lemma SuccessIsSubmission(t: seq<Event>, job: Job)
    ensures PhaseAfter(t, job) == Some(Stopped(true)) <==> Succeeded(t, |t|, job)
  {
    PhaseExact(t, |t|, job, Stopped(true));
  }
}
