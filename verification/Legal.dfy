/** The legal-acceptance record (packages/legal/src/status.ts): an untrusted stored value, the
    status derived from it, and the record an acceptance leaves. */
module Legal {
  import opened Wrappers
  import opened Text
  import opened Seqs
  import opened Wire

  const HISTORY_LIMIT: nat := 20

  // ----- versions -----

  datatype Version = Version(major: nat, minor: nat, patch: nat)

  predicate IsNumeral(s: string) { 1 <= |s| <= 4 && AllDigits(s) }

  /** `major.minor` or `major.minor.patch`, one to four digits each. */
  function ParseVersion(s: string): Option<Version>
  {
    var parts := Split(s, '.');
    if !(2 <= |parts| <= 3) || !(forall p | p in parts :: IsNumeral(p)) then None
    else
      assert forall i | 0 <= i < |parts| :: parts[i] in parts;
      Some(Version(NatOf(parts[0]), NatOf(parts[1]), if |parts| == 3 then NatOf(parts[2]) else 0))
  }

  function CompareMajorMinor(a: Version, b: Version): int
  {
    if a.major != b.major then a.major - b.major else a.minor - b.minor
  }

  function CompareExact(a: Version, b: Version): int
  {
    if CompareMajorMinor(a, b) != 0 then CompareMajorMinor(a, b) else a.patch - b.patch
  }

  // ----- records -----

  datatype Surface = Onboarding | Popup

  /** The clock reading is carried by the number's text; nothing orders by it. */
  datatype Entry = Entry(terms: string, privacy: string, acceptedAt: string, surface: Surface)

  datatype Record = Record(head: Entry, history: seq<Entry>)

  predicate IsFinite(text: string) { text != "NaN" && text != "Infinity" && text != "-Infinity" }

  predicate EntryOk(e: Entry)
  {
    ParseVersion(e.terms).Some? && ParseVersion(e.privacy).Some? && IsFinite(e.acceptedAt)
  }

  function ParseEntry(v: Value): Option<Entry>
  {
    var terms, privacy := Field(v, "termsVersion"), Field(v, "privacyVersionShown");
    var at, surface := Field(v, "acceptedAt"), Field(v, "surface");
    if !(terms.Str? && ParseVersion(terms.s).Some? && privacy.Str? && ParseVersion(privacy.s).Some?) then None
    else if !(at.Num? && IsFinite(at.text)) then None
    else if surface == Str("onboarding") then Some(Entry(terms.s, privacy.s, at.text, Onboarding))
    else if surface == Str("popup") then Some(Entry(terms.s, privacy.s, at.text, Popup))
    else None
  }

  function LastOf<T>(xs: seq<T>): seq<T>
  {
    if |xs| > HISTORY_LIMIT then xs[|xs| - HISTORY_LIMIT..] else xs
  }

  lemma LastOfIsTwenty<T>(xs: seq<T>)
    ensures |LastOf(xs)| == (if |xs| < 20 then |xs| else 20) && LastOf(xs) == xs[|xs| - |LastOf(xs)|..]
  {
  }

  /** `historyTail`: a bounded index walk over an untrusted list. */
  method HistoryTail(raw: Value) returns (tail: seq<Value>)
    ensures tail == if raw.Arr? then LastOf(raw.items) else []
  {
    tail := [];
    if !raw.Arr? { return; }
    var start := if |raw.items| > HISTORY_LIMIT then |raw.items| - HISTORY_LIMIT else 0;
    var at := start;
    while at < |raw.items|
      invariant start <= at <= |raw.items|
      invariant tail == raw.items[start..at]
    {
      tail := tail + [raw.items[at]];
      at := at + 1;
    }
    assert raw.items[start..|raw.items|] == LastOf(raw.items);
  }

  function ParseHistory(vs: seq<Value>): seq<Entry>
  {
    if vs == [] then []
    else
      var e := ParseEntry(vs[0]);
      (if e.Some? then [e.value] else []) + ParseHistory(vs[1..])
  }

  /** `parseAcceptanceRecord`: anything that is not exactly a record is no record. */
  function ParseRecord(raw: Value): Option<Record>
  {
    var head := ParseEntry(raw);
    if head.None? then None
    else
      var history := Field(raw, "history");
      Some(Record(head.value, ParseHistory(if history.Arr? then LastOf(history.items) else [])))
  }

  // ----- storing a record -----

  function EntryFields(e: Entry): map<string, Value>
  {
    map["termsVersion" := Str(e.terms), "privacyVersionShown" := Str(e.privacy),
        "acceptedAt" := Num(e.acceptedAt), "surface" := Str(if e.surface.Onboarding? then "onboarding" else "popup")]
  }

  function StoreAll(es: seq<Entry>): (vs: seq<Value>)
    ensures |vs| == |es|
  {
    if es == [] then [] else [Obj(EntryFields(es[0]))] + StoreAll(es[1..])
  }

  function Store(r: Record): Value
  {
    Obj(EntryFields(r.head)["history" := Arr(StoreAll(r.history))])
  }

  predicate RecordOk(r: Record)
  {
    EntryOk(r.head) && |r.history| <= HISTORY_LIMIT && forall e | e in r.history :: EntryOk(e)
  }

  lemma EntryRoundTrip(e: Entry)
    requires EntryOk(e)
    ensures ParseEntry(Obj(EntryFields(e))) == Some(e)
  {
    var v := Obj(EntryFields(e));
    assert Field(v, "termsVersion") == Str(e.terms);
    assert Field(v, "privacyVersionShown") == Str(e.privacy);
    assert Field(v, "acceptedAt") == Num(e.acceptedAt);
  }

  lemma {:induction false} HistoryRoundTrip(es: seq<Entry>)
    requires forall e | e in es :: EntryOk(e)
    ensures ParseHistory(StoreAll(es)) == es
  {
    if es != [] {
      assert es[0] in es;
      EntryRoundTrip(es[0]);
      HistoryRoundTrip(es[1..]);
      var vs := StoreAll(es);
      assert vs[0] == Obj(EntryFields(es[0])) && vs[1..] == StoreAll(es[1..]);
      assert [es[0]] + es[1..] == es;
    }
  }

  /** A stored record reads back as itself. */
  lemma RecordRoundTrip(r: Record)
    requires RecordOk(r)
    ensures ParseRecord(Store(r)) == Some(r)
  {
    var v, plain := Store(r), Obj(EntryFields(r.head));
    EntryRoundTrip(r.head);
    assert Field(v, "termsVersion") == Field(plain, "termsVersion");
    assert Field(v, "privacyVersionShown") == Field(plain, "privacyVersionShown");
    assert Field(v, "acceptedAt") == Field(plain, "acceptedAt");
    assert Field(v, "surface") == Field(plain, "surface");
    assert ParseEntry(v) == ParseEntry(plain);
    HistoryRoundTrip(r.history);
    assert Field(v, "history") == Arr(StoreAll(r.history));
  }

  // ----- manifests and status -----

  datatype LegalVersion = LegalVersion(version: string, material: bool)

  datatype Manifest = Manifest(terms: seq<LegalVersion>, privacy: seq<LegalVersion>)

  datatype Status = Current | Stale | Missing

  function NewestMaterial(versions: seq<LegalVersion>): (r: Option<LegalVersion>)
    ensures r.Some? ==> r.value in versions && r.value.material
    ensures r.None? ==> forall v | v in versions :: !v.material
  {
    if versions == [] then None
    else
      var k := |versions| - 1;
      assert versions == versions[..k] + [versions[k]];
      if versions[k].material then Some(versions[k]) else NewestMaterial(versions[..k])
  }

  function AcceptanceStatus(raw: Value, m: Manifest): Status
  {
    var record := ParseRecord(raw);
    if record.None? then Missing
    else
      var required := NewestMaterial(m.terms);
      var accepted := ParseVersion(record.value.head.terms);
      var needed := if required.Some? then ParseVersion(required.value.version) else None;
      if accepted.None? || needed.None? then Missing
      else if CompareMajorMinor(accepted.value, needed.value) >= 0 then Current
      else Stale
  }

  function AcceptedVersion(raw: Value): Option<Version>
  {
    var record := ParseRecord(raw);
    if record.None? then None else ParseVersion(record.value.head.terms)
  }

  predicate IsPending(v: LegalVersion, accepted: Option<Version>)
  {
    var parsed := ParseVersion(v.version);
    v.material && parsed.Some? && (accepted.None? || CompareMajorMinor(parsed.value, accepted.value) > 0)
  }

  function PendingTermsVersions(raw: Value, m: Manifest): seq<LegalVersion>
  {
    Filter(m.terms, (v: LegalVersion) => IsPending(v, AcceptedVersion(raw)))
  }

  predicate Precedes(a: LegalVersion, b: LegalVersion)
  {
    var x, y := ParseVersion(a.version), ParseVersion(b.version);
    x.Some? && y.Some? && CompareExact(x.value, y.value) < 0
  }

  /** Well-formed versions, strictly increasing in the exact order. */
  ghost predicate Ascending(versions: seq<LegalVersion>)
  {
    && (forall v | v in versions :: ParseVersion(v.version).Some?)
    && (forall i, j {:trigger Precedes(versions[i], versions[j])} | 0 <= i < j < |versions| ::
          Precedes(versions[i], versions[j]))
  }

  lemma AscendingInit(versions: seq<LegalVersion>)
    requires Ascending(versions) && versions != []
    ensures Ascending(versions[..|versions| - 1])
  {
    var init := versions[..|versions| - 1];
    forall i, j | 0 <= i < j < |init| ensures Precedes(init[i], init[j]) {
      assert Precedes(versions[i], versions[j]);
    }
  }

  lemma {:induction false} NewestIsGreatest(versions: seq<LegalVersion>, v: LegalVersion)
    requires Ascending(versions) && v in versions && v.material
    ensures NewestMaterial(versions).Some?
    ensures CompareMajorMinor(ParseVersion(v.version).value,
                              ParseVersion(NewestMaterial(versions).value.version).value) <= 0
  {
    var k := |versions| - 1;
    var i :| 0 <= i < |versions| && versions[i] == v;
    if !versions[k].material {
      assert versions == versions[..k] + [versions[k]];
      AscendingInit(versions);
      NewestIsGreatest(versions[..k], v);
    } else if i < k {
      assert Precedes(versions[i], versions[k]);
    }
  }

  /** With an ascending manifest holding a material Terms version, the status is current exactly
      when no Terms version is pending. */
  lemma CurrentIffNothingPending(raw: Value, m: Manifest)
    requires Ascending(m.terms) && exists v | v in m.terms :: v.material
    ensures AcceptanceStatus(raw, m) == Current <==> PendingTermsVersions(raw, m) == []
  {
    var newest := NewestMaterial(m.terms).value;
    var pending := PendingTermsVersions(raw, m);
    var accepted := AcceptedVersion(raw);
    if AcceptanceStatus(raw, m) == Current {
      if pending != [] {
        var v := pending[0];
        assert v in pending;
        NewestIsGreatest(m.terms, v);
        CompareTransitive(ParseVersion(v.version).value, ParseVersion(newest.version).value, accepted.value);
        assert false;
      }
    } else {
      ParsedVersions(raw);
      assert IsPending(newest, accepted);
      assert newest in pending;
    }
  }

  lemma CompareTransitive(a: Version, b: Version, c: Version)
    requires CompareMajorMinor(a, b) <= 0 && CompareMajorMinor(c, b) >= 0
    ensures CompareMajorMinor(a, c) <= 0
  {
  }

  lemma ParsedVersions(raw: Value)
    ensures ParseRecord(raw).Some? ==> AcceptedVersion(raw).Some?
  {
  }

  // ----- accepting -----

  function Last(versions: seq<LegalVersion>): Option<LegalVersion>
  {
    if versions == [] then None else Some(versions[|versions| - 1])
  }

  /** The entry an acceptance logs; None where a document has no version and the source throws. */
  function NewEntry(m: Manifest, surface: Surface, at: string): Option<Entry>
  {
    var terms :- Last(m.terms);
    var privacy :- Last(m.privacy);
    Some(Entry(terms.version, privacy.version, at, surface))
  }

  /** `applyAcceptance`. */
  function ApplyAcceptance(previousRaw: Value, m: Manifest, surface: Surface, at: string): Option<Record>
  {
    var entry :- NewEntry(m, surface, at);
    var previous := ParseRecord(previousRaw);
    if previous.None? then Some(Record(entry, LastOf([entry])))
    else
      var prev, next := ParseVersion(previous.value.head.terms), ParseVersion(entry.terms);
      var keep := prev.Some? && next.Some? && CompareExact(prev.value, next.value) > 0;
      Some(Record(if keep then previous.value.head else entry, LastOf(previous.value.history + [entry])))
  }

  datatype Acceptance = Acceptance(m: Manifest, surface: Surface, at: string)

  predicate AcceptanceOk(a: Acceptance)
  {
    NewEntry(a.m, a.surface, a.at).Some? && EntryOk(NewEntry(a.m, a.surface, a.at).value)
  }

  /** The stored value after a series of acceptances under any manifests, from nothing stored. */
  function Stored(acceptances: seq<Acceptance>): Value
  {
    if acceptances == [] then Undefined
    else
      var k := |acceptances| - 1;
      var r := ApplyAcceptance(Stored(acceptances[..k]), acceptances[k].m, acceptances[k].surface, acceptances[k].at);
      if r.Some? then Store(r.value) else Stored(acceptances[..k])
  }

  /** Every acceptance ever made, oldest first. */
  function Log(acceptances: seq<Acceptance>): (log: seq<Entry>)
    requires forall a | a in acceptances :: AcceptanceOk(a)
    ensures |log| == |acceptances| && forall e | e in log :: EntryOk(e)
  {
    if acceptances == [] then []
    else
      var k := |acceptances| - 1;
      assert AcceptanceOk(acceptances[k]);
      Log(acceptances[..k]) + [NewEntry(acceptances[k].m, acceptances[k].surface, acceptances[k].at).value]
  }

  function Versions(log: seq<Entry>): (vs: seq<Version>)
    requires forall e | e in log :: EntryOk(e)
    ensures |vs| == |log|
    ensures forall i | 0 <= i < |log| :: Some(vs[i]) == ParseVersion(log[i].terms)
  {
    if log == [] then []
    else
      var k := |log| - 1;
      assert EntryOk(log[k]) && forall e | e in log[..k] :: e in log;
      Versions(log[..k]) + [ParseVersion(log[k].terms).value]
  }

  /** By major, then minor, then patch. */
  predicate NotBelow(a: Version, b: Version)
  {
    a.major > b.major ||
    (a.major == b.major && (a.minor > b.minor || (a.minor == b.minor && a.patch >= b.patch)))
  }

  /** Index i holds the last occurrence of the greatest version. */
  ghost predicate GreatestAt(vs: seq<Version>, i: nat)
  {
    && i < |vs|
    && (forall j | 0 <= j < |vs| :: NotBelow(vs[i], vs[j]))
    && (forall j | i < j < |vs| :: !NotBelow(vs[j], vs[i]))
  }

  /** Entry e is the latest of those with the greatest Terms version, patch included. */
  ghost predicate IsLatestGreatest(log: seq<Entry>, e: Entry)
    requires forall x | x in log :: EntryOk(x)
  {
    exists i | 0 <= i < |log| :: log[i] == e && GreatestAt(Versions(log), i)
  }

  lemma LastOfAppend(log: seq<Entry>, e: Entry)
    ensures LastOf(LastOf(log) + [e]) == LastOf(log + [e])
  {
  }

  lemma GreatestStep(vs: seq<Version>, i: nat, v: Version)
    requires GreatestAt(vs, i)
    ensures GreatestAt(vs + [v], if CompareExact(vs[i], v) > 0 then i else |vs|)
  {
    var all := vs + [v];
    if CompareExact(vs[i], v) <= 0 {
      forall j | 0 <= j < |vs| ensures NotBelow(v, all[j]) {
        CompareExactTransitive(vs[j], vs[i], v);
      }
    }
  }

  lemma CompareExactTransitive(a: Version, b: Version, c: Version)
    requires CompareExact(a, b) <= 0 && CompareExact(b, c) <= 0
    ensures CompareExact(a, c) <= 0
  {
  }

  predicate Keeps(head: Entry, e: Entry)
    requires EntryOk(head) && EntryOk(e)
  {
    CompareExact(ParseVersion(head.terms).value, ParseVersion(e.terms).value) > 0
  }

  lemma LatestGreatestStep(log: seq<Entry>, head: Entry, e: Entry)
    requires (forall x | x in log + [e] :: EntryOk(x)) && (forall x | x in log :: EntryOk(x))
    requires EntryOk(head) && EntryOk(e) && IsLatestGreatest(log, head)
    ensures IsLatestGreatest(log + [e], if Keeps(head, e) then head else e)
  {
    var all, vs := log + [e], Versions(log);
    var i :| 0 <= i < |log| && log[i] == head && GreatestAt(vs, i);
    var v := ParseVersion(e.terms).value;
    assert all[..|all| - 1] == log;
    assert Versions(all) == vs + [v];
    GreatestStep(vs, i, v);
    assert all[i] == head && all[|log|] == e;
  }

  /** What one acceptance does to a readable record. */
  lemma ApplyFacts(raw: Value, a: Acceptance)
    requires AcceptanceOk(a)
    ensures var e := NewEntry(a.m, a.surface, a.at).value; var r := ApplyAcceptance(raw, a.m, a.surface, a.at);
      && r.Some? && RecordOk(r.value)
      && (ParseRecord(raw).None? ==> r.value == Record(e, [e]))
      && (ParseRecord(raw).Some? ==>
            var prev := ParseRecord(raw).value;
            RecordOk(prev) &&
            r.value == Record(if Keeps(prev.head, e) then prev.head else e, LastOf(prev.history + [e])))
  {
    ParsedRecordOk(raw);
    var e := NewEntry(a.m, a.surface, a.at).value;
    if ParseRecord(raw).Some? {
      var prev := ParseRecord(raw).value;
      assert forall x | x in prev.history + [e] :: EntryOk(x);
      assert forall x | x in LastOf(prev.history + [e]) :: x in prev.history + [e];
    }
  }

  /** The stored value is a readable record whose head is the latest acceptance of the greatest
      Terms version in the log, and whose history is the last twenty of the log. */
  ghost predicate Tracks(raw: Value, log: seq<Entry>)
    requires forall e | e in log :: EntryOk(e)
  {
    var r := ParseRecord(raw);
    && r.Some? && RecordOk(r.value) && raw == Store(r.value)
    && IsLatestGreatest(log, r.value.head)
    && r.value.history == LastOf(log)
  }

  lemma TracksFirst(a: Acceptance)
    requires AcceptanceOk(a)
    ensures var e := NewEntry(a.m, a.surface, a.at).value; var r := ApplyAcceptance(Undefined, a.m, a.surface, a.at);
      r.Some? && (forall x | x in [e] :: EntryOk(x)) && Tracks(Store(r.value), [e])
  {
    ApplyFacts(Undefined, a);
    var r := ApplyAcceptance(Undefined, a.m, a.surface, a.at).value;
    RecordRoundTrip(r);
    assert GreatestAt(Versions([r.head]), 0);
    assert [r.head][0] == r.head;
  }

  lemma TracksNext(before: Value, log: seq<Entry>, a: Acceptance)
    requires AcceptanceOk(a) && (forall e | e in log :: EntryOk(e)) && Tracks(before, log)
    ensures var e := NewEntry(a.m, a.surface, a.at).value; var r := ApplyAcceptance(before, a.m, a.surface, a.at);
      r.Some? && (forall x | x in log + [e] :: EntryOk(x)) && Tracks(Store(r.value), log + [e])
  {
    ApplyFacts(before, a);
    var e := NewEntry(a.m, a.surface, a.at).value;
    var r := ApplyAcceptance(before, a.m, a.surface, a.at).value;
    RecordRoundTrip(r);
    LatestGreatestStep(log, ParseRecord(before).value.head, e);
    LastOfAppend(log, e);
  }

  /** Over any series of acceptances, under manifests that rise or fall, the stored record reads
      back whole and tracks the log. */
  lemma {:induction false} RecordTracksLog(acceptances: seq<Acceptance>)
    requires acceptances != [] && forall a | a in acceptances :: AcceptanceOk(a)
    ensures Tracks(Stored(acceptances), Log(acceptances))
  {
    var k := |acceptances| - 1;
    var a := acceptances[k];
    var earlier := acceptances[..k];
    assert AcceptanceOk(a) && forall x | x in earlier :: x in acceptances;
    var e := NewEntry(a.m, a.surface, a.at).value;
    assert Log(acceptances) == Log(earlier) + [e];
    if earlier == [] {
      TracksFirst(a);
      assert Log(earlier) + [e] == [e];
    } else {
      RecordTracksLog(earlier);
      TracksNext(Stored(earlier), Log(earlier), a);
    }
  }

  /** A readable record whose Terms version is not below the newest published one is current. */
  lemma {:induction false} CurrentWhenNotBelow(raw: Value, r: Record, m: Manifest)
    requires ParseRecord(raw) == Some(r) && UpToDate(r, m.terms)
    requires Ascending(m.terms) && NewestMaterial(m.terms).Some?
    ensures AcceptanceStatus(raw, m) == Current
  {
    var x, y := NewestBelowHead(m.terms);
    CompareTransitive(x, y, ParseVersion(r.head.terms).value);
  }

  /** The record's Terms version is not below the newest the manifest publishes. */
  ghost predicate UpToDate(r: Record, terms: seq<LegalVersion>)
  {
    && EntryOk(r.head) && terms != [] && ParseVersion(terms[|terms| - 1].version).Some?
    && CompareMajorMinor(ParseVersion(r.head.terms).value, ParseVersion(terms[|terms| - 1].version).value) >= 0
  }

  lemma {:induction false} StoredIsCurrent(r: Record, m: Manifest)
    requires RecordOk(r) && UpToDate(r, m.terms)
    requires Ascending(m.terms) && exists v | v in m.terms :: v.material
    ensures AcceptanceStatus(Store(r), m) == Current
  {
    RecordRoundTrip(r);
    CurrentWhenNotBelow(Store(r), r, m);
  }

  lemma {:induction false} AcceptedIsUpToDate(previousRaw: Value, a: Acceptance)
    requires AcceptanceOk(a)
    ensures var r := ApplyAcceptance(previousRaw, a.m, a.surface, a.at);
      r.Some? && RecordOk(r.value) && UpToDate(r.value, a.m.terms)
  {
    ApplyFacts(previousRaw, a);
  }

  /** Right after an acceptance under an ascending manifest with a material Terms version, the
      status is current, whatever was stored before. */
  lemma {:induction false} AcceptedIsCurrent(previousRaw: Value, a: Acceptance) returns (r: Record)
    requires AcceptanceOk(a) && Ascending(a.m.terms) && exists v | v in a.m.terms :: v.material
    ensures ApplyAcceptance(previousRaw, a.m, a.surface, a.at) == Some(r)
    ensures AcceptanceStatus(Store(r), a.m) == Current
  {
    AcceptedIsUpToDate(previousRaw, a);
    r := ApplyAcceptance(previousRaw, a.m, a.surface, a.at).value;
    StoredIsCurrent(r, a.m);
  }

  lemma {:induction false} NewestBelowHead(versions: seq<LegalVersion>) returns (x: Version, y: Version)
    requires Ascending(versions) && NewestMaterial(versions).Some?
    ensures ParseVersion(NewestMaterial(versions).value.version) == Some(x)
    ensures versions != [] && ParseVersion(versions[|versions| - 1].version) == Some(y)
    ensures CompareMajorMinor(x, y) <= 0
  {
    var newest := NewestMaterial(versions).value;
    var k := |versions| - 1;
    var i :| 0 <= i < |versions| && versions[i] == newest;
    x, y := ParseVersion(newest.version).value, ParseVersion(versions[k].version).value;
    if i < k {
      assert Precedes(versions[i], versions[k]);
    }
  }

  lemma {:induction false} HistoryOk(vs: seq<Value>)
    ensures |ParseHistory(vs)| <= |vs| && forall e | e in ParseHistory(vs) :: EntryOk(e)
  {
    if vs != [] { HistoryOk(vs[1..]); }
  }

  lemma ParsedRecordOk(raw: Value)
    ensures ParseRecord(raw).Some? ==> RecordOk(ParseRecord(raw).value)
  {
    var history := Field(raw, "history");
    HistoryOk(if history.Arr? then LastOf(history.items) else []);
  }

  // ----- the stored value's fields -----

  /** A stored acceptance: two readable versions, a finite time, and a surface we know. */
  predicate IsAcceptance(v: Value)
  {
    var terms, privacy, at := Field(v, "termsVersion"), Field(v, "privacyVersionShown"), Field(v, "acceptedAt");
    && terms.Str? && ParseVersion(terms.s).Some? && privacy.Str? && ParseVersion(privacy.s).Some?
    && at.Num? && at.text != "NaN" && at.text != "Infinity" && at.text != "-Infinity"
    && (Field(v, "surface") == Str("onboarding") || Field(v, "surface") == Str("popup"))
  }

  /** An acceptance is read field by field, and anything else is not read at all. */
  lemma {:induction false} EntryReadExactly(v: Value)
    ensures ParseEntry(v).Some? <==> IsAcceptance(v)
    ensures IsAcceptance(v) ==>
      && Str(ParseEntry(v).value.terms) == Field(v, "termsVersion")
      && Str(ParseEntry(v).value.privacy) == Field(v, "privacyVersionShown")
      && Num(ParseEntry(v).value.acceptedAt) == Field(v, "acceptedAt")
      && (ParseEntry(v).value.surface.Onboarding? <==> Field(v, "surface") == Str("onboarding"))
  {
  }

  function Readable(v: Value): seq<Entry> { if ParseEntry(v).Some? then [ParseEntry(v).value] else [] }

  lemma {:induction false} ReadableExact(v: Value)
    ensures Readable(v) + ParseHistory([]) == if IsAcceptance(v) then [ParseEntry(v).value] else []
  {
    EntryReadExactly(v);
  }

  lemma HistoryCons(v: Value, rest: seq<Value>)
    ensures ParseHistory([v] + rest) == Readable(v) + ParseHistory(rest)
  {
    assert ([v] + rest)[1..] == rest;
  }

  lemma {:induction false} HistoryAppend(a: seq<Value>, b: seq<Value>)
    ensures ParseHistory(a + b) == ParseHistory(a) + ParseHistory(b)
  {
    if a == [] {
      assert a + b == b;
    } else {
      var v, rest := a[0], a[1..];
      calc {
        ParseHistory(a + b);
        { assert a + b == [v] + (rest + b); HistoryCons(v, rest + b); }
        Readable(v) + ParseHistory(rest + b);
        { HistoryAppend(rest, b); }
        (Readable(v) + ParseHistory(rest)) + ParseHistory(b);
        { assert a == [v] + rest; HistoryCons(v, rest); }
        ParseHistory(a) + ParseHistory(b);
      }
    }
  }

  /** The history keeps the acceptances among its items, in order. */
  lemma {:induction false} HistoryReadExactly(a: seq<Value>, v: Value, b: seq<Value>)
    ensures ParseHistory(a + [v] + b) ==
            ParseHistory(a) + (if IsAcceptance(v) then [ParseEntry(v).value] else []) + ParseHistory(b)
  {
    calc {
      ParseHistory(a + [v] + b);
      { HistoryAppend(a + [v], b); }
      ParseHistory(a + [v]) + ParseHistory(b);
      { HistoryAppend(a, [v]); }
      ParseHistory(a) + ParseHistory([v]) + ParseHistory(b);
      { assert [v] + [] == [v]; HistoryCons(v, []); }
      ParseHistory(a) + (Readable(v) + ParseHistory([])) + ParseHistory(b);
      { ReadableExact(v); }
      ParseHistory(a) + (if IsAcceptance(v) then [ParseEntry(v).value] else []) + ParseHistory(b);
    }
  }

  ghost predicate LastMaterial(versions: seq<LegalVersion>, i: nat)
  {
    i < |versions| && versions[i].material && forall j | i < j < |versions| :: !versions[j].material
  }

  /** The last material version of a document, as a version. */
  ghost predicate Requires(versions: seq<LegalVersion>, needed: Version)
  {
    exists i: nat :: LastMaterial(versions, i) && ParseVersion(versions[i].version) == Some(needed)
  }

  /** Not below in major and minor; the patch does not count. */
  predicate Reaches(accepted: Version, needed: Version)
  {
    accepted.major > needed.major || (accepted.major == needed.major && accepted.minor >= needed.minor)
  }

  lemma {:induction false} NewestAt(versions: seq<LegalVersion>, i: nat)
    requires LastMaterial(versions, i)
    ensures NewestMaterial(versions) == Some(versions[i])
  {
    if i < |versions| - 1 { NewestAt(versions[..|versions| - 1], i); }
  }

  lemma {:induction false} NewestFound(versions: seq<LegalVersion>) returns (i: nat)
    requires NewestMaterial(versions).Some?
    ensures LastMaterial(versions, i)
  {
    var k := |versions| - 1;
    if versions[k].material { return k; }
    i := NewestFound(versions[..k]);
    forall j | i < j < |versions| ensures !versions[j].material {
      if j < k { assert versions[..k][j] == versions[j]; }
    }
  }

  lemma {:induction false} NewestExact(versions: seq<LegalVersion>, needed: Version)
    ensures Requires(versions, needed) <==>
            NewestMaterial(versions).Some? && ParseVersion(NewestMaterial(versions).value.version) == Some(needed)
  {
    if i: nat :| LastMaterial(versions, i) && ParseVersion(versions[i].version) == Some(needed) {
      NewestAt(versions, i);
    }
    if NewestMaterial(versions).Some? {
      var i := NewestFound(versions);
      NewestAt(versions, i);
    }
  }

  /** The status, over the stored fields and the manifest: missing without an acceptance or without a
      readable requirement, and otherwise current or stale by major and minor alone. */
  lemma {:induction false} StatusExact(raw: Value, m: Manifest)
    ensures AcceptanceStatus(raw, m) == Missing <==> !IsAcceptance(raw) || !exists needed :: Requires(m.terms, needed)
    ensures forall needed | IsAcceptance(raw) && Requires(m.terms, needed) ::
      (AcceptanceStatus(raw, m) == Current <==> Reaches(ParseVersion(Field(raw, "termsVersion").s).value, needed))
  {
    EntryReadExactly(raw);
    forall needed ensures Requires(m.terms, needed) <==>
      NewestMaterial(m.terms).Some? && ParseVersion(NewestMaterial(m.terms).value.version) == Some(needed)
    {
      NewestExact(m.terms, needed);
    }
    if IsAcceptance(raw) && NewestMaterial(m.terms).Some? && ParseVersion(NewestMaterial(m.terms).value.version).Some? {
      assert Requires(m.terms, ParseVersion(NewestMaterial(m.terms).value.version).value);
    }
  }

  /** What is shown as pending: the material versions the accepted one does not reach, or all of them
      without an acceptance. */
  lemma {:induction false} PendingExact(raw: Value, m: Manifest, v: LegalVersion)
    ensures v in PendingTermsVersions(raw, m) <==>
      && v in m.terms && v.material && ParseVersion(v.version).Some?
      && (IsAcceptance(raw) ==>
            !Reaches(ParseVersion(Field(raw, "termsVersion").s).value, ParseVersion(v.version).value))
  {
    EntryReadExactly(raw);
  }

  /** What an acceptance logs: the last versions published of both documents, at the given time and
      surface. It fails exactly when a document has none. */
  lemma {:induction false} AcceptanceLogged(raw: Value, m: Manifest, surface: Surface, at: string)
    ensures var r := ApplyAcceptance(raw, m, surface, at);
      && (r.None? <==> m.terms == [] || m.privacy == [])
      && (r.Some? ==>
            && r.value.history != []
            && r.value.history[|r.value.history| - 1] ==
                 Entry(m.terms[|m.terms| - 1].version, m.privacy[|m.privacy| - 1].version, at, surface))
  {
  }
}
