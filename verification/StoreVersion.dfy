/** Chrome Web Store versions (scripts/release/publish-chrome-store.ts): one to four dot-separated
    integers, padded to four parts and compared as tuples. */
module StoreVersion {
  import opened Wrappers
  import opened Text

  const LIMIT := 65536

  predicate IsPart(p: string) { p != "" && AllDigits(p) && NatOf(p) < LIMIT }

  predicate IsVersion(v: seq<nat>) { |v| == 4 && forall i | 0 <= i < 4 :: v[i] < LIMIT }

  function Padded(ns: seq<nat>): (v: seq<nat>)
    requires 1 <= |ns| <= 4
    ensures |v| == 4 && v[..|ns|] == ns && forall i | |ns| <= i < 4 :: v[i] == 0
  {
    (ns + [0, 0, 0])[..4]
  }

  function Numbers(parts: seq<string>): (ns: seq<nat>)
    requires forall i | 0 <= i < |parts| :: IsPart(parts[i])
    ensures |ns| == |parts| && forall i | 0 <= i < |parts| :: IsPart(parts[i]) && ns[i] == NatOf(parts[i])
  {
    seq(|parts|, i requires 0 <= i < |parts| => assert IsPart(parts[i]); NatOf(parts[i]))
  }

  /** `parseStoreVersion`. */
  function ParseStoreVersion(text: string): (r: Option<seq<nat>>)
    ensures r.Some? ==> IsVersion(r.value)
  {
    var parts := Split(text, '.');
    if |parts| > 4 || exists p | p in parts :: !IsPart(p) then None
    else
      Some(Padded(Numbers(parts)))
  }

  // ----- the order -----

  /** `a` comes strictly before `b`: at the first part where they differ, `a` has the smaller one. */
  ghost predicate Below(a: seq<nat>, b: seq<nat>)
    requires IsVersion(a) && IsVersion(b)
  {
    exists i | 0 <= i < 4 :: a[i] < b[i] && forall j | 0 <= j < i :: a[j] == b[j]
  }

  /** `compareStoreVersions`. */
  method CompareStoreVersions(a: seq<nat>, b: seq<nat>) returns (c: int)
    requires IsVersion(a) && IsVersion(b)
    ensures c == -1 || c == 0 || c == 1
    ensures c == -1 <==> Below(a, b)
    ensures c == 0 <==> a == b
    ensures c == 1 <==> Below(b, a)
  {
    for i := 0 to 4
      invariant forall j | 0 <= j < i :: a[j] == b[j]
    {
      if a[i] != b[i] {
        return if a[i] < b[i] then -1 else 1;
      }
    }
    return 0;
  }

  /** The tuple read as a four-digit number in base 65536. */
  function Rank(v: seq<nat>): nat
    requires IsVersion(v)
  {
    ((v[0] * LIMIT + v[1]) * LIMIT + v[2]) * LIMIT + v[3]
  }

  lemma BelowIsSmallerRank(a: seq<nat>, b: seq<nat>)
    requires IsVersion(a) && IsVersion(b) && Below(a, b)
    ensures Rank(a) < Rank(b)
  {
    var i :| 0 <= i < 4 && a[i] < b[i] && forall j | 0 <= j < i :: a[j] == b[j];
    if i == 0 {
      assert a[0] * LIMIT + LIMIT <= b[0] * LIMIT;
    } else if i == 1 {
      assert a[0] == b[0];
    } else if i == 2 {
      assert a[0] == b[0] && a[1] == b[1];
    } else {
      assert a[0] == b[0] && a[1] == b[1] && a[2] == b[2];
    }
  }

  lemma Trichotomy(a: seq<nat>, b: seq<nat>)
    requires IsVersion(a) && IsVersion(b)
    ensures Below(a, b) || a == b || Below(b, a)
  {
    if a[0] == b[0] && a[1] == b[1] && a[2] == b[2] && a[3] == b[3] {
      assert a == b;
    } else {
      var i := if a[0] != b[0] then 0 else if a[1] != b[1] then 1 else if a[2] != b[2] then 2 else 3;
      assert a[i] != b[i] && forall j | 0 <= j < i :: a[j] == b[j] && b[j] == a[j];
    }
  }

  /** Comparing tuples part by part is comparing numbers, so it is a strict total order: never as
      strings, so that `0.9.0.0` lies below `0.10.0.0`. */
  lemma OrderIsNumeric(a: seq<nat>, b: seq<nat>)
    requires IsVersion(a) && IsVersion(b)
    ensures Below(a, b) <==> Rank(a) < Rank(b)
    ensures a == b <==> Rank(a) == Rank(b)
  {
    Trichotomy(a, b);
    if Below(a, b) { BelowIsSmallerRank(a, b); }
    if Below(b, a) { BelowIsSmallerRank(b, a); }
  }

  lemma StrictTotalOrder(a: seq<nat>, b: seq<nat>, c: seq<nat>)
    requires IsVersion(a) && IsVersion(b) && IsVersion(c)
    ensures !Below(a, a)
    ensures Below(a, b) && Below(b, c) ==> Below(a, c)
    ensures a != b ==> (Below(a, b) <==> !Below(b, a))
  {
    OrderIsNumeric(a, a);
    OrderIsNumeric(a, b);
    OrderIsNumeric(b, a);
    OrderIsNumeric(b, c);
    OrderIsNumeric(a, c);
  }

  // ----- printing and reading back -----

  function Printed(ns: seq<nat>): string
  {
    Join(seq(|ns|, i requires 0 <= i < |ns| => Decimal(ns[i])), ".")
  }

  /** One to four in-range numbers printed with dots read back as those numbers, padded with zeros;
      so `1.2` and `1.2.0.0` are one version. */
  lemma VersionRoundTrip(ns: seq<nat>)
    requires 1 <= |ns| <= 4 && forall i | 0 <= i < |ns| :: ns[i] < LIMIT
    ensures ParseStoreVersion(Printed(ns)) == Some(Padded(ns))
  {
    var parts := seq(|ns|, i requires 0 <= i < |ns| => Decimal(ns[i]));
    forall p | p in parts ensures '.' !in p && IsPart(p) {
      var i :| 0 <= i < |ns| && parts[i] == p;
    }
    SplitJoin(parts, '.');
    assert Numbers(parts) == ns;
  }

  /** The text is one to four runs of digits, dots between them, each below 65536, and these are the
      version's numbers with zeros after them. */
  ghost predicate Writes(text: string, parts: seq<string>, v: seq<nat>)
  {
    && 1 <= |parts| <= 4 && text == Join(parts, ".")
    && (forall p | p in parts :: p != "" && AllDigits(p) && NatOf(p) < 65536)
    && |v| == 4 && forall i | 0 <= i < 4 :: v[i] == if i < |parts| then NatOf(parts[i]) else 0
  }

  /** A text is read as a version if and only if it writes it; leading zeros change nothing. */
  lemma {:induction false} VersionReadExactly(text: string, v: seq<nat>)
    ensures ParseStoreVersion(text) == Some(v) <==> exists parts :: Writes(text, parts, v)
  {
    if ParseStoreVersion(text) == Some(v) {
      var parts := Split(text, '.');
      JoinSplit(text, '.');
      assert forall i | 0 <= i < |parts| :: parts[i] in parts;
      PaddedNumbers(parts);
      assert Writes(text, parts, v);
    }
    if parts :| Writes(text, parts, v) {
      forall p | p in parts ensures '.' !in p && IsPart(p) {}
      SplitJoin(parts, '.');
      assert forall i | 0 <= i < |parts| :: parts[i] in parts;
      PaddedNumbers(parts);
      assert v == Padded(Numbers(parts));
    }
  }

  lemma PaddedNumbers(parts: seq<string>)
    requires 1 <= |parts| <= 4 && forall i | 0 <= i < |parts| :: IsPart(parts[i])
    ensures var v := Padded(Numbers(parts));
      |v| == 4 && forall i | 0 <= i < 4 :: v[i] == if i < |parts| then NatOf(parts[i]) else 0
  {
    var ns := Numbers(parts);
    forall i | 0 <= i < |parts| ensures Padded(ns)[i] == NatOf(parts[i]) {
      assert Padded(ns)[i] == Padded(ns)[..|ns|][i];
    }
  }
}
