/** Correlation tokens for page-supplied ids (packages/wallet-bridge/src/external-id.ts): a bounded
    table that is cleared on overflow while its counter never rewinds. */
module ExternalId {
  import opened Text
  import opened Wire

  const MAX_TRACKED_IDS: nat := 512

  /** The module's mutable state: the table and the next token number. */
  datatype Table = Table(tokens: map<string, string>, nextToken: nat)

  const EMPTY: Table := Table(map[], 1)

  function TypeName(v: Value): string
  {
    match v
    case Undefined => "undefined"
    case Bool(_) => "boolean"
    case Num(_) => "number"
    case Str(_) => "string"
    case _ => "object"
  }

  function Token(n: nat): string { "ext-" + Decimal(n) }

  function Tracked(v: Value): bool { v.Str? && v.s != "" }

  function Describe(t: Table, v: Value): string
  {
    if !v.Str? then "[" + TypeName(v) + "]"
    else if v.s == "" then "[empty-id]"
    else if v.s in t.tokens then t.tokens[v.s]
    else Token(t.nextToken)
  }

  function Next(t: Table, v: Value): Table
  {
    if !Tracked(v) || v.s in t.tokens then t
    else
      var kept := if |t.tokens| >= MAX_TRACKED_IDS then map[] else t.tokens;
      Table(kept[v.s := Token(t.nextToken)], t.nextToken + 1)
  }

  class TokenTable {
    var tokens: map<string, string>
    var nextToken: nat

    ghost function State(): Table reads this { Table(tokens, nextToken) }

    constructor ()
      ensures State() == EMPTY
    {
      tokens, nextToken := map[], 1;
    }

    method DescribeExternalId(value: Value) returns (token: string)
      modifies this
      ensures token == Describe(old(State()), value)
      ensures State() == Next(old(State()), value)
      ensures |old(tokens)| <= MAX_TRACKED_IDS ==> |tokens| <= MAX_TRACKED_IDS
      ensures Tracked(value) ==> value.s in tokens && tokens[value.s] == token
      ensures nextToken >= old(nextToken)
    {
      if !value.Str? { return "[" + TypeName(value) + "]"; }
      if value.s == "" { return "[empty-id]"; }
      if value.s in tokens { return tokens[value.s]; }
      if |tokens| >= MAX_TRACKED_IDS {
        tokens := map[];
      }
      token := Token(nextToken);
      nextToken := nextToken + 1;
      MapUpdateSize(tokens, value.s, token);
      tokens := tokens[value.s := token];
    }
  }

  // ----- whole runs -----

  /** The table after the first n calls of a run. */
  function After(calls: seq<Value>, n: nat): Table
    requires n <= |calls|
  {
    if n == 0 then EMPTY else Next(After(calls, n - 1), calls[n - 1])
  }

  /** What call i of the run logs. */
  function Logged(calls: seq<Value>, i: nat): string
    requires i < |calls|
  {
    Describe(After(calls, i), calls[i])
  }

  lemma TokenInjective(m: nat, n: nat)
    requires Token(m) == Token(n)
    ensures m == n
  {
    assert Token(m)[4..] == Decimal(m) && Token(n)[4..] == Decimal(n);
    DecimalInjective(m, n);
  }

  /** The table never exceeds its bound. */
  lemma {:induction false} TableIsBounded(calls: seq<Value>, n: nat)
    requires n <= |calls|
    ensures |After(calls, n).tokens| <= MAX_TRACKED_IDS
  {
    if n > 0 {
      TableIsBounded(calls, n - 1);
      var t, v := After(calls, n - 1), calls[n - 1];
      if Tracked(v) && v.s !in t.tokens {
        var kept: map<string, string> := if |t.tokens| >= MAX_TRACKED_IDS then map[] else t.tokens;
        MapUpdateSize(kept, v.s, Token(t.nextToken));
      }
    }
  }

  lemma MapUpdateSize(m: map<string, string>, k: string, v: string)
    requires k !in m
    ensures |m[k := v]| == |m| + 1
  {
    assert m[k := v].Keys == m.Keys + {k};
    assert |m[k := v].Keys| == |m[k := v]| && |m.Keys| == |m|;
  }

  ghost predicate OwnedBy(owner: map<nat, string>, token: string, id: string)
  {
    exists k | k in owner :: token == Token(k) && owner[k] == id
  }

  /** The numbers handed out so far are those below the counter, and every table entry is owned by
      its id: a number once handed out belongs to one id for the rest of the run. */
  ghost predicate TableOwned(t: Table, owner: map<nat, string>)
  {
    && t.nextToken >= 1
    && (forall k :: k in owner <==> 1 <= k < t.nextToken)
    && (forall id | id in t.tokens :: OwnedBy(owner, t.tokens[id], id))
  }

  /** So is every token logged so far. */
  ghost predicate LogOwned(calls: seq<Value>, n: nat, owner: map<nat, string>)
    requires n <= |calls|
  {
    forall i | 0 <= i < n && Tracked(calls[i]) :: OwnedBy(owner, Logged(calls, i), calls[i].s)
  }

  /** The owners after one more call. */
  ghost function OwnersAfter(t: Table, v: Value, owner: map<nat, string>): map<nat, string>
  {
    if Tracked(v) && v.s !in t.tokens then owner[t.nextToken := v.s] else owner
  }

  lemma StepOwned(t: Table, v: Value, before: map<nat, string>)
    requires TableOwned(t, before)
    ensures TableOwned(Next(t, v), OwnersAfter(t, v, before))
    ensures Tracked(v) ==> OwnedBy(OwnersAfter(t, v, before), Describe(t, v), v.s)
    ensures forall token, id | OwnedBy(before, token, id) :: OwnedBy(OwnersAfter(t, v, before), token, id)
  {
    if Tracked(v) && v.s !in t.tokens {
      NewOwner(before, t.nextToken, v.s);
    }
  }

  lemma {:induction false} Ownership(calls: seq<Value>, n: nat) returns (owner: map<nat, string>)
    requires n <= |calls|
    ensures TableOwned(After(calls, n), owner) && LogOwned(calls, n, owner)
  {
    if n == 0 {
      owner := map[];
    } else {
      var before := Ownership(calls, n - 1);
      var t, v := After(calls, n - 1), calls[n - 1];
      owner := OwnersAfter(t, v, before);
      StepOwned(t, v, before);
      forall i | 0 <= i < n && Tracked(calls[i]) ensures OwnedBy(owner, Logged(calls, i), calls[i].s) {
        if i < n - 1 { assert OwnedBy(before, Logged(calls, i), calls[i].s); }
      }
    }
  }

  /** Handing out a new number keeps every earlier owner. */
  lemma NewOwner(before: map<nat, string>, next: nat, id: string)
    requires next !in before
    ensures OwnedBy(before[next := id], Token(next), id)
    ensures forall token, other | OwnedBy(before, token, other) :: OwnedBy(before[next := id], token, other)
  {
    var owner := before[next := id];
    assert next in owner && owner[next] == id;
    forall token, other | OwnedBy(before, token, other) ensures OwnedBy(owner, token, other) {
      var k :| k in before && token == Token(k) && before[k] == other;
      assert k in owner && owner[k] == other;
    }
  }

  /** Over an entire run, overflows included, one token never names two different ids. */
  lemma TokensNeverShared(calls: seq<Value>, i: nat, j: nat)
    requires i < |calls| && j < |calls| && Tracked(calls[i]) && Tracked(calls[j])
    requires Logged(calls, i) == Logged(calls, j)
    ensures calls[i] == calls[j]
  {
    var owner := Ownership(calls, |calls|);
    assert OwnedBy(owner, Logged(calls, i), calls[i].s) && OwnedBy(owner, Logged(calls, j), calls[j].s);
    var k :| k in owner && Logged(calls, i) == Token(k) && owner[k] == calls[i].s;
    var l :| l in owner && Logged(calls, j) == Token(l) && owner[l] == calls[j].s;
    TokenInjective(k, l);
  }

  /** A token never looks like the placeholder of an untracked value. */
  lemma TokensAreNotPlaceholders(calls: seq<Value>, i: nat, j: nat)
    requires i < |calls| && j < |calls| && Tracked(calls[i]) && !Tracked(calls[j])
    ensures Logged(calls, i) != Logged(calls, j)
  {
    var owner := Ownership(calls, |calls|);
    assert OwnedBy(owner, Logged(calls, i), calls[i].s);
    assert Logged(calls, i)[0] == 'e';
    assert Logged(calls, j)[0] == '[';
  }

  /** Call k of the run clears the table. */
  predicate Overflows(calls: seq<Value>, k: nat)
    requires k < |calls|
  {
    var t := After(calls, k);
    Tracked(calls[k]) && calls[k].s !in t.tokens && |t.tokens| >= MAX_TRACKED_IDS
  }

  /** Between overflows a repeated id keeps its token. */
  lemma {:induction false} RepeatedIdKeepsToken(calls: seq<Value>, i: nat, j: nat)
    requires i < j < |calls| && Tracked(calls[i]) && calls[j] == calls[i]
    requires forall k | i < k < j :: !Overflows(calls, k)
    ensures Logged(calls, j) == Logged(calls, i)
  {
    StaysTracked(calls, i, j);
  }

  lemma {:induction false} StaysTracked(calls: seq<Value>, i: nat, j: nat)
    requires i < j <= |calls| && Tracked(calls[i])
    requires forall k | i < k < j :: !Overflows(calls, k)
    ensures calls[i].s in After(calls, j).tokens && After(calls, j).tokens[calls[i].s] == Logged(calls, i)
    decreases j
  {
    if j > i + 1 {
      StaysTracked(calls, i, j - 1);
      assert !Overflows(calls, j - 1);
    }
  }

  /** What an untracked value is logged as: its kind, never its content. */
  lemma {:induction false} UntrackedIsItsKind(t: Table, v: Value)
    requires !v.Str? || v.s == ""
    ensures Describe(t, v) in {"[undefined]", "[boolean]", "[number]", "[object]", "[empty-id]"} && Next(t, v) == t
    ensures Describe(t, v) == "[undefined]" <==> v == Undefined
    ensures Describe(t, v) == "[boolean]" <==> v.Bool?
    ensures Describe(t, v) == "[number]" <==> v.Num?
    ensures Describe(t, v) == "[empty-id]" <==> v == Str("")
  {
    assert "[" + "undefined" + "]" == "[undefined]" && "[" + "boolean" + "]" == "[boolean]";
    assert "[" + "number" + "]" == "[number]" && "[" + "object" + "]" == "[object]";
    assert "[undefined]"[1] == 'u' && "[boolean]"[1] == 'b' && "[number]"[1] == 'n';
    assert "[object]"[1] == 'o' && "[empty-id]"[1] == 'e';
  }
}
