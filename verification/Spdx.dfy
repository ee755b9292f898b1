/** SPDX licence expressions (packages/third-party-notices/src/spdx.ts): tokenizer,
    recursive-descent parser and allowlist evaluation. */
module Spdx {
  import opened Text
  import opened Wrappers

  // ----- tokens -----

  predicate IsIdChar(c: char)
  {
    'A' <= c <= 'Z' || 'a' <= c <= 'z' || '0' <= c <= '9' || c == '.' || c == '+' || c == '-'
  }

  predicate IsParen(c: char) { c == '(' || c == ')' }

  /** The length of the longest run of identifier characters at the front. */
  function IdLength(s: string): (n: nat)
    ensures n <= |s| && (forall i | 0 <= i < n :: IsIdChar(s[i])) && (n < |s| ==> !IsIdChar(s[n]))
  {
    if s == "" || !IsIdChar(s[0]) then 0
    else
      var n := IdLength(s[1..]);
      assert forall i | 1 <= i < n + 1 :: s[i] == s[1..][i - 1];
      n + 1
  }

  /** Tokenization as a specification: None where the source throws. */
  function Lex(s: string): Option<seq<string>>
  {
    if s == "" then Some([])
    else if IsSpace(s[0]) then Lex(s[1..])
    else if IsParen(s[0]) then
      var rest :- Lex(s[1..]);
      Some([[s[0]]] + rest)
    else if IsIdChar(s[0]) then
      var n := IdLength(s);
      var rest :- Lex(s[n..]);
      Some([s[..n]] + rest)
    else None
  }

  /** Up to `at` the expression gave `tokens`; what follows is still to be scanned. */
  ghost predicate Scanned(s: string, tokens: seq<string>, at: nat)
  {
    at <= |s| && Lex(s) == Prepend(tokens, Lex(s[at..]))
  }

  /** The token group of a match: a parenthesis or a run of identifier characters. */
  function TokenAt(s: string, at: nat): (r: Option<string>)
    requires at < |s|
    ensures r.Some? ==> 1 <= |r.value| <= |s| - at
  {
    if IsParen(s[at]) then Some([s[at]])
    else if IsIdChar(s[at]) then Some(s[at..at + IdLength(s[at..])])
    else None
  }

  /** The leading `\s*` of a match. */
  method SkipSpaces(expression: string, start: nat, ghost tokens: seq<string>) returns (at: nat)
    requires Scanned(expression, tokens, start)
    ensures start <= at <= |expression| && (at < |expression| ==> !IsSpace(expression[at]))
    ensures Scanned(expression, tokens, at)
  {
    at := start;
    while at < |expression| && IsSpace(expression[at])
      invariant start <= at && Scanned(expression, tokens, at)
    {
      ScanSpace(expression, tokens, at);
      at := at + 1;
    }
  }

  /** `tokenize`: a sticky match that moves `lastIndex` over leading space and one token. */
  method Tokenize(expression: string) returns (r: Option<seq<string>>)
    ensures r == Lex(expression)
  {
    var tokens: seq<string> := [];
    var lastIndex := 0;
    ScanStart(expression);
    while lastIndex < |expression|
      invariant Scanned(expression, tokens, lastIndex)
    {
      var at := SkipSpaces(expression, lastIndex, tokens);
      if at == |expression| {
        ScanEnd(expression, tokens, at);
        return Some(tokens);
      }
      var token := TokenAt(expression, at);
      if token.None? {
        ScanFails(expression, tokens, at);
        return None;
      }
      ScanToken(expression, tokens, at);
      tokens := tokens + [token.value];
      lastIndex := at + |token.value|;
    }
    ScanEnd(expression, tokens, lastIndex);
    return Some(tokens);
  }

  lemma {:induction false} ScanStart(s: string)
    ensures Scanned(s, [], 0)
  {
    assert s[0..] == s;
    PrependNothing(Lex(s));
  }

  lemma {:induction false} ScanEnd(s: string, tokens: seq<string>, at: nat)
    requires Scanned(s, tokens, at) && at == |s|
    ensures Lex(s) == Some(tokens)
  {
    assert s[at..] == "" && tokens + [] == tokens;
  }

  lemma {:induction false} ScanFails(s: string, tokens: seq<string>, at: nat)
    requires Scanned(s, tokens, at) && at < |s| && !IsSpace(s[at]) && TokenAt(s, at).None?
    ensures Lex(s) == None
  {
  }

  lemma {:induction false} ScanSpace(s: string, tokens: seq<string>, at: nat)
    requires Scanned(s, tokens, at) && at < |s| && IsSpace(s[at])
    ensures Scanned(s, tokens, at + 1)
  {
    assert s[at..][1..] == s[at + 1..];
  }

  lemma {:induction false} ScanToken(s: string, tokens: seq<string>, at: nat)
    requires Scanned(s, tokens, at) && at < |s| && !IsSpace(s[at]) && TokenAt(s, at).Some?
    ensures Scanned(s, tokens + [TokenAt(s, at).value], at + |TokenAt(s, at).value|)
  {
    var rest, token := s[at..], TokenAt(s, at).value;
    var n := |token|;
    assert rest[n..] == s[at + n..];
    if !IsParen(s[at]) { assert rest[..n] == token; }
    PrependStep(tokens, token, Lex(rest[n..]));
  }

  ghost function Prepend(tokens: seq<string>, rest: Option<seq<string>>): Option<seq<string>>
  {
    if rest.None? then None else Some(tokens + rest.value)
  }

  lemma PrependNothing(rest: Option<seq<string>>)
    ensures Prepend([], rest) == rest
  {
    if rest.Some? { assert [] + rest.value == rest.value; }
  }

  lemma PrependStep(tokens: seq<string>, t: string, rest: Option<seq<string>>)
    ensures Prepend(tokens, Prepend([t], rest)) == Prepend(tokens + [t], rest)
  {
    if rest.Some? {
      assert tokens + ([t] + rest.value) == (tokens + [t]) + rest.value;
    }
  }

  // ----- trees and concrete syntax -----

  datatype Node = Id(id: string) | And(left: Node, right: Node) | Or(left: Node, right: Node)

  /** The grammar: AND and OR are left-recursive lists, and AND binds tighter than OR. */
  datatype Atom = License(id: string) | LicenseWith(id: string, exception: string) | Paren(inner: OrExpr)
  datatype AndExpr = AndOne(atom: Atom) | AndMore(left: AndExpr, right: Atom)
  datatype OrExpr = OrOne(conj: AndExpr) | OrMore(left: OrExpr, right: AndExpr)

  predicate IsOperator(t: string) { t == "AND" || t == "OR" || t == "WITH" }

  predicate IsName(t: string) { t != "(" && t != ")" && !IsOperator(t) }

  predicate ValidAtom(a: Atom)
  {
    match a
    case License(id) => IsName(id)
    case LicenseWith(id, exception) => IsName(id) && IsName(exception)
    case Paren(inner) => ValidOr(inner)
  }

  predicate ValidAnd(e: AndExpr)
  {
    match e
    case AndOne(a) => ValidAtom(a)
    case AndMore(l, r) => ValidAnd(l) && ValidAtom(r)
  }

  predicate ValidOr(e: OrExpr)
  {
    match e
    case OrOne(c) => ValidAnd(c)
    case OrMore(l, r) => ValidOr(l) && ValidAnd(r)
  }

  function AtomTokens(a: Atom): (ts: seq<string>)
    ensures |ts| > 0
  {
    match a
    case License(id) => [id]
    case LicenseWith(id, exception) => [id, "WITH", exception]
    case Paren(inner) => ["("] + OrTokens(inner) + [")"]
  }

  function AndTokens(e: AndExpr): (ts: seq<string>)
    ensures |ts| > 0
  {
    match e
    case AndOne(a) => AtomTokens(a)
    case AndMore(l, r) => AndTokens(l) + ["AND"] + AtomTokens(r)
  }

  function OrTokens(e: OrExpr): (ts: seq<string>)
    ensures |ts| > 0
  {
    match e
    case OrOne(c) => AndTokens(c)
    case OrMore(l, r) => OrTokens(l) + ["OR"] + AndTokens(r)
  }

  function AtomTree(a: Atom): Node
  {
    match a
    case License(id) => Id(id)
    case LicenseWith(id, exception) => Id(id + " WITH " + exception)
    case Paren(inner) => OrTree(inner)
  }

  function AndTree(e: AndExpr): Node
  {
    match e
    case AndOne(a) => AtomTree(a)
    case AndMore(l, r) => And(AndTree(l), AtomTree(r))
  }

  function OrTree(e: OrExpr): Node
  {
    match e
    case OrOne(c) => AndTree(c)
    case OrMore(l, r) => Or(OrTree(l), AndTree(r))
  }

  // ----- the parser, as functions over a token list and a cursor -----

  datatype Parsed<T> = Parsed(value: T, at: nat)

  function Peek(ts: seq<string>, at: nat): Option<string>
  {
    if at < |ts| then Some(ts[at]) else None
  }

  predicate NamePeeked(t: Option<string>) { t.Some? && IsName(t.value) }

  function ParseAtom(ts: seq<string>, at: nat): (r: Option<Parsed<Atom>>)
    ensures r.Some? ==> at < r.value.at <= |ts|
    decreases |ts| - at, 0
  {
    var t := Peek(ts, at);
    if t.None? || t.value == ")" || IsOperator(t.value) then None
    else if t.value == "(" then
      var inner :- ParseOr(ts, at + 1);
      if Peek(ts, inner.at) != Some(")") then None else Some(Parsed(Paren(inner.value), inner.at + 1))
    else if Peek(ts, at + 1) != Some("WITH") then Some(Parsed(License(t.value), at + 1))
    else if !NamePeeked(Peek(ts, at + 2)) then None
    else Some(Parsed(LicenseWith(t.value, ts[at + 2]), at + 3))
  }

  function ParseAnd(ts: seq<string>, at: nat): (r: Option<Parsed<AndExpr>>)
    ensures r.Some? ==> at < r.value.at <= |ts|
    decreases |ts| - at, 2
  {
    var a :- ParseAtom(ts, at);
    AndLoop(ts, AndOne(a.value), a.at)
  }

  function AndLoop(ts: seq<string>, left: AndExpr, at: nat): (r: Option<Parsed<AndExpr>>)
    requires at <= |ts|
    ensures r.Some? ==> at <= r.value.at <= |ts|
    decreases |ts| - at, 1
  {
    if Peek(ts, at) != Some("AND") then Some(Parsed(left, at))
    else
      var a :- ParseAtom(ts, at + 1);
      AndLoop(ts, AndMore(left, a.value), a.at)
  }

  function ParseOr(ts: seq<string>, at: nat): (r: Option<Parsed<OrExpr>>)
    ensures r.Some? ==> at < r.value.at <= |ts|
    decreases |ts| - at, 4
  {
    var c :- ParseAnd(ts, at);
    OrLoop(ts, OrOne(c.value), c.at)
  }

  function OrLoop(ts: seq<string>, left: OrExpr, at: nat): (r: Option<Parsed<OrExpr>>)
    requires at <= |ts|
    ensures r.Some? ==> at <= r.value.at <= |ts|
    decreases |ts| - at, 3
  {
    if Peek(ts, at) != Some("OR") then Some(Parsed(left, at))
    else
      var c :- ParseAnd(ts, at + 1);
      OrLoop(ts, OrMore(left, c.value), c.at)
  }

  /** The whole token list as one expression. */
  function ParseTokens(ts: seq<string>): Option<OrExpr>
  {
    var e :- ParseOr(ts, 0);
    if e.at == |ts| then Some(e.value) else None
  }

  // ----- the parser, with a moving cursor and loops -----

  method Atomic(ts: seq<string>, start: nat) returns (r: Option<Parsed<Node>>)
    ensures r == var p := ParseAtom(ts, start);
      if p.None? then None else Some(Parsed(AtomTree(p.value.value), p.value.at))
    decreases |ts| - start, 0
  {
    var at := start;
    if at >= |ts| { return None; }
    var token := ts[at];
    at := at + 1;
    if token == ")" || IsOperator(token) { return None; }
    if token == "(" {
      var inner := Disjunction(ts, at);
      if inner.None? { return None; }
      at := inner.value.at;
      if at >= |ts| || ts[at] != ")" { return None; }
      return Some(Parsed(inner.value.value, at + 1));
    }
    if at >= |ts| || ts[at] != "WITH" { return Some(Parsed(Id(token), at)); }
    if at + 1 >= |ts| || !IsName(ts[at + 1]) { return None; }
    return Some(Parsed(Id(token + " WITH " + ts[at + 1]), at + 2));
  }

  method Conjunction(ts: seq<string>, start: nat) returns (r: Option<Parsed<Node>>)
    ensures r == var p := ParseAnd(ts, start);
      if p.None? then None else Some(Parsed(AndTree(p.value.value), p.value.at))
    decreases |ts| - start, 1
  {
    var first := Atomic(ts, start);
    if first.None? { return None; }
    var left, at := first.value.value, first.value.at;
    ghost var syntax := AndOne(ParseAtom(ts, start).value.value);
    while at < |ts| && ts[at] == "AND"
      invariant start < at <= |ts| && left == AndTree(syntax)
      invariant ParseAnd(ts, start) == AndLoop(ts, syntax, at)
      decreases |ts| - at
    {
      var right := Atomic(ts, at + 1);
      if right.None? { return None; }
      syntax := AndMore(syntax, ParseAtom(ts, at + 1).value.value);
      left, at := And(left, right.value.value), right.value.at;
    }
    return Some(Parsed(left, at));
  }

  method Disjunction(ts: seq<string>, start: nat) returns (r: Option<Parsed<Node>>)
    ensures r == var p := ParseOr(ts, start);
      if p.None? then None else Some(Parsed(OrTree(p.value.value), p.value.at))
    decreases |ts| - start, 2
  {
    var first := Conjunction(ts, start);
    if first.None? { return None; }
    var left, at := first.value.value, first.value.at;
    ghost var syntax := OrOne(ParseAnd(ts, start).value.value);
    while at < |ts| && ts[at] == "OR"
      invariant start < at <= |ts| && left == OrTree(syntax)
      invariant ParseOr(ts, start) == OrLoop(ts, syntax, at)
      decreases |ts| - at
    {
      var right := Conjunction(ts, at + 1);
      if right.None? { return None; }
      syntax := OrMore(syntax, ParseAnd(ts, at + 1).value.value);
      left, at := Or(left, right.value.value), right.value.at;
    }
    return Some(Parsed(left, at));
  }

  /** e is a grammatical expression whose tokens are ts. */
  predicate IsSyntaxOf(e: OrExpr, ts: seq<string>) { ValidOr(e) && OrTokens(e) == ts }

  ghost predicate Grammatical(ts: seq<string>) { exists e :: IsSyntaxOf(e, ts) }

  lemma {:induction false} ParsedIsGrammatical(ts: seq<string>, e: OrExpr)
    requires ParseTokens(ts) == Some(e)
    ensures Grammatical(ts)
    ensures forall x | IsSyntaxOf(x, ts) :: x == e
  {
    AcceptsExactlyGrammar(ts, e);
    assert IsSyntaxOf(e, ts);
    forall x | IsSyntaxOf(x, ts) ensures x == e { AcceptsExactlyGrammar(ts, x); }
  }

  lemma {:induction false} UnparsedIsNotGrammatical(ts: seq<string>)
    requires ParseTokens(ts).None?
    ensures !Grammatical(ts)
  {
    forall x ensures !IsSyntaxOf(x, ts) { AcceptsExactlyGrammar(ts, x); }
  }

  /** `parseSpdx` succeeds exactly on the tokens of a grammatical expression, with its tree. */
  method ParseSpdx(expression: string) returns (r: Option<Node>)
    ensures r.Some? <==> Lex(expression).Some? && Grammatical(Lex(expression).value)
    ensures forall e | Lex(expression).Some? && IsSyntaxOf(e, Lex(expression).value) :: r == Some(OrTree(e))
  {
    var tokens := Tokenize(expression);
    if tokens.None? { return None; }
    var ts := tokens.value;
    var tree := Disjunction(ts, 0);
    if tree.None? || tree.value.at != |ts| {
      UnparsedIsNotGrammatical(ts);
      return None;
    }
    ParsedIsGrammatical(ts, ParseOr(ts, 0).value.value);
    return Some(tree.value.value);
  }

  // ----- soundness -----

  lemma Slice(ts: seq<string>, i: nat, j: nat, k: nat)
    requires i <= j <= k <= |ts|
    ensures ts[i..k] == ts[i..j] + ts[j..k]
  {
  }

  lemma {:induction false} AtomSound(ts: seq<string>, at: nat)
    requires ParseAtom(ts, at).Some?
    ensures var p := ParseAtom(ts, at).value; ValidAtom(p.value) && ts[at..p.at] == AtomTokens(p.value)
    decreases |ts| - at, 0
  {
    if ts[at] == "(" {
      OrSound(ts, at + 1);
      var inner := ParseOr(ts, at + 1).value;
      Slice(ts, at, at + 1, inner.at + 1);
      Slice(ts, at + 1, inner.at, inner.at + 1);
      assert ts[at..at + 1] == ["("] && ts[inner.at..inner.at + 1] == [")"];
      assert ["("] + (OrTokens(inner.value) + [")"]) == ["("] + OrTokens(inner.value) + [")"];
    }
  }

  lemma {:induction false} AndSound(ts: seq<string>, at: nat)
    requires ParseAnd(ts, at).Some?
    ensures var p := ParseAnd(ts, at).value; ValidAnd(p.value) && ts[at..p.at] == AndTokens(p.value)
    decreases |ts| - at, 2
  {
    AtomSound(ts, at);
    var a := ParseAtom(ts, at).value;
    AndLoopSound(ts, AndOne(a.value), at, a.at);
  }

  lemma {:induction false} AndLoopSound(ts: seq<string>, left: AndExpr, start: nat, at: nat)
    requires start < at <= |ts| && AndLoop(ts, left, at).Some?
    requires ValidAnd(left) && ts[start..at] == AndTokens(left)
    ensures var p := AndLoop(ts, left, at).value; ValidAnd(p.value) && ts[start..p.at] == AndTokens(p.value)
    decreases |ts| - at, 1
  {
    if Peek(ts, at) == Some("AND") {
      AtomSound(ts, at + 1);
      var a := ParseAtom(ts, at + 1).value;
      Slice(ts, start, at, a.at);
      Slice(ts, at, at + 1, a.at);
      assert ts[at..at + 1] == ["AND"];
      assert AndTokens(left) + (["AND"] + AtomTokens(a.value)) == AndTokens(left) + ["AND"] + AtomTokens(a.value);
      AndLoopSound(ts, AndMore(left, a.value), start, a.at);
    }
  }

  lemma {:induction false} OrSound(ts: seq<string>, at: nat)
    requires ParseOr(ts, at).Some?
    ensures var p := ParseOr(ts, at).value; ValidOr(p.value) && ts[at..p.at] == OrTokens(p.value)
    decreases |ts| - at, 4
  {
    AndSound(ts, at);
    var c := ParseAnd(ts, at).value;
    OrLoopSound(ts, OrOne(c.value), at, c.at);
  }

  lemma {:induction false} OrLoopSound(ts: seq<string>, left: OrExpr, start: nat, at: nat)
    requires start < at <= |ts| && OrLoop(ts, left, at).Some?
    requires ValidOr(left) && ts[start..at] == OrTokens(left)
    ensures var p := OrLoop(ts, left, at).value; ValidOr(p.value) && ts[start..p.at] == OrTokens(p.value)
    decreases |ts| - at, 3
  {
    if Peek(ts, at) == Some("OR") {
      AndSound(ts, at + 1);
      var c := ParseAnd(ts, at + 1).value;
      Slice(ts, start, at, c.at);
      Slice(ts, at, at + 1, c.at);
      assert ts[at..at + 1] == ["OR"];
      assert OrTokens(left) + (["OR"] + AndTokens(c.value)) == OrTokens(left) + ["OR"] + AndTokens(c.value);
      OrLoopSound(ts, OrMore(left, c.value), start, c.at);
    }
  }

  // ----- completeness -----

  ghost predicate Starts(ts: seq<string>, at: nat, part: seq<string>)
  {
    at + |part| <= |ts| && forall i {:trigger part[i]} | 0 <= i < |part| :: ts[at + i] == part[i]
  }

  lemma StartsSplit(ts: seq<string>, at: nat, a: seq<string>, b: seq<string>)
    requires Starts(ts, at, a + b)
    ensures Starts(ts, at, a) && Starts(ts, at + |a|, b)
  {
    var c := a + b;
    assert forall i {:trigger a[i]} | 0 <= i < |a| :: c[i] == a[i];
    assert forall i {:trigger b[i]} | 0 <= i < |b| :: c[|a| + i] == b[i];
  }

  lemma StartsThree(ts: seq<string>, at: nat, a: seq<string>, t: string, b: seq<string>)
    requires Starts(ts, at, a + [t] + b)
    ensures Starts(ts, at, a) && Peek(ts, at + |a|) == Some(t) && Starts(ts, at + |a| + 1, b)
  {
    StartsSplit(ts, at, a + [t], b);
    StartsSplit(ts, at, a, [t]);
    assert [t][0] == t;
  }

  lemma ParenStarts(ts: seq<string>, at: nat, inner: seq<string>)
    requires Starts(ts, at, ["("] + (inner + [")"]))
    ensures at + 1 + |inner| < |ts| && ts[at] == "(" && Starts(ts, at + 1, inner) && ts[at + 1 + |inner|] == ")"
  {
    StartsSplit(ts, at, ["("], inner + [")"]);
    StartsSplit(ts, at + 1, inner, [")"]);
    assert ["("][0] == "(" && [")"][0] == ")";
  }

  lemma {:induction false} AtomComplete(ts: seq<string>, at: nat, a: Atom)
    requires ValidAtom(a) && Starts(ts, at, AtomTokens(a))
    requires Peek(ts, at + |AtomTokens(a)|) != Some("WITH")
    ensures ParseAtom(ts, at) == Some(Parsed(a, at + |AtomTokens(a)|))
    decreases a, 1
  {
    var part := AtomTokens(a);
    match a
    case License(id) =>
      assert part[0] == id;
    case LicenseWith(id, exception) =>
      assert part[0] == id && part[1] == "WITH" && part[2] == exception;
    case Paren(inner) =>
      var m := |OrTokens(inner)|;
      assert part == ["("] + (OrTokens(inner) + [")"]);
      ParenStarts(ts, at, OrTokens(inner));
      OrComplete(ts, at + 1, inner);
      OrStops(ts, inner, at + 1 + m);
  }

  /** The parser reaches its loop with the whole of e already built. */
  lemma {:induction false} AndComplete(ts: seq<string>, at: nat, e: AndExpr)
    requires ValidAnd(e) && Starts(ts, at, AndTokens(e))
    requires Peek(ts, at + |AndTokens(e)|) != Some("WITH")
    ensures ParseAnd(ts, at) == AndLoop(ts, e, at + |AndTokens(e)|)
    decreases e, 2
  {
    match e
    case AndOne(a) =>
      AtomComplete(ts, at, a);
    case AndMore(l, r) =>
      StartsThree(ts, at, AndTokens(l), "AND", AtomTokens(r));
      var k := at + |AndTokens(l)|;
      AndComplete(ts, at, l);
      AtomComplete(ts, k + 1, r);
      AndContinues(ts, l, k, r, k + 1 + |AtomTokens(r)|);
  }

  lemma {:induction false} OrComplete(ts: seq<string>, at: nat, e: OrExpr)
    requires ValidOr(e) && Starts(ts, at, OrTokens(e))
    requires Peek(ts, at + |OrTokens(e)|) != Some("WITH") && Peek(ts, at + |OrTokens(e)|) != Some("AND")
    ensures ParseOr(ts, at) == OrLoop(ts, e, at + |OrTokens(e)|)
    decreases e, 3
  {
    match e
    case OrOne(c) =>
      AndComplete(ts, at, c);
      OrBegins(ts, at, c, at + |AndTokens(c)|);
    case OrMore(l, r) =>
      StartsThree(ts, at, OrTokens(l), "OR", AndTokens(r));
      var k := at + |OrTokens(l)|;
      OrComplete(ts, at, l);
      AndComplete(ts, k + 1, r);
      OrContinues(ts, l, k, r, k + 1 + |AndTokens(r)|);
  }

  lemma {:induction false} AndContinues(ts: seq<string>, left: AndExpr, at: nat, a: Atom, next: nat)
    requires at <= |ts| && Peek(ts, at) == Some("AND") && ParseAtom(ts, at + 1) == Some(Parsed(a, next))
    ensures AndLoop(ts, left, at) == AndLoop(ts, AndMore(left, a), next)
  {
  }

  lemma {:induction false} OrBegins(ts: seq<string>, at: nat, c: AndExpr, next: nat)
    requires next <= |ts| && ParseAnd(ts, at) == AndLoop(ts, c, next) && Peek(ts, next) != Some("AND")
    ensures ParseOr(ts, at) == OrLoop(ts, OrOne(c), next)
  {
    AndStops(ts, c, next);
  }

  lemma {:induction false} OrContinues(ts: seq<string>, left: OrExpr, at: nat, c: AndExpr, next: nat)
    requires at <= |ts| && Peek(ts, at) == Some("OR")
    requires next <= |ts| && ParseAnd(ts, at + 1) == AndLoop(ts, c, next) && Peek(ts, next) != Some("AND")
    ensures OrLoop(ts, left, at) == OrLoop(ts, OrMore(left, c), next)
  {
    AndStops(ts, c, next);
  }

  lemma {:induction false} AndStops(ts: seq<string>, e: AndExpr, at: nat)
    requires at <= |ts| && Peek(ts, at) != Some("AND")
    ensures AndLoop(ts, e, at) == Some(Parsed(e, at))
  {
  }

  lemma {:induction false} OrStops(ts: seq<string>, e: OrExpr, at: nat)
    requires at <= |ts| && Peek(ts, at) != Some("OR")
    ensures OrLoop(ts, e, at) == Some(Parsed(e, at))
  {
  }

  /** The parser accepts exactly the grammar, in which AND binds tighter than OR and both associate
      to the left, and the grammar is unambiguous: a token list is one expression's or none's. */
  lemma AcceptsExactlyGrammar(ts: seq<string>, e: OrExpr)
    ensures ParseTokens(ts) == Some(e) <==> ValidOr(e) && OrTokens(e) == ts
  {
    if ParseTokens(ts) == Some(e) {
      OrSound(ts, 0);
      assert ts[0..|ts|] == ts;
    }
    if ValidOr(e) && OrTokens(e) == ts {
      assert ts[0..|ts|] == ts;
      OrComplete(ts, 0, e);
    }
  }

  lemma Unambiguous(a: OrExpr, b: OrExpr)
    requires ValidOr(a) && ValidOr(b) && OrTokens(a) == OrTokens(b)
    ensures a == b
  {
    AcceptsExactlyGrammar(OrTokens(a), a);
    AcceptsExactlyGrammar(OrTokens(a), b);
  }

  // ----- a fully parenthesised printer -----

  predicate IsSimple(id: string)
  {
    id != "" && IsName(id) && forall i | 0 <= i < |id| :: IsIdChar(id[i])
  }

  /** An identifier as the parser builds it: a name, or a name with an exception. */
  ghost predicate IsIdentifier(id: string)
  {
    IsSimple(id) || exists a, b :: IsSimple(a) && IsSimple(b) && id == a + " WITH " + b
  }

  ghost predicate Printable(n: Node)
  {
    match n
    case Id(id) => IsIdentifier(id)
    case And(l, r) => Printable(l) && Printable(r)
    case Or(l, r) => Printable(l) && Printable(r)
  }

  function Infix(l: string, word: string, r: string): string
  {
    "(" + l + (" " + word + " ") + r + ")"
  }

  function Show(n: Node): string
  {
    match n
    case Id(id) => id
    case And(l, r) => Infix(Show(l), "AND", Show(r))
    case Or(l, r) => Infix(Show(l), "OR", Show(r))
  }

  /** The syntax the printer writes. */
  ghost function SyntaxOf(n: Node): Atom
    requires Printable(n)
  {
    match n
    case Id(id) =>
      if IsSimple(id) then License(id)
      else var a, b :| IsSimple(a) && IsSimple(b) && id == a + " WITH " + b; LicenseWith(a, b)
    case And(l, r) => Paren(OrOne(AndMore(AndOne(SyntaxOf(l)), SyntaxOf(r))))
    case Or(l, r) => Paren(OrMore(OrOne(AndOne(SyntaxOf(l))), AndOne(SyntaxOf(r))))
  }

  lemma {:induction false} SyntaxIsValid(n: Node)
    requires Printable(n)
    ensures ValidAtom(SyntaxOf(n)) && AtomTree(SyntaxOf(n)) == n
  {
    match n
    case Id(_) =>
    case And(l, r) =>
      SyntaxIsValid(l);
      SyntaxIsValid(r);
      var e := AndMore(AndOne(SyntaxOf(l)), SyntaxOf(r));
      assert ValidAnd(AndOne(SyntaxOf(l))) && AndTree(AndOne(SyntaxOf(l))) == l;
      assert ValidAnd(e) && AndTree(e) == n;
      assert ValidOr(OrOne(e)) && OrTree(OrOne(e)) == n;
    case Or(l, r) =>
      SyntaxIsValid(l);
      SyntaxIsValid(r);
      var a, b := AndOne(SyntaxOf(l)), AndOne(SyntaxOf(r));
      assert ValidAnd(a) && AndTree(a) == l && ValidAnd(b) && AndTree(b) == r;
      assert ValidOr(OrOne(a)) && OrTree(OrOne(a)) == l;
      assert ValidOr(OrMore(OrOne(a), b)) && OrTree(OrMore(OrOne(a), b)) == n;
  }

  /** Text after which an identifier has ended. */
  predicate Ends(rest: string) { rest == "" || !IsIdChar(rest[0]) }

  lemma {:induction false} IdLengthOf(id: string, rest: string)
    requires (forall i | 0 <= i < |id| :: IsIdChar(id[i])) && Ends(rest)
    ensures IdLength(id + rest) == |id|
  {
    if id != "" {
      assert (id + rest)[1..] == id[1..] + rest;
      IdLengthOf(id[1..], rest);
    } else {
      assert id + rest == rest;
    }
  }

  lemma LexName(id: string, rest: string)
    requires IsSimple(id) && Ends(rest)
    ensures Lex(id + rest) == Prepend([id], Lex(rest))
  {
    IdLengthOf(id, rest);
    var s := id + rest;
    assert s[0] == id[0] && IsIdChar(s[0]) && !IsSpace(s[0]) && !IsParen(s[0]);
    assert s[..|id|] == id && s[|id|..] == rest;
  }

  lemma LexWord(word: string, rest: string)
    requires word == "AND" || word == "OR" || word == "WITH"
    requires Ends(rest)
    ensures Lex(word + rest) == Prepend([word], Lex(rest))
  {
    IdLengthOf(word, rest);
    var s := word + rest;
    assert s[0] == word[0] && IsIdChar(s[0]) && !IsSpace(s[0]) && !IsParen(s[0]);
    assert s[..|word|] == word && s[|word|..] == rest;
  }

  lemma LexSpace(rest: string)
    ensures Lex([' '] + rest) == Lex(rest)
  {
    assert ([' '] + rest)[1..] == rest;
  }

  lemma LexSpaced(word: string, rest: string)
    requires word == "AND" || word == "OR" || word == "WITH"
    ensures Lex([' '] + word + [' '] + rest) == Prepend([word], Lex(rest))
  {
    assert [' '] + word + [' '] + rest == [' '] + (word + ([' '] + rest));
    LexSpace(word + ([' '] + rest));
    LexWord(word, [' '] + rest);
    LexSpace(rest);
  }

  lemma LexParen(c: char, rest: string)
    requires IsParen(c)
    ensures Lex([c] + rest) == Prepend([[c]], Lex(rest))
  {
    assert ([c] + rest)[1..] == rest;
  }

  lemma PrependAssoc(a: seq<string>, b: seq<string>, r: Option<seq<string>>)
    ensures Prepend(a, Prepend(b, r)) == Prepend(a + b, r)
  {
    if r.Some? { assert a + (b + r.value) == (a + b) + r.value; }
  }

  lemma LexException(a: string, b: string, rest: string)
    requires IsSimple(a) && IsSimple(b) && Ends(rest)
    ensures Lex(a + " WITH " + b + rest) == Prepend([a, "WITH", b], Lex(rest))
  {
    var t1 := b + rest;
    var t0 := [' '] + "WITH" + [' '] + t1;
    assert a + " WITH " + b + rest == a + t0;
    LexName(a, t0);
    LexSpaced("WITH", t1);
    LexName(b, rest);
    PrependAssoc(["WITH"], [b], Lex(rest));
    PrependAssoc([a], ["WITH"] + [b], Lex(rest));
    assert [a] + (["WITH"] + [b]) == [a, "WITH", b];
  }

  /** A parenthesised pair, given that its parts tokenize to x and y. */
  lemma LexPair(l: string, word: string, r: string, rest: string, x: seq<string>, y: seq<string>)
    requires word == "AND" || word == "OR"
    requires Lex(l + ([' '] + word + [' '] + (r + ([')'] + rest)))) ==
             Prepend(x, Lex([' '] + word + [' '] + (r + ([')'] + rest))))
    requires Lex(r + ([')'] + rest)) == Prepend(y, Lex([')'] + rest))
    ensures Lex(['('] + (l + ([' '] + word + [' '] + (r + ([')'] + rest))))) ==
            Prepend(["("] + (x + ([word] + (y + [")"]))), Lex(rest))
  {
    var end := Lex(rest);
    LexParen(')', rest);
    PrependAssoc(y, [")"], end);
    LexSpaced(word, r + ([')'] + rest));
    PrependAssoc([word], y + [")"], end);
    PrependAssoc(x, [word] + (y + [")"]), end);
    LexParen('(', l + ([' '] + word + [' '] + (r + ([')'] + rest))));
    PrependAssoc(["("], x + ([word] + (y + [")"])), end);
  }

  lemma PairText(l: string, word: string, r: string, rest: string)
    ensures Infix(l, word, r) + rest == ['('] + (l + ([' '] + word + [' '] + (r + ([')'] + rest))))
  {
  }

  lemma PairTokens(x: seq<string>, word: string, y: seq<string>)
    ensures ["("] + (x + ([word] + (y + [")"]))) == ["("] + (x + [word] + y) + [")"]
  {
  }

  /** Tokenizing printed text gives back the tokens of the syntax, whatever follows. */
  lemma {:induction false} LexShow(n: Node, rest: string)
    requires Printable(n) && Ends(rest)
    ensures Lex(Show(n) + rest) == Prepend(AtomTokens(SyntaxOf(n)), Lex(rest))
    decreases n
  {
    match n
    case Id(id) =>
      if IsSimple(id) {
        LexName(id, rest);
      } else {
        LexException(SyntaxOf(n).id, SyntaxOf(n).exception, rest);
      }
    case And(l, r) =>
      LexBinary(n, l, "AND", r, rest);
      PairTokens(AtomTokens(SyntaxOf(l)), "AND", AtomTokens(SyntaxOf(r)));
      assert AtomTokens(SyntaxOf(n)) ==
             ["("] + (AtomTokens(SyntaxOf(l)) + ["AND"] + AtomTokens(SyntaxOf(r))) + [")"] by {
        var e := AndMore(AndOne(SyntaxOf(l)), SyntaxOf(r));
        assert AndTokens(AndOne(SyntaxOf(l))) == AtomTokens(SyntaxOf(l));
        assert OrTokens(OrOne(e)) == AndTokens(e);
      }
    case Or(l, r) =>
      LexBinary(n, l, "OR", r, rest);
      PairTokens(AtomTokens(SyntaxOf(l)), "OR", AtomTokens(SyntaxOf(r)));
      assert AtomTokens(SyntaxOf(n)) ==
             ["("] + (AtomTokens(SyntaxOf(l)) + ["OR"] + AtomTokens(SyntaxOf(r))) + [")"] by {
        var a, b := AndOne(SyntaxOf(l)), AndOne(SyntaxOf(r));
        assert OrTokens(OrOne(a)) == AndTokens(a) == AtomTokens(SyntaxOf(l));
        assert AndTokens(b) == AtomTokens(SyntaxOf(r));
      }
  }

  lemma {:induction false} LexBinary(n: Node, l: Node, word: string, r: Node, rest: string)
    requires Printable(l) && Printable(r) && l < n && r < n
    requires (word == "AND" && n == And(l, r)) || (word == "OR" && n == Or(l, r))
    ensures Lex(Show(n) + rest) ==
            Prepend(["("] + (AtomTokens(SyntaxOf(l)) + ([word] + (AtomTokens(SyntaxOf(r)) + [")"]))), Lex(rest))
    decreases n, 0
  {
    var t2 := Show(r) + ([')'] + rest);
    LexShow(l, [' '] + word + [' '] + t2);
    LexShow(r, [')'] + rest);
    LexPair(Show(l), word, Show(r), rest, AtomTokens(SyntaxOf(l)), AtomTokens(SyntaxOf(r)));
    PairText(Show(l), word, Show(r), rest);
    assert Show(n) == Infix(Show(l), word, Show(r));
  }

  /** Parsing inverts the printer through tokenization. */
  lemma PrintParse(n: Node)
    requires Printable(n)
    ensures Lex(Show(n)).Some? && ParseTokens(Lex(Show(n)).value).Some?
    ensures OrTree(ParseTokens(Lex(Show(n)).value).value) == n
  {
    var e := OrOne(AndOne(SyntaxOf(n)));
    SyntaxIsValid(n);
    LexShow(n, "");
    assert Show(n) + "" == Show(n);
    assert AtomTokens(SyntaxOf(n)) + [] == OrTokens(e);
    AcceptsExactlyGrammar(OrTokens(e), e);
  }

  // ----- evaluation -----

  predicate IsAllowed(n: Node, allowed: set<string>)
  {
    match n
    case Id(id) => id in allowed
    case And(l, r) => IsAllowed(l, allowed) && IsAllowed(r, allowed)
    case Or(l, r) => IsAllowed(l, allowed) || IsAllowed(r, allowed)
  }

  /** Disjunctive normal form: the alternative sets of licences the expression offers. */
  function Clauses(n: Node): set<set<string>>
  {
    match n
    case Id(id) => {{id}}
    case And(l, r) => set a, b | a in Clauses(l) && b in Clauses(r) :: a + b
    case Or(l, r) => Clauses(l) + Clauses(r)
  }

  /** An expression is allowed exactly when some clause of its normal form is wholly allowed. */
  lemma {:induction false} AllowedIsSomeClause(n: Node, allowed: set<string>)
    ensures IsAllowed(n, allowed) <==> exists c | c in Clauses(n) :: c <= allowed
  {
    match n
    case Id(id) => assert {id} in Clauses(n);
    case And(l, r) =>
      AllowedIsSomeClause(l, allowed);
      AllowedIsSomeClause(r, allowed);
      if IsAllowed(n, allowed) {
        var a :| a in Clauses(l) && a <= allowed;
        var b :| b in Clauses(r) && b <= allowed;
        assert a + b in Clauses(n);
      }
      if c :| c in Clauses(n) && c <= allowed {
        var a, b :| a in Clauses(l) && b in Clauses(r) && c == a + b;
      }
    case Or(l, r) =>
      AllowedIsSomeClause(l, allowed);
      AllowedIsSomeClause(r, allowed);
  }

  /** Widening the allowlist never forbids an expression. */
  lemma {:induction false} AllowedIsMonotone(n: Node, allowed: set<string>, more: set<string>)
    requires allowed <= more && IsAllowed(n, allowed)
    ensures IsAllowed(n, more)
  {
    AllowedIsSomeClause(n, allowed);
    AllowedIsSomeClause(n, more);
  }

  /** A licence under an exception is never allowed by an allowlist of plain licence ids. */
  lemma {:induction false} ExceptionNeverRidesIn(id: string, exception: string, allowed: set<string>)
    requires forall a | a in allowed :: IsSimple(a)
    ensures !IsAllowed(AtomTree(LicenseWith(id, exception)), allowed)
  {
    var named := id + " WITH " + exception;
    assert AtomTree(LicenseWith(id, exception)) == Id(named);
    assert named[|id|] == ' ' && !IsIdChar(named[|id|]);
    assert !IsSimple(named);
    assert named !in allowed;
    assert !IsAllowed(Id(named), allowed);
  }
}
