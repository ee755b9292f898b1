/** What the SPDX tokenizer accepts (packages/third-party-notices/src/spdx.ts), said over the text:
    tokens with blank gaps between them, and a gap that is not empty between two identifiers. */
module SpdxLexing {
  import opened Wrappers
  import opened Text
  import opened Spdx

  predicate Blank(s: string) { forall i | 0 <= i < |s| :: IsSpace(s[i]) }

  /** A licence identifier or a keyword: letters, digits, dots, plus signs and dashes. */
  predicate IsWord(t: string)
  {
    t != "" && forall i | 0 <= i < |t| ::
      'A' <= t[i] <= 'Z' || 'a' <= t[i] <= 'z' || '0' <= t[i] <= '9' || t[i] in {'.', '+', '-'}
  }

  /** The text spells the tokens; after a word, the next word needs a gap. */
  ghost predicate Spells(s: string, ts: seq<string>, afterWord: bool)
    decreases |ts|, 1
  {
    if ts == [] then Blank(s) else exists gap: nat :: SpellsAt(s, ts, afterWord, gap)
  }

  ghost predicate SpellsAt(s: string, ts: seq<string>, afterWord: bool, gap: nat)
    requires ts != []
    decreases |ts|, 0
  {
    var t := ts[0];
    && gap + |t| <= |s| && Blank(s[..gap]) && s[gap..gap + |t|] == t
    && (t == "(" || t == ")" || IsWord(t))
    && (afterWord && IsWord(t) ==> gap > 0)
    && Spells(s[gap + |t|..], ts[1..], IsWord(t))
  }

  predicate StartsWord(s: string) { s != "" && IsIdChar(s[0]) }

  lemma {:induction false} SpaceBefore(s: string, ts: seq<string>, afterWord: bool)
    requires s != "" && IsSpace(s[0]) && Spells(s[1..], ts, false)
    ensures Spells(s, ts, afterWord)
  {
    if ts == [] {
      assert s == [s[0]] + s[1..];
    } else {
      var gap: nat :| SpellsAt(s[1..], ts, false, gap);
      var n := |ts[0]|;
      assert s[..gap + 1] == [s[0]] + s[1..][..gap];
      assert s[gap + 1..gap + 1 + n] == s[1..][gap..gap + n];
      assert s[gap + 1 + n..] == s[1..][gap + n..];
      assert SpellsAt(s, ts, afterWord, gap + 1);
    }
  }

  lemma {:induction false} TokenFirst(s: string, ts: seq<string>, afterWord: bool, n: nat)
    requires 0 < n <= |s| && ts != [] && ts[0] == s[..n]
    requires ts[0] == "(" || ts[0] == ")" || (IsWord(ts[0]) && !afterWord)
    requires Spells(s[n..], ts[1..], IsWord(ts[0]))
    ensures Spells(s, ts, afterWord)
  {
    assert s[0..0 + n] == ts[0] && s[0 + n..] == s[n..];
    assert IsWord(ts[0]) ==> IsIdChar(ts[0][0]);
    assert SpellsAt(s, ts, afterWord, 0);
  }

  lemma {:induction false} LexedIsSpelled(s: string, ts: seq<string>, afterWord: bool)
    requires Lex(s) == Some(ts) && (afterWord ==> !StartsWord(s))
    ensures Spells(s, ts, afterWord)
    decreases |s|
  {
    if s == "" {
    } else if IsSpace(s[0]) {
      LexedIsSpelled(s[1..], ts, false);
      SpaceBefore(s, ts, afterWord);
    } else {
      var n := if IsParen(s[0]) then 1 else IdLength(s);
      assert ts[1..] == Lex(s[n..]).value && ts[0] == s[..n];
      assert IsWord(ts[0]) <==> !IsParen(s[0]) by {
        if IsParen(s[0]) { assert ts[0][0] == s[0]; }
      }
      LexedIsSpelled(s[n..], ts[1..], IsWord(ts[0]));
      TokenFirst(s, ts, afterWord, n);
    }
  }

  lemma {:induction false} GapLexes(s: string, gap: nat)
    requires gap <= |s| && Blank(s[..gap])
    ensures Lex(s) == Lex(s[gap..])
    decreases gap
  {
    if gap == 0 {
      assert s[0..] == s;
    } else {
      assert s[0] == s[..gap][0];
      assert s[1..][..gap - 1] == s[..gap][1..];
      GapLexes(s[1..], gap - 1);
      assert s[1..][gap - 1..] == s[gap..];
    }
  }

  lemma {:induction false} WordLength(s: string, n: nat)
    requires n <= |s| && (forall i | 0 <= i < n :: IsIdChar(s[i])) && !StartsWord(s[n..])
    ensures IdLength(s) == n
  {
    if n < |s| { assert s[n..][0] == s[n]; }
  }

  lemma {:induction false} TokenLexes(s: string, t: string)
    requires t <= s && (t == "(" || t == ")" || IsWord(t)) && (IsWord(t) ==> !StartsWord(s[|t|..]))
    ensures Lex(s) == if Lex(s[|t|..]).Some? then Some([t] + Lex(s[|t|..]).value) else None
  {
    assert s[..|t|] == t && s[0] == t[0];
    if IsWord(t) {
      forall i | 0 <= i < |t| ensures IsIdChar(s[i]) { assert s[i] == t[i]; }
      WordLength(s, |t|);
    }
  }

  lemma {:induction false} SpelledIsLexed(s: string, ts: seq<string>, afterWord: bool)
    requires Spells(s, ts, afterWord)
    ensures Lex(s) == Some(ts) && (afterWord ==> !StartsWord(s))
    decreases |ts|
  {
    if ts == [] {
      assert s[..|s|] == s;
      GapLexes(s, |s|);
    } else {
      var gap: nat :| SpellsAt(s, ts, afterWord, gap);
      var t := ts[0];
      var u := s[gap..];
      assert u[|t|..] == s[gap + |t|..] && t <= u;
      SpelledIsLexed(u[|t|..], ts[1..], IsWord(t));
      GapLexes(s, gap);
      TokenLexes(u, t);
      assert ts == [t] + ts[1..];
      NoWordFirst(s, ts, afterWord, gap);
    }
  }

  lemma {:induction false} NoWordFirst(s: string, ts: seq<string>, afterWord: bool, gap: nat)
    requires ts != [] && SpellsAt(s, ts, afterWord, gap)
    ensures afterWord ==> !StartsWord(s)
  {
    if gap > 0 { assert s[0] == s[..gap][0]; } else { assert s[0] == ts[0][0]; }
  }

  /** The tokenizer is sound and complete: it returns the tokens if and only if the text spells them,
      so it throws exactly on text that spells none. */
  lemma {:induction false} LexesExactly(s: string, ts: seq<string>)
    ensures Lex(s) == Some(ts) <==> Spells(s, ts, false)
  {
    if Lex(s) == Some(ts) { LexedIsSpelled(s, ts, false); }
    if Spells(s, ts, false) { SpelledIsLexed(s, ts, false); }
  }
}
