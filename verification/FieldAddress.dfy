/** Contract addresses as grants list them and calls name them, and the one comparison between
    the two (packages/wallet-bridge/src/field-address.ts). */
module FieldAddress {
  import opened Wrappers
  import opened Text
  import opened Seqs

  /** The BN254 scalar field modulus. */
  const MODULUS: nat := 0x30644e72e131a029b85045b68181585d2833e84879b9709143e1f593f0000001

  const DIGITS: nat := 64

  predicate IsHexDigit(c: char)
  {
    '0' <= c <= '9' || 'a' <= c <= 'f' || 'A' <= c <= 'F'
  }

  function HexDigit(c: char): (d: nat)
    requires IsHexDigit(c)
    ensures d < 16
  {
    if c <= '9' then c as int - '0' as int
    else if c <= 'F' then c as int - 'A' as int + 10
    else c as int - 'a' as int + 10
  }

  predicate AllHex(s: string) { forall i | 0 <= i < |s| :: IsHexDigit(s[i]) }

  /** `BigInt("0x" + s)`. */
  function HexValue(s: string): nat
    requires AllHex(s)
  {
    if s == "" then 0 else HexValue(s[..|s| - 1]) * 16 + HexDigit(s[|s| - 1])
  }

  predicate IsFieldAddress(s: string)
  {
    |s| == 2 + DIGITS && s[..2] == "0x" && AllHex(s[2..]) && HexValue(s[2..]) < MODULUS
  }

  /** The 32-byte value an address spells. */
  function ValueOf(s: string): nat
    requires IsFieldAddress(s)
  {
    HexValue(s[2..])
  }

  function FieldAddressKey(s: string): Option<string>
  {
    if IsFieldAddress(s) then Some(Lower(s)) else None
  }

  predicate SameFieldAddress(a: string, b: string)
  {
    FieldAddressKey(a).Some? && FieldAddressKey(a) == FieldAddressKey(b)
  }

  // ----- the comparison is numeric equality -----

  lemma HexDigitOfLower(c: char, d: char)
    requires IsHexDigit(c) && IsHexDigit(d)
    ensures HexDigit(c) == HexDigit(d) <==> LowerChar(c) == LowerChar(d)
  {
  }

  lemma DigitSplit(x: nat, d: nat, y: nat, e: nat)
    requires d < 16 && e < 16
    ensures x * 16 + d == y * 16 + e <==> x == y && d == e
  {
  }

  lemma {:induction false} LowerSplit(a: string)
    requires a != ""
    ensures Lower(a) == Lower(a[..|a| - 1]) + [LowerChar(a[|a| - 1])]
  {
    var k := |a| - 1;
    var r := Lower(a[..k]) + [LowerChar(a[k])];
    assert |Lower(a)| == |r|;
    assert forall i | 0 <= i < |a| :: Lower(a)[i] == r[i];
  }

  /** Fixed-width numerals are equal as numbers exactly when they are equal up to case. */
  lemma {:induction false} HexValueExact(a: string, b: string)
    requires |a| == |b| && AllHex(a) && AllHex(b)
    ensures HexValue(a) == HexValue(b) <==> Lower(a) == Lower(b)
  {
    if a != "" {
      var k := |a| - 1;
      var x, y := a[..k], b[..k];
      HexValueExact(x, y);
      HexDigitOfLower(a[k], b[k]);
      DigitSplit(HexValue(x), HexDigit(a[k]), HexValue(y), HexDigit(b[k]));
      LowerSplit(a);
      LowerSplit(b);
      AppendInjective(Lower(x), LowerChar(a[k]), Lower(y), LowerChar(b[k]));
    }
  }

  lemma AppendInjective(x: string, c: char, y: string, d: char)
    requires |x| == |y|
    ensures x + [c] == y + [d] <==> x == y && c == d
  {
    assert (x + [c])[..|x|] == x && (y + [d])[..|y|] == y;
    assert (x + [c])[|x|] == c && (y + [d])[|y|] == d;
  }

  /** `sameFieldAddress` holds exactly for two well-formed spellings of one 32-byte value. */
  lemma SameIsNumericEquality(a: string, b: string)
    ensures SameFieldAddress(a, b) <==>
            IsFieldAddress(a) && IsFieldAddress(b) && ValueOf(a) == ValueOf(b)
  {
    if IsFieldAddress(a) && IsFieldAddress(b) {
      HexValueExact(a[2..], b[2..]);
      assert Lower(a)[2..] == Lower(a[2..]) && Lower(b)[2..] == Lower(b[2..]);
      assert a == "0x" + a[2..] && b == "0x" + b[2..];
      if Lower(a)[2..] == Lower(b)[2..] {
        assert forall i | 0 <= i < |a| :: Lower(a)[i] == Lower(b)[i] by {
          forall i | 0 <= i < |a| ensures Lower(a)[i] == Lower(b)[i] {
            if i >= 2 {
              assert Lower(a)[i] == Lower(a)[2..][i - 2];
              assert Lower(b)[i] == Lower(b)[2..][i - 2];
            } else {
              assert a[i] == "0x"[i] && b[i] == "0x"[i];
            }
          }
        }
      }
    }
  }

  // ----- spelling a number, and an address no list names -----

  function HexChar(d: nat): (c: char)
    requires d < 16
    ensures IsHexDigit(c) && HexDigit(c) == d
  {
    if d < 10 then ('0' as int + d) as char else ('a' as int + d - 10) as char
  }

  function Pow16(k: nat): (p: nat)
    ensures p > 0
  {
    if k == 0 then 1 else 16 * Pow16(k - 1)
  }

  function Spell(n: nat, width: nat): (s: string)
    requires n < Pow16(width)
    ensures |s| == width && AllHex(s) && HexValue(s) == n
  {
    if width == 0 then ""
    else
      var s := Spell(n / 16, width - 1) + [HexChar(n % 16)];
      assert s[..width - 1] == Spell(n / 16, width - 1);
      s
  }

  lemma Pow16Step(k: nat)
    ensures Pow16(k + 4) == 0x10000 * Pow16(k)
  {
    assert Pow16(k + 4) == 16 * Pow16(k + 3) == 256 * Pow16(k + 2) == 4096 * Pow16(k + 1);
  }

  lemma ModulusFits()
    ensures MODULUS < Pow16(DIGITS)
  {
    Pow16Step(0); Pow16Step(4); Pow16Step(8); Pow16Step(12);
    Pow16Step(16); Pow16Step(20); Pow16Step(24); Pow16Step(28);
    Pow16Step(32); Pow16Step(36); Pow16Step(40); Pow16Step(44);
    Pow16Step(48); Pow16Step(52); Pow16Step(56); Pow16Step(60);
    assert Pow16(64) == 0x1_0000_0000_0000_0000_0000_0000_0000_0000_0000_0000_0000_0000_0000_0000_0000_0000;
  }

  /** Every value below the modulus has a spelling. */
  lemma SpellAddress(n: nat) returns (a: string)
    requires n < MODULUS
    ensures IsFieldAddress(a) && ValueOf(a) == n
  {
    ModulusFits();
    a := "0x" + Spell(n, DIGITS);
    assert a[2..] == Spell(n, DIGITS);
  }

  ghost function ValuesIn(listed: seq<string>): (vs: set<nat>)
    ensures |vs| <= |listed|
    ensures forall x | x in listed && IsFieldAddress(x) :: ValueOf(x) in vs
  {
    if listed == [] then {}
    else
      var rest := ValuesIn(listed[1..]);
      assert forall x | x in listed :: x == listed[0] || x in listed[1..];
      if IsFieldAddress(listed[0]) then rest + {ValueOf(listed[0])} else rest
  }

  function Below(n: nat): (s: set<nat>)
    ensures |s| == n && forall i: nat :: i in s <==> i < n
  {
    if n == 0 then {} else Below(n - 1) + {n - 1}
  }

  /** A list shorter than the field leaves some address out (pigeonhole). */
  lemma UnlistedAddress(listed: seq<string>) returns (a: string)
    requires |listed| < MODULUS
    ensures IsFieldAddress(a)
    ensures forall x | x in listed :: !SameFieldAddress(x, a)
  {
    var taken := ValuesIn(listed);
    var candidates := Below(|listed| + 1);
    if candidates <= taken {
      SubsetSize(candidates, taken);
      assert false;
    }
    var n: nat :| n in candidates && n !in taken;
    a := SpellAddress(n);
    forall x | x in listed ensures !SameFieldAddress(x, a) {
      SameIsNumericEquality(x, a);
    }
  }
}
