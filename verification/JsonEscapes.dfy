/** Repairing the backslashes of almost-JSON text, against section 7 of RFC 8259. */
module JsonEscapes {

  const BACKSLASH: char := '\\'

  /** What may follow a backslash by itself. */
  const SHORT: string := "\"\\/bfnrt"

  predicate Hex(c: char) {
    '0' <= c <= '9' || 'a' <= c <= 'f' || 'A' <= c <= 'F'
  }

  function HexValue(c: char): int
    requires Hex(c)
  {
    if c <= '9' then c as int - '0' as int
    else if c <= 'F' then c as int - 'A' as int + 10
    else c as int - 'a' as int + 10
  }

  /** The length of the valid escape that `s` begins with, 0 if it begins with none. */
  function EscapeLength(s: string): (n: nat)
    ensures n <= |s|
  {
    if |s| < 2 || s[0] != BACKSLASH then 0
    else if s[1] in SHORT then 2
    else if s[1] == 'u' && |s| >= 6 && Hex(s[2]) && Hex(s[3]) && Hex(s[4]) && Hex(s[5]) then 6
    else 0
  }

  /** Leftmost first, keep each valid escape whole and double each backslash that begins none. */
  function Repair(s: string): string
    decreases |s|
  {
    if s == [] then []
    else if s[0] != BACKSLASH then [s[0]] + Repair(s[1..])
    else if EscapeLength(s) > 0 then s[..EscapeLength(s)] + Repair(s[EscapeLength(s)..])
    else [BACKSLASH, BACKSLASH] + Repair(s[1..])
  }

  /** Read left to right, every backslash begins a valid escape. */
  predicate WellEscaped(s: string)
    decreases |s|
  {
    if s == [] then true
    else if s[0] != BACKSLASH then WellEscaped(s[1..])
    else EscapeLength(s) > 0 && WellEscaped(s[EscapeLength(s)..])
  }

  /** The code a valid escape stands for; `\uXXXX` gives one UTF-16 unit. */
  function Unescaped(e: string): int
    requires EscapeLength(e) > 0
  {
    match e[1]
    case 'b' => 8
    case 'f' => 12
    case 'n' => 10
    case 'r' => 13
    case 't' => 9
    case 'u' => ((HexValue(e[2]) * 16 + HexValue(e[3])) * 16 + HexValue(e[4])) * 16 + HexValue(e[5])
    case c => c as int
  }

  /** What a JSON reader makes of well-escaped text. */
  function Decode(s: string): seq<int>
    requires WellEscaped(s)
    decreases |s|
  {
    if s == [] then []
    else if s[0] != BACKSLASH then [s[0] as int] + Decode(s[1..])
    else [Unescaped(s)] + Decode(s[EscapeLength(s)..])
  }

  /** What the model meant: its valid escapes decoded, and a lone backslash standing for itself. */
  function Lenient(s: string): seq<int>
    decreases |s|
  {
    if s == [] then []
    else if EscapeLength(s) > 0 then [Unescaped(s)] + Lenient(s[EscapeLength(s)..])
    else [s[0] as int] + Lenient(s[1..])
  }

  lemma EscapeStands(e: string, rest: string)
    requires EscapeLength(e) == |e| > 0
    ensures EscapeLength(e + rest) == |e| && Unescaped(e + rest) == Unescaped(e)
    ensures (e + rest)[|e|..] == rest && (e + rest)[0] == BACKSLASH
  {
  }

  lemma PrefixIsEscape(s: string)
    requires EscapeLength(s) > 0
    ensures EscapeLength(s[..EscapeLength(s)]) == EscapeLength(s) && Unescaped(s[..EscapeLength(s)]) == Unescaped(s)
    ensures s == s[..EscapeLength(s)] + s[EscapeLength(s)..] && s[0] == BACKSLASH
  {
  }

  /** The repaired text is well escaped, and a reader gets from it exactly what the model meant. */
  lemma {:induction false} RepairDecodes(s: string)
    ensures WellEscaped(Repair(s)) && Decode(Repair(s)) == Lenient(s)
    decreases |s|
  {
    if s == [] {
    } else if EscapeLength(s) > 0 {
      var n := EscapeLength(s);
      RepairDecodes(s[n..]);
      PrefixIsEscape(s);
      EscapeStands(s[..n], Repair(s[n..]));
    } else {
      RepairDecodes(s[1..]);
      if s[0] == BACKSLASH {
        EscapeStands([BACKSLASH, BACKSLASH], Repair(s[1..]));
        assert Repair(s) == [BACKSLASH, BACKSLASH] + Repair(s[1..]);
      } else {
        assert ([s[0]] + Repair(s[1..]))[1..] == Repair(s[1..]);
      }
    }
  }

  /** Repair leaves text alone exactly when there is nothing to repair. */
  lemma {:induction false} RepairIsIdentityIffWellEscaped(s: string)
    ensures Repair(s) == s <==> WellEscaped(s)
    decreases |s|
  {
    if s == [] {
    } else if EscapeLength(s) > 0 {
      var n := EscapeLength(s);
      RepairIsIdentityIffWellEscaped(s[n..]);
      PrefixIsEscape(s);
      assert Repair(s)[n..] == Repair(s[n..]);
    } else {
      RepairIsIdentityIffWellEscaped(s[1..]);
      if s[0] == BACKSLASH {
        NeverShorter(s[1..]);
      } else {
        assert Repair(s)[1..] == Repair(s[1..]) && s == [s[0]] + s[1..];
      }
    }
  }

  lemma {:induction false} NeverShorter(s: string)
    ensures |Repair(s)| >= |s|
    decreases |s|
  {
    if s != [] {
      NeverShorter(s[1..]);
      if EscapeLength(s) > 0 {
        NeverShorter(s[EscapeLength(s)..]);
      }
    }
  }

  lemma RepairTwiceIsOnce(s: string)
    ensures Repair(Repair(s)) == Repair(s)
  {
    RepairDecodes(s);
    RepairIsIdentityIffWellEscaped(Repair(s));
  }

  // ---------------------------------------------------------------- which escapes are kept

  const LOWER: string := "0123456789abcdef"
  const UPPER: string := "0123456789ABCDEF"

  lemma HexIff(c: char)
    ensures Hex(c) <==> c in LOWER || c in UPPER
    ensures forall v :: 0 <= v < 16 && c in {LOWER[v], UPPER[v]} ==> Hex(c) && HexValue(c) == v
  {
    if Hex(c) {
      var k := if c <= '9' then c as int - '0' as int
               else if c <= 'F' then c as int - 'A' as int + 10 else c as int - 'a' as int + 10;
      assert 0 <= k < 16 && c in {LOWER[k], UPPER[k]};
    }
  }

  predicate Digit(c: char, value: nat) {
    value < 16 && (c == LOWER[value] || c == UPPER[value])
  }

  lemma DigitIs(c: char, value: nat)
    requires Digit(c, value)
    ensures Hex(c) && HexValue(c) == value
  {
    HexIff(c);
  }

  /** The escape of the unit with these four digits. */
  lemma UnitIs(s: string, a: nat, b: nat, c: nat, d: nat)
    requires |s| == 6 && s[0] == BACKSLASH && s[1] == 'u'
    requires Digit(s[2], a) && Digit(s[3], b) && Digit(s[4], c) && Digit(s[5], d)
    ensures EscapeLength(s) == 6 && Unescaped(s) == 0x1000 * a + 0x100 * b + 0x10 * c + d
  {
    DigitIs(s[2], a);
    DigitIs(s[3], b);
    DigitIs(s[4], c);
    DigitIs(s[5], d);
    hide Digit;
    hide Hex;
    hide HexValue;
  }

  /** A UTF-16 unit written in four hexadecimal digits of either case is kept by the repair, and a reader turns it back
      into the unit, whatever follows. */
  lemma UnitReadsBack(a: nat, b: nat, c: nat, d: nat, e: string, rest: string)
    requires |e| == 6 && e[0] == BACKSLASH && e[1] == 'u'
    requires Digit(e[2], a) && Digit(e[3], b) && Digit(e[4], c) && Digit(e[5], d)
    ensures Repair(e + rest) == e + Repair(rest) && WellEscaped(e + Repair(rest))
    ensures Decode(e + Repair(rest)) == [0x1000 * a + 0x100 * b + 0x10 * c + d] + Decode(Repair(rest))
  {
    hide *;
    UnitIs(e, a, b, c, d);
    EscapeIsKept(e, rest);
  }

  lemma EscapeIsKept(e: string, rest: string)
    requires EscapeLength(e) == |e| > 0
    ensures Repair(e + rest) == e + Repair(rest) && WellEscaped(e + Repair(rest))
    ensures Decode(e + Repair(rest)) == [Unescaped(e)] + Decode(Repair(rest))
  {
    hide EscapeLength;
    hide Unescaped;
    EscapeStands(e, rest);
    EscapeStands(e, Repair(rest));
    RepairDecodes(rest);
    assert (e + rest)[..|e|] == e;
  }

  lemma EscapeIs(s: string)
    requires s != [] && s[0] == BACKSLASH
    ensures EscapeLength(s) ==
              if |s| > 1 && s[1] in "\"\\/bfnrt" then 2
              else if |s| > 5 && s[1] == 'u' && HexDigits(s[2..6]) then 6 else 0
  {
    if |s| > 5 {
      HexIff(s[2]);
      HexIff(s[3]);
      HexIff(s[4]);
      HexIff(s[5]);
      FourDigits(s);
      hide Hex;
      hide HexDigits;
    }
  }

  predicate HexDigits(s: string) {
    forall i :: 0 <= i < |s| ==> s[i] in LOWER || s[i] in UPPER
  }

  lemma FourDigits(s: string)
    requires |s| > 5
    ensures HexDigits(s[2..6]) <==>
              && (s[2] in LOWER || s[2] in UPPER) && (s[3] in LOWER || s[3] in UPPER)
              && (s[4] in LOWER || s[4] in UPPER) && (s[5] in LOWER || s[5] in UPPER)
  {
    var four := s[2..6];
    assert four[0] == s[2] && four[1] == s[3] && four[2] == s[4] && four[3] == s[5];
  }

  /** A backslash is kept with what follows it exactly if that is one of eight characters or `u` and four hexadecimal
      digits; any other is doubled, and stands for itself. */
  lemma BackslashGoes(s: string)
    requires s != [] && s[0] == BACKSLASH
    ensures if |s| > 1 && s[1] in "\"\\/bfnrt" then Repair(s) == s[..2] + Repair(s[2..])
            else if |s| > 5 && s[1] == 'u' && HexDigits(s[2..6]) then Repair(s) == s[..6] + Repair(s[6..])
            else
              && Repair(s) == [BACKSLASH, BACKSLASH] + Repair(s[1..])
              && Lenient(s) == [BACKSLASH as int] + Lenient(s[1..])
  {
    EscapeIs(s);
    hide EscapeLength;
    hide HexDigits;
    hide Unescaped;
  }
}
