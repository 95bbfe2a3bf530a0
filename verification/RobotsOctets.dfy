// Spelling of robots.txt paths and patterns: escapes of unreserved characters are decoded, other
// escapes upper-cased, and characters beyond ASCII escaped octet by octet.
module RobotsOctets {

  newtype Octet = x: int | 0 <= x < 256

  // A normalized string spells a sequence of ASCII characters and escaped octets.
  datatype Unit = Plain(c: char) | Escaped(octet: Octet)

  predicate IsUpperHex(c: char) {
    '0' <= c <= '9' || 'A' <= c <= 'F'
  }

  predicate IsHex(c: char) {
    IsUpperHex(c) || 'a' <= c <= 'f'
  }

  function HexValue(c: char): (v: int)
    requires IsHex(c)
    ensures 0 <= v < 16
  {
    if '0' <= c <= '9' then c as int - '0' as int
    else if 'A' <= c <= 'F' then c as int - 'A' as int + 10
    else c as int - 'a' as int + 10
  }

  function HexDigit(v: int): (c: char)
    requires 0 <= v < 16
    ensures IsUpperHex(c) && HexValue(c) == v
  {
    if v < 10 then (v + '0' as int) as char else (v - 10 + 'A' as int) as char
  }

  predicate IsUnreserved(octet: Octet) {
    var o := octet as int;
    || 'A' as int <= o <= 'Z' as int || 'a' as int <= o <= 'z' as int || '0' as int <= o <= '9' as int
    || o == '.' as int || o == '_' as int || o == '~' as int || o == '-' as int
  }

  // "%" and two hexadecimal digits at the front.
  predicate StartsWithEscape(value: string) {
    |value| >= 3 && value[0] == '%' && IsHex(value[1]) && IsHex(value[2])
  }

  function EscapedOctet(value: string): Octet
    requires StartsWithEscape(value)
  {
    (HexValue(value[1]) * 16 + HexValue(value[2])) as Octet
  }

  function OctetUnit(octet: Octet): Unit {
    if IsUnreserved(octet) then Plain(octet as int as char) else Escaped(octet)
  }

  // The UTF-8 encoding of a character beyond ASCII.
  function Utf8(c: char): (octets: seq<Octet>)
    requires c as int >= 0x80
    ensures octets != [] && forall i :: 0 <= i < |octets| ==> octets[i] >= 0x80
  {
    var p := c as int;
    if p < 0x800 then [(0xC0 + p / 0x40) as Octet, (0x80 + p % 0x40) as Octet]
    else if p < 0x10000 then
      [(0xE0 + p / 0x1000) as Octet, (0x80 + p / 0x40 % 0x40) as Octet, (0x80 + p % 0x40) as Octet]
    else
      [(0xF0 + p / 0x40000) as Octet, (0x80 + p / 0x1000 % 0x40) as Octet, (0x80 + p / 0x40 % 0x40) as Octet,
       (0x80 + p % 0x40) as Octet]
  }

  // The code point that two, three or four UTF-8 octets stand for.
  function Decoded(octets: seq<Octet>): int
    requires 2 <= |octets| <= 4
  {
    if |octets| == 2 then (octets[0] as int - 0xC0) * 0x40 + (octets[1] as int - 0x80)
    else if |octets| == 3 then
      (octets[0] as int - 0xE0) * 0x1000 + (octets[1] as int - 0x80) * 0x40 + (octets[2] as int - 0x80)
    else
      (octets[0] as int - 0xF0) * 0x40000 + (octets[1] as int - 0x80) * 0x1000 + (octets[2] as int - 0x80) * 0x40
      + (octets[3] as int - 0x80)
  }

  // The leading octet tells how many follow, the others are marked as following, and the character
  // can be read back: no two characters are escaped alike.
  lemma Utf8ReadsBack(c: char)
    requires c as int >= 0x80
    ensures var octets := Utf8(c);
            && 2 <= |octets| <= 4 && Decoded(octets) == c as int
            && (forall i :: 0 < i < |octets| ==> 0x80 <= octets[i] < 0xC0)
            && (|octets| == 2 <==> 0xC0 <= octets[0] < 0xE0) && (|octets| == 3 <==> 0xE0 <= octets[0] < 0xF0)
            && (|octets| == 4 <==> 0xF0 <= octets[0])
            && (c as int < 0x800 <==> |octets| == 2) && (0x1_0000 <= c as int <==> |octets| == 4)
  {
    var p := c as int;
    assert p == p / 0x40 * 0x40 + p % 0x40;
    assert p / 0x40 == p / 0x40 / 0x40 * 0x40 + p / 0x40 % 0x40;
    assert p / 0x1000 == p / 0x1000 / 0x40 * 0x40 + p / 0x1000 % 0x40;
    assert p / 0x40 / 0x40 == p / 0x1000 && p / 0x1000 / 0x40 == p / 0x40000;
  }

  function EscapeAll(octets: seq<Octet>): seq<Unit> {
    seq(|octets|, i requires 0 <= i < |octets| => Escaped(octets[i]))
  }

  // What the front of a string spells, and how many of its characters that takes.
  datatype Front = Front(units: seq<Unit>, length: nat)

  function FirstUnits(value: string): (front: Front)
    requires value != []
    ensures 1 <= front.length <= |value|
  {
    if StartsWithEscape(value) then Front([OctetUnit(EscapedOctet(value))], 3)
    else if value[0] as int < 0x80 then Front([Plain(value[0])], 1)
    else Front(EscapeAll(Utf8(value[0])), 1)
  }

  // What a string spells.
  function Units(value: string): seq<Unit>
    decreases |value|
  {
    if value == [] then []
    else FirstUnits(value).units + Units(value[FirstUnits(value).length..])
  }

  function Spelling(unit: Unit): string {
    match unit
    case Plain(c) => [c]
    case Escaped(o) => ['%', HexDigit(o as int / 16), HexDigit(o as int % 16)]
  }

  function Spell(units: seq<Unit>): string {
    if units == [] then [] else Spelling(units[0]) + Spell(units[1..])
  }

  predicate Canonical(units: seq<Unit>) {
    forall i :: 0 <= i < |units| ==>
      match units[i]
      case Plain(c) => c as int < 0x80
      case Escaped(o) => !IsUnreserved(o)
  }

  lemma {:induction false} UnitsAreCanonical(value: string)
    ensures Canonical(Units(value))
    decreases |value|
  {
    if value != [] {
      UnitsAreCanonical(value[FirstUnits(value).length..]);
    }
  }

  lemma {:induction false} SpellAppend(a: seq<Unit>, b: seq<Unit>)
    ensures Spell(a + b) == Spell(a) + Spell(b)
    decreases |a|
  {
    if a == [] {
      assert a + b == b;
    } else {
      assert (a + b)[1..] == a[1..] + b;
      SpellAppend(a[1..], b);
    }
  }

  lemma NextFront(value: string, index: nat, result: string)
    requires index < |value|
    ensures var front := FirstUnits(value[index..]);
            result + Spell(Units(value[index..])) == (result + Spell(front.units)) + Spell(Units(value[index + front.length..]))
  {
    var front := FirstUnits(value[index..]);
    var rest := value[index + front.length..];
    assert value[index..][front.length..] == rest;
    SpellAppend(front.units, Units(rest));
    assert Spell(Units(value[index..])) == Spell(front.units) + Spell(Units(rest));
  }

  // Reads one escape or one character a turn and appends its normalized form.
  method NormalizeRobotsOctets(value: string) returns (result: string)
    ensures result == Spell(Units(value))
  {
    hide FirstUnits, Units, Spell;
    result := "";
    var index := 0;
    assert value[index..] == value;
    while index < |value|
      invariant 0 <= index <= |value|
      invariant Spell(Units(value)) == result + Spell(Units(value[index..]))
    {
      var front := FirstUnits(value[index..]);
      NextFront(value, index, result);
      result := result + Spell(front.units);
      index := index + front.length;
    }
    assert value[index..] == [];
    NothingLeft();
  }

  lemma NothingLeft()
    ensures Spell(Units([])) == []
  {
  }

  /*** Reading back a normalized string ***/

  // A bare '%' followed by two plain hexadecimal digits would read as an escape.
  predicate LooksEscaped(units: seq<Unit>, i: nat, hex: char -> bool) {
    i + 2 < |units| && units[i] == Plain('%')
    && units[i + 1].Plain? && hex(units[i + 1].c) && units[i + 2].Plain? && hex(units[i + 2].c)
  }

  ghost predicate Unambiguous(units: seq<Unit>, hex: char -> bool) {
    forall i: nat :: !LooksEscaped(units, i, hex)
  }

  lemma SpellStart(units: seq<Unit>)
    requires Canonical(units) && units != []
    ensures units[0].Escaped? ==>
              StartsWithEscape(Spell(units)) && EscapedOctet(Spell(units)) == units[0].octet && Spell(units)[3..] == Spell(units[1..])
    ensures units[0].Plain? ==>
              && Spell(units)[0] == units[0].c && Spell(units)[1..] == Spell(units[1..])
              && (StartsWithEscape(Spell(units)) <==> LooksEscaped(units, 0, IsHex))
  {
    var rest := units[1..];
    if units[0].Plain? && rest != [] {
      assert Spell(units) == [units[0].c] + Spelling(rest[0]) + Spell(rest[1..]);
      if rest[0].Plain? && |rest| > 1 {
        assert Spell(rest[1..]) == Spelling(rest[1]) + Spell(rest[1..][1..]);
        assert Spell(units)[2] == Spelling(rest[1])[0];
      }
    }
  }

  lemma ReadFront(units: seq<Unit>)
    requires Canonical(units) && units != []
    ensures LooksEscaped(units, 0, IsHex) ==> Units(Spell(units)) != [] && Units(Spell(units))[0] != units[0]
    ensures !LooksEscaped(units, 0, IsHex) ==> Units(Spell(units)) == [units[0]] + Units(Spell(units[1..]))
  {
    SpellStart(units);
    if LooksEscaped(units, 0, IsHex) {
      assert Units(Spell(units))[0] == OctetUnit(EscapedOctet(Spell(units)));
    }
  }

  // A normalized string spells the same units again exactly when nothing in it looks like an
  // escape that is not one.
  lemma {:induction false} ReadBackExactly(units: seq<Unit>)
    requires Canonical(units)
    ensures Units(Spell(units)) == units <==> Unambiguous(units, IsHex)
    decreases |units|
  {
    if units != [] {
      hide Units, Spell, LooksEscaped;
      ReadFront(units);
      ReadBackExactly(units[1..]);
      SuffixLooksAlike(units, IsHex);
      assert units == [units[0]] + units[1..];
    }
  }

  // Two spellings normalize to the same string exactly when they spell the same units, provided
  // neither contains a bare '%' that runs into hexadecimal digits.
  lemma EquivalentSpellings(a: string, b: string)
    requires Unambiguous(Units(a), IsHex) && Unambiguous(Units(b), IsHex)
    ensures Spell(Units(a)) == Spell(Units(b)) <==> Units(a) == Units(b)
  {
    UnitsAreCanonical(a);
    UnitsAreCanonical(b);
    ReadBackExactly(Units(a));
    ReadBackExactly(Units(b));
  }

  predicate IsUnreservedCharacter(c: char) {
    c as int < 0x80 && IsUnreserved(c as int as Octet)
  }

  // A string that spells the units: every unreserved character is escaped, so that no bare '%' runs
  // into hexadecimal digits.
  function Written(units: seq<Unit>): string {
    if units == [] then []
    else (if units[0].Plain? && !IsUnreservedCharacter(units[0].c) then [units[0].c] else WrittenEscape(units[0])) + Written(units[1..])
  }

  function WrittenEscape(unit: Unit): string
    requires unit.Plain? ==> unit.c as int < 0x80
  {
    Spelling(Escaped(if unit.Plain? then unit.c as int as Octet else unit.octet))
  }

  lemma EscapeReadsBack(octet: Octet, rest: string)
    ensures Units(Spelling(Escaped(octet)) + rest) == [OctetUnit(octet)] + Units(rest)
  {
    var front := Spelling(Escaped(octet));
    assert StartsWithEscape(front + rest) && (front + rest)[3..] == rest;
    assert EscapedOctet(front + rest) == octet;
  }

  lemma LiteralReadsBack(c: char, rest: string)
    requires c as int < 0x80 && (c != '%' || rest == [] || !IsHex(rest[0]))
    ensures Units([c] + rest) == [Plain(c)] + Units(rest)
  {
    assert ([c] + rest)[1..] == rest;
    assert !StartsWithEscape([c] + rest);
  }

  lemma HexIsUnreserved(c: char)
    requires IsHex(c)
    ensures IsUnreservedCharacter(c)
  {
  }

  // Every canonical sequence of units is what some string spells.
  lemma {:induction false} WrittenReadsBack(units: seq<Unit>)
    requires Canonical(units)
    ensures Units(Written(units)) == units
    ensures Written(units) == [] || !IsHex(Written(units)[0])
  {
    if units != [] {
      var unit, rest := units[0], Written(units[1..]);
      assert Canonical(units[1..]);
      WrittenReadsBack(units[1..]);
      hide Units;
      if unit.Plain? && !IsUnreservedCharacter(unit.c) {
        if IsHex(unit.c) {
          HexIsUnreserved(unit.c);
        }
        LiteralReadsBack(unit.c, rest);
      } else {
        EscapeReadsBack(if unit.Plain? then unit.c as int as Octet else unit.octet, rest);
      }
      assert units == [unit] + units[1..];
    }
  }

  lemma {:induction false} SpelledInAscii(units: seq<Unit>)
    requires Canonical(units)
    ensures forall i :: 0 <= i < |Spell(units)| ==> Spell(units)[i] as int < 0x80
  {
    if units != [] {
      assert Canonical(units[1..]);
      SpelledInAscii(units[1..]);
      var front, rest := Spelling(units[0]), Spell(units[1..]);
      assert forall i :: 0 <= i < |front| ==> front[i] as int < 0x80;
      assert forall i :: |front| <= i < |front + rest| ==> (front + rest)[i] == rest[i - |front|];
    }
  }

  lemma BarePercentUnits()
    ensures Units("%%34%31") == [Plain('%'), Plain('4'), Plain('1')]
  {
    EscapeReadsBack(0x31, "");
    EscapeReadsBack(0x34, "%31");
    LiteralReadsBack('%', "%34%31");
    assert "%31" + "" == "%31" && "%34" + "%31" == "%34%31" && ['%'] + "%34%31" == "%%34%31";
    assert Units("") == [];
    hide Units;
    assert [Plain('%')] + ([Plain('4')] + ([Plain('1')] + [])) == [Plain('%'), Plain('4'), Plain('1')];
  }

  lemma SpellPlain(a: char, b: char, c: char)
    ensures Spell([Plain(a), Plain(b), Plain(c)]) == [a, b, c]
  {
    assert [Plain(a), Plain(b), Plain(c)][1..] == [Plain(b), Plain(c)] && [Plain(b), Plain(c)][1..] == [Plain(c)];
    assert Spell([Plain(c)]) == [c];
  }

  // Normalizing is not idempotent: the escapes of "4" and "1" after a bare '%' become one of "A".
  lemma BarePercentRunsIntoDigits()
    ensures Spell(Units("%%34%31")) == "%41" && Units("%41") == [Plain('A')]
  {
    BarePercentUnits();
    SpellPlain('%', '4', '1');
    assert "%41"[3..] == "";
  }

  /*** Specificity ***/

  function WithoutStars(text: string): string {
    if text == [] then []
    else if text[0] == '*' then WithoutStars(text[1..])
    else [text[0]] + WithoutStars(text[1..])
  }

  // Length once every "%" with two upper-case hexadecimal digits counts for one.
  function OctetLength(text: string): nat
    decreases |text|
  {
    if text == [] then 0
    else if |text| >= 3 && text[0] == '%' && IsUpperHex(text[1]) && IsUpperHex(text[2]) then 1 + OctetLength(text[3..])
    else 1 + OctetLength(text[1..])
  }

  function Significant(units: seq<Unit>): seq<Unit> {
    if units == [] then []
    else if units[0] == Plain('*') then Significant(units[1..])
    else [units[0]] + Significant(units[1..])
  }

  lemma NoStarsInEscapes(octet: Octet, rest: string)
    ensures WithoutStars(Spelling(Escaped(octet)) + rest) == Spelling(Escaped(octet)) + WithoutStars(rest)
  {
    var a, b := HexDigit(octet as int / 16), HexDigit(octet as int % 16);
    var text := Spelling(Escaped(octet)) + rest;
    assert text[1..] == [a, b] + rest && ([a, b] + rest)[1..] == [b] + rest && ([b] + rest)[1..] == rest;
    assert WithoutStars([b] + rest) == [b] + WithoutStars(rest);
    assert WithoutStars([a, b] + rest) == [a] + WithoutStars([b] + rest);
  }

  lemma {:induction false} StarsRemoved(units: seq<Unit>)
    ensures WithoutStars(Spell(units)) == Spell(Significant(units))
    decreases |units|
  {
    if units != [] {
      StarsRemoved(units[1..]);
      var significant := [units[0]] + Significant(units[1..]);
      assert significant[1..] == Significant(units[1..]);
      match units[0] {
        case Plain(c) => assert Spell(units)[1..] == Spell(units[1..]);
        case Escaped(o) => NoStarsInEscapes(o, Spell(units[1..]));
      }
    }
  }

  lemma {:induction false} SignificantIsCanonical(units: seq<Unit>)
    requires Canonical(units)
    ensures Canonical(Significant(units))
    decreases |units|
  {
    if units != [] {
      SignificantIsCanonical(units[1..]);
    }
  }

  // The length counts every unit once exactly when nothing looks like an escape that is not one.
  lemma {:induction false} OctetLengthExactly(units: seq<Unit>)
    requires Canonical(units)
    ensures OctetLength(Spell(units)) <= |units|
    ensures OctetLength(Spell(units)) == |units| <==> Unambiguous(units, IsUpperHex)
    decreases |units|
  {
    if units != [] {
      var rest := units[1..];
      SpellStart(units);
      OctetLengthExactly(rest);
      SuffixLooksAlike(units, IsUpperHex);
      if LooksEscaped(units, 0, IsUpperHex) {
        var text := Spell(units);
        SpellStart(rest);
        SpellStart(rest[1..]);
        assert text[3..] == Spell(units[3..]) by {
          assert text[3..] == text[1..][1..][1..];
          assert rest[1..][1..] == units[3..];
        }
        OctetLengthExactly(units[3..]);
      } else {
        PlainStartIsNoEscape(units);
      }
    }
  }

  lemma SuffixLooksAlike(units: seq<Unit>, hex: char -> bool)
    requires units != []
    ensures Unambiguous(units, hex) <==> !LooksEscaped(units, 0, hex) && Unambiguous(units[1..], hex)
  {
    assert forall i: nat :: LooksEscaped(units[1..], i, hex) <==> LooksEscaped(units, i + 1, hex);
    if !LooksEscaped(units, 0, hex) && Unambiguous(units[1..], hex) {
      forall i: nat ensures !LooksEscaped(units, i, hex) {
        if i > 0 {
          assert !LooksEscaped(units[1..], i - 1, hex);
        }
      }
    }
  }

  lemma PlainStartIsNoEscape(units: seq<Unit>)
    requires Canonical(units) && units != [] && !LooksEscaped(units, 0, IsUpperHex)
    ensures OctetLength(Spell(units)) == 1 + OctetLength(Spell(units[1..]))
  {
    SpellStart(units);
    var text := Spell(units);
    if units[0].Plain? && |units| > 2 {
      SpellStart(units[1..]);
      SpellStart(units[2..]);
      assert text[1..][0] == text[1] && text[1..][1..][0] == text[2];
    } else if units[0].Plain? && |units| == 2 {
      SpellStart(units[1..]);
      assert Spell(units[1..][1..]) == [];
    }
  }
}
