// Rules as section 2.2.3 of RFC 9309 reads them, where '*' is the only wildcard and an escape can
// stand for the character itself, against what the code makes of their spelling.
module RobotsStandard {
  import opened RobotsWildcards
  import opened RobotsOctets
  import opened RobotsRules
  import opened RobotsGroups

  /*** The reading ***/

  // The octets of section 2.2.3 whose escapes and characters are the same.
  const SPECIALS: set<Octet> := {0x2A, 0x24}

  // The reserved characters of RFC 3986 but '#', which no path has and no rule can name.
  const RESERVED: set<Octet> :=
    {0x3A, 0x2F, 0x3F, 0x5B, 0x5D, 0x40, 0x21, 0x24, 0x26, 0x27, 0x28, 0x29, 0x2A, 0x2B, 0x2C, 0x3B, 0x3D}

  // Which escapes are to be read as the characters themselves is a parameter.
  predicate Readable(same: set<Octet>) {
    forall o :: o in same ==> IsUrlCharacter(o as int as char) && o != 0x25 && !IsUnreserved(o)
  }

  lemma BothReadable()
    ensures Readable(SPECIALS) && Readable(RESERVED)
  {
  }

  // A star that is no wildcard; no normalized text has this character.
  const LITERAL_STAR := '\U{2217}'

  function Symbol(unit: Unit, same: set<Octet>): string {
    if unit.Escaped? && unit.octet in same then
      if unit.octet == 0x2A then [LITERAL_STAR] else [unit.octet as int as char]
    else Spelling(unit)
  }

  function PatternText(units: seq<Unit>, same: set<Octet>): string {
    if units == [] then [] else Symbol(units[0], same) + PatternText(units[1..], same)
  }

  function PathSymbol(unit: Unit, same: set<Octet>): string {
    if unit == Plain('*') then [LITERAL_STAR] else Symbol(unit, same)
  }

  function PathText(units: seq<Unit>, same: set<Octet>): string {
    if units == [] then [] else PathSymbol(units[0], same) + PathText(units[1..], same)
  }

  // The pattern matches the whole text if it is anchored, and else a prefix.
  ghost predicate Read(pattern: string, text: string, anchored: bool) {
    if anchored then Glob(pattern, text) else exists n :: Covers(pattern, text, n)
  }

  ghost predicate Meant(rule: Rule, path: string, same: set<Octet>) {
    rule.pattern != ""
    && Read(PatternText(Units(WithoutAnchor(rule.pattern)), same), PathText(Units(path), same), IsAnchored(rule.pattern))
  }

  ghost predicate PermittedAsMeant(rules: set<Rule>, path: string, same: set<Octet>) {
    forall d | d in rules :: !d.allowed && Meant(d, path, same) ==>
      exists a :: a in rules && a.allowed && Meant(a, path, same) && Specificity(a) >= Specificity(d)
  }

  /*** When the code agrees ***/

  predicate HasEscape(units: seq<Unit>, same: set<Octet>) {
    exists i :: 0 <= i < |units| && units[i].Escaped? && units[i].octet in same
  }

  predicate InUrls(units: seq<Unit>) {
    forall i :: 0 <= i < |units| && units[i].Plain? ==> IsUrlCharacter(units[i].c)
  }

  // Some path could be matched.
  predicate CanBeRead(units: seq<Unit>, same: set<Octet>) {
    (units == [] || PatternText(units, same)[..1] in {"/", "*"}) && InUrls(units)
  }

  // The pattern can match no path, or has none of the escapes and, if it is anchored, no '*' but at its end.
  predicate AppliedRight(rule: Rule, same: set<Octet>) {
    var units := Units(WithoutAnchor(rule.pattern));
    CanBeRead(units, same) ==>
      && !HasEscape(units, same)
      && (IsAnchored(rule.pattern) ==> '*' !in Spell(units) || EndsWithStar(Spell(units)))
  }

  // A path without these escapes.
  predicate IsSent(path: string, same: set<Octet>) {
    IsPath(path) && !HasEscape(Units(path), same)
  }

  /*** Texts ***/

  function Starred(text: string): string {
    seq(|text|, i requires 0 <= i < |text| => if text[i] == '*' then LITERAL_STAR else text[i])
  }

  // No literal of a pattern is a star, so it makes no difference which character stands for one in the text.
  lemma {:induction false} StarredAlike(pattern: string, text: string)
    requires LITERAL_STAR !in pattern
    ensures Glob(pattern, text) <==> Glob(pattern, Starred(text))
    decreases |pattern|
  {
    if pattern != [] {
      if pattern[0] == '*' {
        forall k | 0 <= k <= |text|
          ensures Glob(pattern[1..], text[k..]) <==> Glob(pattern[1..], Starred(text)[k..])
        {
          StarredAlike(pattern[1..], text[k..]);
          assert Starred(text)[k..] == Starred(text[k..]);
        }
      } else if text != [] {
        StarredAlike(pattern[1..], text[1..]);
        assert Starred(text)[1..] == Starred(text[1..]);
      }
    }
  }

  lemma ReadAlike(pattern: string, text: string, anchored: bool)
    requires LITERAL_STAR !in pattern
    ensures Read(pattern, text, anchored) <==> Read(pattern, Starred(text), anchored)
  {
    hide Glob;
    StarredAlike(pattern, text);
    forall n: nat | n <= |text|
      ensures Covers(pattern, text, n) <==> Covers(pattern, Starred(text), n)
    {
      StarredAlike(pattern, text[..n]);
      assert Starred(text)[..n] == Starred(text[..n]);
    }
  }

  lemma SpellingCharacters(unit: Unit)
    ensures unit.Escaped? ==> forall i :: 0 <= i < 3 ==> Spelling(unit)[i] == '%' || IsUpperHex(Spelling(unit)[i])
    ensures |Spelling(unit)| == if unit.Plain? then 1 else 3
  {
  }

  lemma StarredAppend(a: string, b: string)
    ensures Starred(a + b) == Starred(a) + Starred(b)
  {
  }

  // Without such escapes the code's spelling is the text read, but for literal stars.
  lemma {:induction false} TextsWithoutEscapes(units: seq<Unit>, same: set<Octet>)
    requires !HasEscape(units, same)
    ensures PatternText(units, same) == Spell(units) && PathText(units, same) == Starred(Spell(units))
  {
    if units != [] {
      assert !(units[0].Escaped? && units[0].octet in same);
      assert forall i :: 0 <= i < |units[1..]| ==> units[1..][i] == units[i + 1];
      TextsWithoutEscapes(units[1..], same);
      SpellingCharacters(units[0]);
      StarredAppend(Spelling(units[0]), Spell(units[1..]));
      assert PathSymbol(units[0], same) == Starred(Spelling(units[0]));
    }
  }

  // The spelled text has URL characters if the units do.
  lemma {:induction false} SpelledInUrls(units: seq<Unit>)
    requires InUrls(units)
    ensures forall i :: 0 <= i < |Spell(units)| ==> IsUrlCharacter(Spell(units)[i])
  {
    if units != [] {
      assert InUrls(units[1..]) by {
        assert forall i :: 0 <= i < |units[1..]| ==> units[1..][i] == units[i + 1];
      }
      SpelledInUrls(units[1..]);
      SpellingCharacters(units[0]);
    }
  }

  lemma {:induction false} PlainIsSpelled(units: seq<Unit>, same: set<Octet>, i: nat)
    requires i < |units| && units[i].Plain?
    ensures units[i].c in Spell(units) && units[i].c in PatternText(units, same)
  {
    if i == 0 {
      assert Spell(units)[0] == units[0].c == PatternText(units, same)[0];
    } else {
      PlainIsSpelled(units[1..], same, i - 1);
    }
  }

  lemma {:induction false} PathTextCharacters(units: seq<Unit>, same: set<Octet>)
    requires InUrls(units) && Readable(same)
    ensures forall i :: 0 <= i < |PathText(units, same)| ==>
              IsUrlCharacter(PathText(units, same)[i]) || PathText(units, same)[i] == LITERAL_STAR
  {
    if units != [] {
      assert InUrls(units[1..]) by {
        assert forall i :: 0 <= i < |units[1..]| ==> units[1..][i] == units[i + 1];
      }
      PathTextCharacters(units[1..], same);
      SpellingCharacters(units[0]);
    }
  }

  lemma {:induction false} PathUnits(path: string)
    requires forall i :: 0 <= i < |path| ==> IsUrlCharacter(path[i])
    ensures InUrls(Units(path))
    decreases |path|
  {
    if path != [] {
      var front := FirstUnits(path);
      PathUnits(path[front.length..]);
      assert InUrls(front.units);
      assert Units(path) == front.units + Units(path[front.length..]);
    }
  }

  lemma PathStarts(path: string, same: set<Octet>)
    requires IsPath(path)
    ensures Units(path) != [] && Units(path)[0] == Plain('/')
    ensures PathText(Units(path), same) != "" && PathText(Units(path), same)[0] == '/'
    ensures IsPath(Spell(Units(path)))
  {
    PathUnits(path);
    SpelledInUrls(Units(path));
    assert Units(path)[0] == Plain('/');
  }

  /*** Rules that are applied right ***/

  lemma UnreadableStart(units: seq<Unit>, same: set<Octet>)
    requires units != [] && PatternText(units, same)[..1] !in {"/", "*"}
    ensures PatternText(units, same)[0] !in {'/', '*'} && Spell(units)[0] !in {'/', '*'}
  {
    assert PatternText(units, same)[..1] == [PatternText(units, same)[0]];
    SpellingCharacters(units[0]);
    assert Spell(units)[0] == Spelling(units[0])[0];
  }

  // A pattern no path can match matches none, neither as it is read nor as it is spelled.
  lemma UnreadableMatchesNothing(units: seq<Unit>, same: set<Octet>, path: string, anchored: bool)
    requires !CanBeRead(units, same) && IsPath(path) && Readable(same) && Canonical(units)
    ensures !Read(PatternText(units, same), PathText(Units(path), same), anchored)
    ensures !Decided(Spell(units), Spell(Units(path)), anchored)
  {
    PathStarts(path, same);
    var pattern, text := PatternText(units, same), PathText(Units(path), same);
    WholeIsCovered(pattern, text);
    if units != [] && pattern[..1] !in {"/", "*"} {
      UnreadableStart(units, same);
      forall n
        ensures !Covers(pattern, text, n) && !Covers(Spell(units), Spell(Units(path)), n)
      {
        OtherStartCoversNothing(pattern, text, n);
        OtherStartCoversNothing(Spell(units), Spell(Units(path)), n);
      }
    } else {
      var i :| 0 <= i < |units| && units[i].Plain? && !IsUrlCharacter(units[i].c);
      PathUnits(path);
      forall n
        ensures !Covers(pattern, text, n) && !Covers(Spell(units), Spell(Units(path)), n)
      {
        NoSuchCharacter(units, same, path, i, n);
      }
    }
    NothingCovered(Spell(units), Spell(Units(path)), anchored);
  }

  lemma NoSuchCharacter(units: seq<Unit>, same: set<Octet>, path: string, i: nat, n: nat)
    requires i < |units| && units[i].Plain? && !IsUrlCharacter(units[i].c) && units[i].c as int < 0x80
    requires Readable(same) && InUrls(Units(path))
    ensures !Covers(PatternText(units, same), PathText(Units(path), same), n) && !Covers(Spell(units), Spell(Units(path)), n)
  {
    hide Glob, IsUrlCharacter, Units, Readable;
    assert IsUrlCharacter('*') by {
      StarIsInUrls();
    }
    var c, text, spelled := units[i].c, PathText(Units(path), same), Spell(Units(path));
    PlainIsSpelled(units, same, i);
    PathTextCharacters(Units(path), same);
    SpelledInUrls(Units(path));
    if Covers(PatternText(units, same), text, n) {
      LiteralsOccur(PatternText(units, same), text[..n], c);
    }
    if Covers(Spell(units), spelled, n) {
      LiteralsOccur(Spell(units), spelled[..n], c);
    }
  }

  lemma StarIsInUrls()
    ensures IsUrlCharacter('*')
  {
  }

  // Spelled without the escapes, the search reads an open pattern, or a fitting anchored one, as meant.
  lemma SpelledReadsAlike(units: seq<Unit>, same: set<Octet>, path: string, anchored: bool)
    requires !HasEscape(units, same) && !HasEscape(Units(path), same) && Canonical(units)
    requires anchored ==> '*' !in Spell(units) || EndsWithStar(Spell(units))
    ensures Read(PatternText(units, same), PathText(Units(path), same), anchored)
            <==> Decided(Spell(units), Spell(Units(path)), anchored)
  {
    var pattern, spelled := Spell(units), Spell(Units(path));
    TextsWithoutEscapes(units, same);
    TextsWithoutEscapes(Units(path), same);
    SpelledInAscii(units);
    hide Units, Spell, HasEscape, Glob, Canonical;
    ReadAlike(pattern, spelled, anchored);
    if anchored {
      if '*' !in pattern {
        LiteralsDecidedRight(pattern, spelled);
      } else {
        StarredDecidedRight(pattern, spelled);
      }
    }
  }

  lemma RuleAppliedRight(rule: Rule, same: set<Octet>, path: string)
    requires AppliedRight(rule, same) && Readable(same) && IsSent(path, same)
    ensures Matches(rule, path) <==> Meant(rule, path, same)
  {
    var units := Units(WithoutAnchor(rule.pattern));
    UnitsAreCanonical(WithoutAnchor(rule.pattern));
    hide Units, Spell, PatternText, PathText, Canonical, IsAnchored, WithoutAnchor, IsPath, HasEscape, Readable, Read, Decided;
    if CanBeRead(units, same) {
      SpelledReadsAlike(units, same, path, IsAnchored(rule.pattern));
    } else {
      UnreadableMatchesNothing(units, same, path, IsAnchored(rule.pattern));
    }
  }

  // If every rule is applied right, every path without these escapes is decided as it is meant.
  lemma DecidedAsMeant(rules: set<Rule>, same: set<Octet>, path: string)
    requires Readable(same) && IsSent(path, same) && forall r :: r in rules ==> AppliedRight(r, same)
    ensures Permitted(rules, path) <==> PermittedAsMeant(rules, path, same)
  {
    hide Matches, Meant, Specificity, AppliedRight, IsSent, Readable;
    forall r | r in rules
      ensures Matches(r, path) <==> Meant(r, path, same)
    {
      RuleAppliedRight(r, same, path);
    }
  }

  /*** Paths that the others get wrong ***/

  lemma {:induction false} ErasedLiteral(front: string, rest: string)
    requires '*' !in front
    ensures Erased(front + rest) == front + Erased(rest)
  {
    if front == [] {
      assert front + rest == rest;
    } else {
      assert (front + rest)[1..] == front[1..] + rest;
      ErasedLiteral(front[1..], rest);
    }
  }

  // Stars can stand for nothing.
  lemma {:induction false} GlobErased(pattern: string)
    ensures Glob(pattern, Erased(pattern))
  {
    if pattern != [] {
      GlobErased(pattern[1..]);
      if pattern[0] == '*' {
        assert Erased(pattern)[0..] == Erased(pattern);
      }
    }
  }

  // A unit of a path for the pattern's unit: nothing for a wildcard; an escape if it is to be kept, and
  // else the character it is read as.
  function Chosen(unit: Unit, same: set<Octet>, kept: set<Octet>): seq<Unit> {
    if unit == Plain('*') then []
    else if unit.Plain? && unit.c as int < 0x80 && unit.c as int as Octet in kept then [Escaped(unit.c as int as Octet)]
    else if unit.Escaped? && unit.octet in same && unit.octet !in kept then [Plain(unit.octet as int as char)]
    else [unit]
  }

  function AllChosen(units: seq<Unit>, same: set<Octet>, kept: set<Octet>): seq<Unit> {
    if units == [] then [] else Chosen(units[0], same, kept) + AllChosen(units[1..], same, kept)
  }

  lemma ChosenReads(unit: Unit, same: set<Octet>, kept: set<Octet>, rest: string)
    requires Readable(same) && kept <= same && Canonical([unit])
    ensures PathText(Chosen(unit, same, kept), same) + Erased(rest) == Erased(Symbol(unit, same) + rest)
  {
    var chosen := Chosen(unit, same, kept);
    assert Canonical([unit]) && [unit][0] == unit;
    SpellingCharacters(unit);
    if unit == Plain('*') {
      assert ("*" + rest)[1..] == rest;
    } else {
      assert chosen == [chosen[0]] && PathText(chosen, same) == PathSymbol(chosen[0], same) + PathText(chosen[1..], same);
      assert PathSymbol(chosen[0], same) == Symbol(unit, same);
      ErasedLiteral(Symbol(unit, same), rest);
    }
  }

  lemma {:induction false} PathTextAppend(a: seq<Unit>, b: seq<Unit>, same: set<Octet>)
    ensures PathText(a + b, same) == PathText(a, same) + PathText(b, same)
  {
    if a == [] {
      assert a + b == b;
    } else {
      assert (a + b)[1..] == a[1..] + b;
      PathTextAppend(a[1..], b, same);
    }
  }

  // The units chosen read as the pattern does with its wildcards left out.
  lemma {:induction false} AllChosenRead(units: seq<Unit>, same: set<Octet>, kept: set<Octet>)
    requires Readable(same) && kept <= same && Canonical(units)
    ensures PathText(AllChosen(units, same, kept), same) == Erased(PatternText(units, same))
  {
    if units != [] {
      assert Canonical([units[0]]) && Canonical(units[1..]);
      AllChosenRead(units[1..], same, kept);
      ChosenReads(units[0], same, kept, PatternText(units[1..], same));
      PathTextAppend(Chosen(units[0], same, kept), AllChosen(units[1..], same, kept), same);
    }
  }

  lemma ChosenFits(unit: Unit, same: set<Octet>, kept: set<Octet>)
    requires Readable(same) && kept <= same && Canonical([unit]) && (unit.Plain? ==> IsUrlCharacter(unit.c))
    ensures Canonical(Chosen(unit, same, kept)) && InUrls(Chosen(unit, same, kept)) && !HasEscape(Chosen(unit, same, kept), same - kept)
  {
    assert [unit][0] == unit;
  }

  lemma Both(a: seq<Unit>, b: seq<Unit>, same: set<Octet>)
    ensures Canonical(a) && Canonical(b) ==> Canonical(a + b)
    ensures InUrls(a) && InUrls(b) ==> InUrls(a + b)
    ensures !HasEscape(a, same) && !HasEscape(b, same) ==> !HasEscape(a + b, same)
  {
  }

  lemma {:induction false} AllChosenFit(units: seq<Unit>, same: set<Octet>, kept: set<Octet>)
    requires Readable(same) && kept <= same && Canonical(units) && InUrls(units)
    ensures var chosen := AllChosen(units, same, kept); Canonical(chosen) && InUrls(chosen) && !HasEscape(chosen, same - kept)
  {
    if units != [] {
      assert forall i :: 0 <= i < |units[1..]| ==> units[1..][i] == units[i + 1];
      assert Canonical([units[0]]) && Canonical(units[1..]) && InUrls(units[1..]);
      AllChosenFit(units[1..], same, kept);
      ChosenFits(units[0], same, kept);
      Both(Chosen(units[0], same, kept), AllChosen(units[1..], same, kept), same - kept);
    }
  }

  // The units of a path that the pattern is meant to match.
  function MeantUnits(units: seq<Unit>, same: set<Octet>, kept: set<Octet>): seq<Unit> {
    (if PatternText(units, same) != "" && PatternText(units, same)[0] == '*' then [Plain('/')] else []) + AllChosen(units, same, kept)
  }

  lemma FirstChosen(units: seq<Unit>, same: set<Octet>, kept: set<Octet>)
    requires units != [] && PatternText(units, same)[..1] in {"/", "*"} && 0x2F !in kept && Readable(same)
    ensures MeantUnits(units, same, kept) != [] && MeantUnits(units, same, kept)[0] == Plain('/')
  {
    var text := PatternText(units, same);
    assert text[..1] == [text[0]] && text[0] == Symbol(units[0], same)[0];
    SpellingCharacters(units[0]);
    if text[0] != '*' {
      assert Symbol(units[0], same)[0] == '/';
      assert Chosen(units[0], same, kept) == [Plain('/')];
    }
  }

  lemma {:induction false} WrittenInUrls(units: seq<Unit>)
    requires InUrls(units) && Canonical(units)
    ensures forall i :: 0 <= i < |Written(units)| ==> IsUrlCharacter(Written(units)[i])
  {
    if units != [] {
      assert forall i :: 0 <= i < |units[1..]| ==> units[1..][i] == units[i + 1];
      assert Canonical(units[1..]) && InUrls(units[1..]);
      WrittenInUrls(units[1..]);
      if !(units[0].Plain? && !IsUnreservedCharacter(units[0].c)) {
        SpellingCharacters(Escaped(if units[0].Plain? then units[0].c as int as Octet else units[0].octet));
      }
    }
  }

  lemma WrittenIsPath(units: seq<Unit>)
    requires InUrls(units) && Canonical(units) && units != [] && units[0] == Plain('/')
    ensures IsPath(Written(units)) && Units(Written(units)) == units
  {
    WrittenReadsBack(units);
    WrittenInUrls(units);
    assert Written(units)[0] == '/';
  }

  // The path is one the pattern is meant to match, with the escapes kept and no other of them.
  lemma MeantPath(units: seq<Unit>, same: set<Octet>, kept: set<Octet>, anchored: bool)
    requires Readable(same) && kept <= same && 0x2F !in kept && Canonical(units) && CanBeRead(units, same) && units != []
    ensures var path := Written(MeantUnits(units, same, kept));
            && IsPath(path) && Units(path) == MeantUnits(units, same, kept) && !HasEscape(Units(path), same - kept)
            && Read(PatternText(units, same), PathText(Units(path), same), anchored)
  {
    var pattern, chosen := PatternText(units, same), AllChosen(units, same, kept);
    AllChosenFit(units, same, kept);
    FirstChosen(units, same, kept);
    AllChosenRead(units, same, kept);
    GlobErased(pattern);
    hide PatternText, AllChosen, Glob, Written;
    var text := Erased(pattern);
    if pattern != "" && pattern[0] == '*' {
      Both([Plain('/')], chosen, same - kept);
      PathTextAppend([Plain('/')], chosen, same);
      SlashReads(same);
      StarTakesMore(pattern, text, "/");
      text := "/" + text;
    } else {
      assert [] + chosen == chosen;
    }
    WrittenIsPath(MeantUnits(units, same, kept));
    WholeIsCovered(pattern, text);
  }

  lemma SlashReads(same: set<Octet>)
    ensures PathText([Plain('/')], same) == "/"
  {
    assert [Plain('/')][1..] == [];
  }

  /*** Why the code misses them ***/

  // A text has each literal at least as often as a pattern it matches.
  lemma {:induction false} LiteralsCount(pattern: string, text: string, c: char)
    requires Glob(pattern, text) && c != '*'
    ensures multiset(pattern)[c] <= multiset(text)[c]
    decreases |pattern|
  {
    if pattern != [] {
      assert pattern == [pattern[0]] + pattern[1..];
      if pattern[0] == '*' {
        var k :| 0 <= k <= |text| && Glob(pattern[1..], text[k..]);
        assert text == text[..k] + text[k..];
        LiteralsCount(pattern[1..], text[k..], c);
      } else {
        assert text == [text[0]] + text[1..];
        LiteralsCount(pattern[1..], text[1..], c);
      }
    }
  }

  lemma TooFewInText(pattern: string, text: string, c: char, anchored: bool)
    requires multiset(text)[c] < multiset(pattern)[c] && c != '*'
    ensures !Decided(pattern, text, anchored)
  {
    hide Glob;
    forall n: nat
      ensures !Covers(pattern, text, n)
    {
      if Covers(pattern, text, n) {
        assert text == text[..n] + text[n..];
        LiteralsCount(pattern, text[..n], c);
      }
    }
    NothingCovered(pattern, text, anchored);
  }

  lemma {:induction false} SpellBoth(a: seq<Unit>, b: seq<Unit>)
    ensures Spell(a + b) == Spell(a) + Spell(b)
  {
    SpellAppend(a, b);
  }

  // Each escape written as its character is one '%' less.
  lemma {:induction false} PercentsChosen(units: seq<Unit>, same: set<Octet>)
    requires Readable(same)
    ensures var less, all := multiset(Spell(AllChosen(units, same, {})))['%'], multiset(Spell(units))['%'];
            less <= all && (HasEscape(units, same) ==> less < all)
  {
    if units != [] {
      var unit, rest := units[0], units[1..];
      PercentsChosen(rest, same);
      SpellBoth(Chosen(unit, same, {}), AllChosen(rest, same, {}));
      PercentChosen(unit, same);
      assert Spell(units) == Spelling(unit) + Spell(rest);
      if HasEscape(units, same) && !(unit.Escaped? && unit.octet in same) {
        var i :| 0 <= i < |units| && units[i].Escaped? && units[i].octet in same;
        assert rest[i - 1] == units[i];
      }
    }
  }

  lemma PercentChosen(unit: Unit, same: set<Octet>)
    requires Readable(same)
    ensures var less, all := multiset(Spell(Chosen(unit, same, {})))['%'], multiset(Spelling(unit))['%'];
            less <= all && (unit.Escaped? && unit.octet in same ==> less < all)
  {
    hide IsUrlCharacter, IsUnreserved, Spelling, Spell;
    SpelledAlone(unit);
    assert Spell([]) == "" by {
      NothingSpelled();
    }
    if unit.Escaped? && unit.octet in same {
      SpelledAlone(Plain(unit.octet as int as char));
      PercentsOf(unit);
      PercentsOf(Plain(unit.octet as int as char));
    }
  }

  lemma PercentsOf(unit: Unit)
    ensures unit.Escaped? ==> multiset(Spelling(unit))['%'] > 0
    ensures unit.Plain? && unit.c != '%' ==> multiset(Spelling(unit))['%'] == 0
  {
    if unit.Escaped? {
      assert Spelling(unit)[0] == '%' && '%' in Spelling(unit);
    }
  }

  lemma NothingSpelled()
    ensures Spell([]) == ""
  {
  }

  lemma SpelledAlone(unit: Unit)
    ensures Spell([unit]) == Spelling(unit)
  {
    assert [unit][1..] == [] && Spell([]) == "";
  }

  // A rule with such an escape misses a path in which the character stands for itself.
  lemma EscapeIsMissed(rule: Rule, same: set<Octet>)
    requires Readable(same) && rule.pattern != ""
    requires var units := Units(WithoutAnchor(rule.pattern)); CanBeRead(units, same) && HasEscape(units, same)
    ensures var path := Written(MeantUnits(Units(WithoutAnchor(rule.pattern)), same, {}));
            IsSent(path, same) && Meant(rule, path, same) && !Matches(rule, path)
  {
    var units := Units(WithoutAnchor(rule.pattern));
    UnitsAreCanonical(WithoutAnchor(rule.pattern));
    MeantPath(units, same, {}, IsAnchored(rule.pattern));
    PercentsChosen(units, same);
    var chosen := AllChosen(units, same, {});
    SpellBoth([Plain('/')], chosen);
    SlashSpelled();
    assert [] + chosen == chosen;
    assert same - {} == same;
    hide Units, Spell, AllChosen, PatternText, PathText, Written, CanBeRead, Decided, Canonical;
    TooFewInText(Spell(units), Spell(MeantUnits(units, same, {})), '%', IsAnchored(rule.pattern));
  }

  lemma SlashSpelled()
    ensures Spell([Plain('/')]) == "/"
  {
    assert [Plain('/')][1..] == [];
  }

  function AllPlain(text: string): seq<Unit> {
    seq(|text|, i requires 0 <= i < |text| => Plain(text[i]))
  }

  lemma {:induction false} AllPlainSpells(text: string)
    ensures Spell(AllPlain(text)) == text
  {
    if text != [] {
      assert AllPlain(text)[1..] == AllPlain(text[1..]);
      AllPlainSpells(text[1..]);
      assert text == [text[0]] + text[1..];
    }
  }

  // An anchored rule with a '*' before its end misses a path that repeats its last literal.
  lemma RepetitionIsMissed(rule: Rule, same: set<Octet>)
    requires Readable(same) && IsAnchored(rule.pattern)
    requires var units := Units(WithoutAnchor(rule.pattern));
             CanBeRead(units, same) && !HasEscape(units, same) && '*' in Spell(units) && !EndsWithStar(Spell(units))
    ensures var path := Written(AllPlain(RepeatedTail(Spell(Units(WithoutAnchor(rule.pattern))))));
            IsSent(path, same) && Meant(rule, path, same) && !Matches(rule, path)
  {
    var units := Units(WithoutAnchor(rule.pattern));
    var pattern := Spell(units);
    UnitsAreCanonical(WithoutAnchor(rule.pattern));
    SpelledInUrls(units);
    SpelledInAscii(units);
    TextsWithoutEscapes(units, same);
    assert pattern != "" && pattern[..1] == [pattern[0]];
    RepeatedTailIsMissed(pattern);
    var text := RepeatedTail(pattern);
    PlainPath(text, same);
    ReadAlike(pattern, text, true);
  }

  // A path spelled by its characters alone.
  lemma PlainPath(text: string, same: set<Octet>)
    requires IsPath(text)
    ensures var path := Written(AllPlain(text));
            IsSent(path, same) && Units(path) == AllPlain(text) && Spell(Units(path)) == text && PathText(Units(path), same) == Starred(text)
  {
    var units := AllPlain(text);
    AllPlainSpells(text);
    WrittenIsPath(units);
    TextsWithoutEscapes(units, same);
  }

  // A Disallow rule alone is applied as it is meant to every path without these escapes if and only if
  // it can match no path, or has none of the escapes and, if it is anchored, no '*' but at its end.
  lemma DisallowReadExactly(rule: Rule, same: set<Octet>)
    requires !rule.allowed && Readable(same)
    ensures (forall path | IsSent(path, same) :: Permitted({rule}, path) <==> PermittedAsMeant({rule}, path, same))
            <==> AppliedRight(rule, same)
  {
    if AppliedRight(rule, same) {
      forall path | IsSent(path, same)
        ensures Permitted({rule}, path) <==> PermittedAsMeant({rule}, path, same)
      {
        DecidedAsMeant({rule}, same, path);
      }
    } else {
      var path := MissedPath(rule, same);
      hide Matches, Meant, Specificity, AppliedRight, IsSent, Readable;
      assert !PermittedAsMeant({rule}, path, same) && Permitted({rule}, path);
    }
  }

  lemma NoPatternIsApplied(rule: Rule, same: set<Octet>)
    ensures rule.pattern == "" ==> AppliedRight(rule, same)
  {
  }

  lemma MissedPath(rule: Rule, same: set<Octet>) returns (path: string)
    requires !AppliedRight(rule, same) && Readable(same)
    ensures IsSent(path, same) && Meant(rule, path, same) && !Matches(rule, path)
  {
    var units := Units(WithoutAnchor(rule.pattern));
    NoPatternIsApplied(rule, same);
    hide Matches, Meant, IsSent, Units, Spell, CanBeRead, MeantUnits, Written;
    if HasEscape(units, same) {
      EscapeIsMissed(rule, same);
      path := Written(MeantUnits(units, same, {}));
    } else {
      RepetitionIsMissed(rule, same);
      path := Written(AllPlain(RepeatedTail(Spell(units))));
    }
  }

  /*** Escapes in paths ***/

  lemma {:induction false} NotSpelled(units: seq<Unit>, same: set<Octet>, octet: Octet)
    requires Readable(same) && octet in same && octet as int as char != '*'
    ensures octet as int as char !in Spell(AllChosen(units, same, {octet}))
  {
    if units != [] {
      NotSpelled(units[1..], same, octet);
      SpellBoth(Chosen(units[0], same, {octet}), AllChosen(units[1..], same, {octet}));
      NotSpelledOnce(units[0], same, octet);
    }
  }

  lemma NotSpelledOnce(unit: Unit, same: set<Octet>, octet: Octet)
    requires Readable(same) && octet in same
    ensures octet as int as char !in Spell(Chosen(unit, same, {octet}))
  {
    var chosen := Chosen(unit, same, {octet});
    if chosen != [] {
      SpelledAlone(chosen[0]);
      assert chosen == [chosen[0]];
      SpellingCharacters(chosen[0]);
    }
  }

  // A rule with one of these characters, such as a '$' before its end, misses a path in which that
  // character is escaped.
  lemma CharacterMissesItsEscape(rule: Rule, same: set<Octet>, octet: Octet)
    requires Readable(same) && octet in same && octet !in {0x2A, 0x2F} && rule.pattern != ""
    requires var units := Units(WithoutAnchor(rule.pattern)); CanBeRead(units, same) && Plain(octet as int as char) in units
    ensures var path := Written(MeantUnits(Units(WithoutAnchor(rule.pattern)), same, {octet}));
            IsSent(path, same - {octet}) && Meant(rule, path, same) && !Matches(rule, path)
  {
    var units := Units(WithoutAnchor(rule.pattern));
    UnitsAreCanonical(WithoutAnchor(rule.pattern));
    MeantPath(units, same, {octet}, IsAnchored(rule.pattern));
    hide Units, Spell, AllChosen, PatternText, PathText, Written, CanBeRead, Decided, Canonical, HasEscape, Readable, IsPath, Read,
         IsAnchored, WithoutAnchor, MeantUnits;
    CharacterIsGone(units, same, octet, IsAnchored(rule.pattern));
  }

  lemma CharacterIsGone(units: seq<Unit>, same: set<Octet>, octet: Octet, anchored: bool)
    requires Readable(same) && octet in same && octet !in {0x2A, 0x2F} && Plain(octet as int as char) in units
    ensures !Decided(Spell(units), Spell(MeantUnits(units, same, {octet})), anchored)
  {
    hide Spell, AllChosen, PatternText, Decided, MeantUnits;
    var c := octet as int as char;
    var i :| 0 <= i < |units| && units[i] == Plain(c);
    PlainIsSpelled(units, same, i);
    NoneInMeant(units, same, octet);
    hide Readable;
    TooFewInText(Spell(units), Spell(MeantUnits(units, same, {octet})), c, anchored);
  }

  lemma NoneInMeant(units: seq<Unit>, same: set<Octet>, octet: Octet)
    requires Readable(same) && octet in same && octet !in {0x2A, 0x2F}
    ensures octet as int as char !in Spell(MeantUnits(units, same, {octet}))
  {
    hide Spell, AllChosen, PatternText;
    var chosen := AllChosen(units, same, {octet});
    NotSpelled(units, same, octet);
    SpellBoth([Plain('/')], chosen);
    SlashSpelled();
    assert [] + chosen == chosen;
  }

  /*** Three of the standard's pairs ***/

  // Pattern and path differ in one unit that is read alike and spelled differently.
  lemma ReadAndMissed(rule: Rule, path: string, p: Unit, q: Unit, rest: seq<Unit>, same: set<Octet>, c: char)
    requires rule.pattern != "" && !IsAnchored(rule.pattern)
    requires Units(rule.pattern) == SlashA(p, rest) && Units(path) == SlashA(q, rest)
    requires Symbol(p, same) == PathSymbol(q, same) && p != Plain('*')
    requires rest == [] || rest == [Plain('b')]
    requires c in Spelling(p) && c !in Spelling(q) && c !in {'/', 'a', 'b', '*'}
    ensures Meant(rule, path, same) && !Matches(rule, path)
  {
    hide Units, Spell, PatternText, PathText, Decided, SlashA, Spelling;
    SlashATexts(p, rest, same);
    SlashATexts(q, rest, same);
    LiteralSymbol(p, same);
    var tail := Tail(rest);
    Around(Symbol(p, same), tail, '*');
    Around(Spelling(p), tail, c);
    Around(Spelling(q), tail, c);
    hide Symbol, PathSymbol, Tail;
    GlobLiteralText("/a" + (Symbol(p, same) + tail));
    TooFewInText("/a" + (Spelling(p) + tail), "/a" + (Spelling(q) + tail), c, false);
  }

  function Tail(rest: seq<Unit>): string {
    if rest == [] then "" else "b"
  }

  lemma Around(middle: string, tail: string, c: char)
    requires tail in {"", "b"} && c !in {'/', 'a', 'b'}
    ensures c in "/a" + (middle + tail) <==> c in middle
  {
  }

  lemma LiteralSymbol(unit: Unit, same: set<Octet>)
    requires unit != Plain('*')
    ensures '*' !in Symbol(unit, same)
  {
    SpellingCharacters(unit);
  }

  // A text without '*' matches itself.
  lemma GlobLiteralText(text: string)
    requires '*' !in text
    ensures Glob(text, text) && Covers(text, text, |text|)
  {
    GlobErased(text);
    ErasedLiteral(text, "");
    assert text + "" == text;
    WholeIsCovered(text, text);
  }

  function SlashA(unit: Unit, rest: seq<Unit>): seq<Unit> {
    [Plain('/')] + ([Plain('a')] + ([unit] + rest))
  }

  lemma OneMoreUnit(unit: Unit, rest: seq<Unit>, same: set<Octet>)
    ensures Spell([unit] + rest) == Spelling(unit) + Spell(rest)
    ensures PatternText([unit] + rest, same) == Symbol(unit, same) + PatternText(rest, same)
    ensures PathText([unit] + rest, same) == PathSymbol(unit, same) + PathText(rest, same)
  {
    assert ([unit] + rest)[1..] == rest;
  }

  lemma SlashATexts(unit: Unit, rest: seq<Unit>, same: set<Octet>)
    requires rest == [] || rest == [Plain('b')]
    ensures var units, tail := SlashA(unit, rest), Tail(rest);
            && Spell(units) == "/a" + (Spelling(unit) + tail)
            && PatternText(units, same) == "/a" + (Symbol(unit, same) + tail)
            && PathText(units, same) == "/a" + (PathSymbol(unit, same) + tail)
  {
    hide Spell, PatternText, PathText;
    TailTexts(rest, same);
    OneMoreUnit(unit, rest, same);
    OneMoreUnit(Plain('a'), [unit] + rest, same);
    OneMoreUnit(Plain('/'), [Plain('a')] + ([unit] + rest), same);
    InFront(Spelling(unit) + Tail(rest));
    InFront(Symbol(unit, same) + Tail(rest));
    InFront(PathSymbol(unit, same) + Tail(rest));
    hide Tail;
  }

  lemma InFront(text: string)
    ensures "/" + ("a" + text) == "/a" + text
  {
  }

  lemma TailTexts(rest: seq<Unit>, same: set<Octet>)
    requires rest == [] || rest == [Plain('b')]
    ensures Spell(rest) == Tail(rest) == PatternText(rest, same) == PathText(rest, same)
  {
    NoUnits(same);
    OneMoreUnit(Plain('b'), [], same);
    assert [Plain('b')] + [] == [Plain('b')] && ['b'] + "" == "b";
  }

  lemma NoUnits(same: set<Octet>)
    ensures Units("") == [] && Spell([]) == "" == PatternText([], same) == PathText([], same)
  {
  }

  lemma OnlyB()
    ensures Units("b") == [Plain('b')] && Units("") == []
  {
    LiteralReadsBack('b', "");
    assert ['b'] + "" == "b";
  }

  lemma SlashAUnits(front: string, unit: Unit, tail: string)
    requires Units(front + tail) == [unit] + Units(tail)
    ensures Units("/a" + (front + tail)) == SlashA(unit, Units(tail))
  {
    hide Units;
    var rest := front + tail;
    LiteralReadsBack('a', rest);
    LiteralReadsBack('/', ['a'] + rest);
    assert ['/'] + (['a'] + rest) == "/a" + rest;
  }

  // "Disallow: /a%2Ab" does not keep the crawler from "/a*b", nor "/a%24" from "/a$", nor "/a$b" from
  // "/a%24b", though each names just that path.
  lemma EscapedStarIsMissed()
    ensures var rule, path := Rule(false, "/a%2Ab"), "/a*b"; Meant(rule, path, SPECIALS) && !Matches(rule, path)
  {
    hide Units, Spell, PatternText, PathText, Meant, Matches;
    OnlyB();
    EscapeReadsBack(0x2A, "b");
    LiteralReadsBack('*', "b");
    SlashAUnits("%2A", Escaped(0x2A), "b");
    SlashAUnits("*", Plain('*'), "b");
    assert "/a" + ("%2A" + "b") == "/a%2Ab" && "/a" + ("*" + "b") == "/a*b";
    ReadAndMissed(Rule(false, "/a%2Ab"), "/a*b", Escaped(0x2A), Plain('*'), [Plain('b')], SPECIALS, '%');
  }

  lemma EscapedDollarIsMissed()
    ensures var rule, path := Rule(false, "/a%24"), "/a$"; Meant(rule, path, SPECIALS) && !Matches(rule, path)
  {
    hide Units, Spell, PatternText, PathText, Meant, Matches;
    OnlyB();
    EscapeReadsBack(0x24, "");
    LiteralReadsBack('$', "");
    SlashAUnits("%24", Escaped(0x24), "");
    SlashAUnits("$", Plain('$'), "");
    assert "/a" + ("%24" + "") == "/a%24" && "/a" + ("$" + "") == "/a$";
    ReadAndMissed(Rule(false, "/a%24"), "/a$", Escaped(0x24), Plain('$'), [], SPECIALS, '%');
  }

  lemma InnerDollarMissesEscape()
    ensures var rule, path := Rule(false, "/a$b"), "/a%24b"; Meant(rule, path, SPECIALS) && !Matches(rule, path)
  {
    hide Units, Spell, PatternText, PathText, Meant, Matches;
    OnlyB();
    EscapeReadsBack(0x24, "b");
    LiteralReadsBack('$', "b");
    SlashAUnits("%24", Escaped(0x24), "b");
    SlashAUnits("$", Plain('$'), "b");
    assert "/a" + ("%24" + "b") == "/a%24b" && "/a" + ("$" + "b") == "/a$b";
    ReadAndMissed(Rule(false, "/a$b"), "/a%24b", Plain('$'), Escaped(0x24), [Plain('b')], SPECIALS, '$');
  }

  /*** Whole files ***/

  // What the file means for a path.
  ghost predicate FileMeans(ds: seq<Directive>, agent: string, path: string, same: set<Octet>) {
    PermittedAsMeant(RulesFor(ds, if Mentioned(ds, agent) then agent else "*"), path, same)
  }

  // If each rule for the crawler is applied right, every path without these escapes is decided as it is meant.
  lemma FileDecidedAsMeant(ds: seq<Directive>, agent: string, path: string, same: set<Octet>)
    requires Readable(same) && IsSent(path, same)
    requires forall r :: r in RulesFor(ds, if Mentioned(ds, agent) then agent else "*") ==> AppliedRight(r, same)
    ensures FilePermits(ds, agent, path) <==> FileMeans(ds, agent, path, same)
  {
    DecidedAsMeant(RulesFor(ds, if Mentioned(ds, agent) then agent else "*"), same, path);
  }
}
