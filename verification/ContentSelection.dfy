// Selecting relevant sections of a document within a character budget.
module ContentSelection {
  import opened Texts

  const MAX_SECTION_CHARACTERS := 5_000

  // A section as it will be shown, its place in the document and its relevance.
  datatype Candidate = Candidate(index: nat, heading: string, rendered: string, score: real)

  datatype Selected = Selected(heading: string, markdown: string, score: real, truncated: bool)

  datatype Selection = Selection(sections: seq<Selected>, markdown: string, truncated: bool, sectionTruncated: bool,
                                 noRelevantSection: bool)

  /*** Ranking ***/

  // Score descending, index ascending.
  predicate Before(a: Candidate, b: Candidate) {
    a.score > b.score || (a.score == b.score && a.index <= b.index)
  }

  predicate Ranked(candidates: seq<Candidate>) {
    forall i, j :: 0 <= i < j < |candidates| ==> Before(candidates[i], candidates[j])
  }

  function Relevant(candidates: seq<Candidate>, hasTerms: bool): seq<Candidate> {
    if candidates == [] then []
    else (if !hasTerms || candidates[0].score > 0.0 then [candidates[0]] else []) + Relevant(candidates[1..], hasTerms)
  }

  function Insert(c: Candidate, ranked: seq<Candidate>): seq<Candidate> {
    if ranked == [] || Before(c, ranked[0]) then [c] + ranked else [ranked[0]] + Insert(c, ranked[1..])
  }

  function Rank(candidates: seq<Candidate>): seq<Candidate> {
    if candidates == [] then [] else Insert(candidates[0], Rank(candidates[1..]))
  }

  lemma FirstOfRanked(c: Candidate, ranked: seq<Candidate>)
    requires Ranked(ranked) && ranked != [] && Before(c, ranked[0])
    ensures Ranked([c] + ranked)
  {
    forall i | 0 <= i < |ranked|
      ensures Before(c, ranked[i])
    {
      assert i > 0 ==> Before(ranked[0], ranked[i]);
    }
    PutInFront(c, ranked);
  }

  lemma PutInFront(c: Candidate, ranked: seq<Candidate>)
    requires Ranked(ranked) && forall i :: 0 <= i < |ranked| ==> Before(c, ranked[i])
    ensures Ranked([c] + ranked)
  {
    hide Before;
  }

  lemma {:induction false} InsertRanks(c: Candidate, ranked: seq<Candidate>)
    requires Ranked(ranked)
    ensures Ranked(Insert(c, ranked)) && multiset(Insert(c, ranked)) == multiset{c} + multiset(ranked)
  {
    if ranked == [] {
    } else if Before(c, ranked[0]) {
      assert multiset([c] + ranked) == multiset{c} + multiset(ranked);
      FirstOfRanked(c, ranked);
    } else {
      assert ranked == [ranked[0]] + ranked[1..];
      assert Ranked(ranked[1..]);
      InsertRanks(c, ranked[1..]);
      var rest := Insert(c, ranked[1..]);
      forall i | 0 <= i < |rest|
        ensures Before(ranked[0], rest[i])
      {
        assert rest[i] in multiset(rest);
        assert rest[i] == c || rest[i] in ranked[1..];
      }
      PutInFront(ranked[0], rest);
    }
  }

  // The ranking is sorted, and it is the candidates.
  lemma {:induction false} RankSorts(candidates: seq<Candidate>)
    ensures Ranked(Rank(candidates)) && multiset(Rank(candidates)) == multiset(candidates)
    ensures forall i, j :: 0 <= i < j < |Rank(candidates)| ==>
              var a, b := Rank(candidates)[i], Rank(candidates)[j]; a.score > b.score || (a.score == b.score && a.index <= b.index)
  {
    if candidates != [] {
      RankSorts(candidates[1..]);
      InsertRanks(candidates[0], Rank(candidates[1..]));
      assert candidates == [candidates[0]] + candidates[1..];
    }
  }

  // With search terms, the relevant candidates are those with a positive score; without, all are.
  lemma {:induction false} RelevantExactly(candidates: seq<Candidate>, hasTerms: bool, c: Candidate)
    ensures multiset(Relevant(candidates, hasTerms))[c] == if hasTerms && c.score <= 0.0 then 0 else multiset(candidates)[c]
  {
    if candidates != [] {
      RelevantExactly(candidates[1..], hasTerms, c);
      assert candidates == [candidates[0]] + candidates[1..];
      var first := if !hasTerms || candidates[0].score > 0.0 then [candidates[0]] else [];
      assert multiset(Relevant(candidates, hasTerms)) == multiset(first) + multiset(Relevant(candidates[1..], hasTerms));
    }
  }

  // What the ranking of the relevant candidates holds.
  lemma RankedRelevant(candidates: seq<Candidate>, hasTerms: bool, c: Candidate)
    ensures c in Rank(Relevant(candidates, hasTerms)) <==> c in candidates && (hasTerms ==> c.score > 0.0)
  {
    RankSorts(Relevant(candidates, hasTerms));
    RelevantExactly(candidates, hasTerms, c);
    assert c in Rank(Relevant(candidates, hasTerms)) <==> c in multiset(Rank(Relevant(candidates, hasTerms)));
    assert c in candidates <==> c in multiset(candidates);
  }

  /*** Truncation ***/

  predicate IsBlank(c: char) {
    c == '\n' || c == ' '
  }

  predicate NoBlank(text: string, from: int, to: nat)
    requires to <= |text|
  {
    forall k :: 0 <= k < to && k >= from ==> !IsBlank(text[k])
  }

  // 0.7 as a floating-point number is SEVEN_TENTHS / ONE.
  const ONE := 0x20_0000_0000_0000
  const SEVEN_TENTHS := 6305039478318694

  // The number of 53 significant binary digits nearest to x, of two the even one, in multiples of the
  // unit or coarser.
  function Nearest(x: nat, unit: nat): nat
    requires unit > 0
    decreases x - unit * ONE
  {
    if x >= unit * ONE then Nearest(x, 2 * unit)
    else if 2 * (x % unit) > unit || (2 * (x % unit) == unit && x / unit % 2 == 1) then (x / unit + 1) * unit
    else x / unit * unit
  }

  lemma {:induction false} NearestIsClose(x: nat, unit: nat)
    requires unit > 0 && (unit == 1 || unit * ONE <= 2 * x)
    ensures x * (ONE - 1) <= Nearest(x, unit) * ONE <= x * (ONE + 1)
    decreases x - unit * ONE
  {
    if x >= unit * ONE {
      NearestIsClose(x, 2 * unit);
    } else {
      NearestMultiple(x, unit);
    }
  }

  lemma NearestMultiple(x: nat, unit: nat)
    requires 0 < unit && x < unit * ONE
    ensures if unit == 1 then Nearest(x, unit) == x else 2 * x - unit <= 2 * Nearest(x, unit) <= 2 * x + unit
  {
    assert x == x / unit * unit + x % unit;
    assert (x / unit + 1) * unit == x / unit * unit + unit;
  }

  // The floor of the floating-point product with 0.7.
  function MinimumBoundary(maxCharacters: nat): nat {
    Nearest(maxCharacters * SEVEN_TENTHS, 1) / ONE
  }

  // Rounding makes the exact 70 % smaller by one at most.
  lemma MinimumBoundaryIsClose(maxCharacters: nat)
    requires maxCharacters < 0x4_0000_0000_0000
    ensures maxCharacters * 7 / 10 - 1 <= MinimumBoundary(maxCharacters) <= maxCharacters * 7 / 10
  {
    NearestIsClose(maxCharacters * SEVEN_TENTHS, 1);
  }

  // Where a text is cut: at the last blank that leaves about 70 % of the length, else as late as possible.
  predicate IsCut(text: string, maxCharacters: nat, end: nat) {
    && 0 < maxCharacters <= |text|
    && (if end == maxCharacters - 1 then NoBlank(text, MinimumBoundary(maxCharacters), maxCharacters - 1)
        else MinimumBoundary(maxCharacters) <= end < maxCharacters - 1 && IsBlank(text[end]) && NoBlank(text, end + 1, maxCharacters - 1))
  }

  // A shortened text: a prefix up to the cut, without trailing white space, and an ellipsis.
  ghost predicate Shortened(result: string, text: string, maxCharacters: nat) {
    exists end: nat :: IsCut(text, maxCharacters, end) && result == TrimEnd(text[..end]) + "\U{2026}"
  }

  lemma {:induction false} TrimEndIsPrefix(text: string)
    ensures TrimEnd(text) <= text
  {
    if text != "" && IsSpace(text[|text| - 1]) {
      TrimEndIsPrefix(text[..|text| - 1]);
    }
  }

  // Cuts at the last blank among the first characters unless that is too far back.
  method TruncateAtBoundary(value: string, maxCharacters: nat) returns (result: string)
    requires maxCharacters < |value|
    ensures |result| <= maxCharacters
    ensures maxCharacters > 0 ==> Shortened(result, value, maxCharacters)
    ensures maxCharacters == 0 ==> result == ""
  {
    if maxCharacters == 0 {
      return "";
    }
    if maxCharacters == 1 {
      assert IsCut(value, 1, 0) && TrimEnd(value[..0]) + "\U{2026}" == "\U{2026}";
      return "\U{2026}";
    }
    var candidate := value[..maxCharacters - 1];
    var boundary := -1;
    var index := |candidate| - 1;
    while index >= 0 && boundary == -1
      invariant -1 <= index < |candidate| && -1 <= boundary < |candidate|
      invariant boundary == -1 ==> forall k :: index < k < |candidate| ==> !IsBlank(candidate[k])
      invariant boundary >= 0 ==> IsBlank(candidate[boundary]) && forall k :: boundary < k < |candidate| ==> !IsBlank(candidate[k])
      decreases index + 1, boundary == -1
    {
      if IsBlank(candidate[index]) {
        boundary := index;
      }
      index := index - 1;
    }
    var minimumBoundary := MinimumBoundary(maxCharacters);
    var end := if boundary >= minimumBoundary then boundary else |candidate|;
    assert candidate[..end] == value[..end];
    assert forall k :: 0 <= k < |candidate| ==> candidate[k] == value[k];
    assert IsCut(value, maxCharacters, end);
    TrimEndIsPrefix(candidate[..end]);
    result := TrimEnd(candidate[..end]) + "\U{2026}";
  }

  /*** Selection within the budget ***/

  function Joined(sections: seq<Selected>): string {
    if sections == [] then ""
    else if |sections| == 1 then sections[0].markdown
    else Joined(sections[..|sections| - 1]) + "\n\n" + sections[|sections| - 1].markdown
  }

  function JoinedInFull(candidates: seq<Candidate>): string {
    if candidates == [] then ""
    else if |candidates| == 1 then candidates[0].rendered
    else JoinedInFull(candidates[..|candidates| - 1]) + "\n\n" + candidates[|candidates| - 1].rendered
  }

  function Least(a: int, b: int): int {
    if a < b then a else b
  }

  // A selected section is its candidate in full if that fits, or else shortened to what fits.
  ghost predicate Shows(s: Selected, c: Candidate, budget: nat) {
    && s.heading == c.heading && s.score == c.score && |s.markdown| <= budget
    && (s.truncated <==> |c.rendered| > budget)
    && (if s.truncated then Shortened(s.markdown, c.rendered, budget) else s.markdown == c.rendered)
  }

  // What the sections before leave of the budget, once a separator is put after them.
  function Remaining(before: seq<Selected>, maxCharacters: nat): int {
    maxCharacters - |Joined(before)| - (if before == [] then 0 else 2)
  }

  // The sections show the first of the ranked candidates, in order, each within what is left.
  ghost predicate ShowsInOrder(sections: seq<Selected>, ranked: seq<Candidate>, maxCharacters: nat) {
    && |sections| <= |ranked|
    && forall i :: 0 <= i < |sections| ==>
         && Remaining(sections[..i], maxCharacters) > 0
         && Shows(sections[i], ranked[i], Least(MAX_SECTION_CHARACTERS, Remaining(sections[..i], maxCharacters)))
  }

  predicate AnyTruncated(sections: seq<Selected>) {
    exists i :: 0 <= i < |sections| && sections[i].truncated
  }

  lemma {:induction false} FullSectionsJoin(sections: seq<Selected>, ranked: seq<Candidate>)
    requires |sections| == |ranked| && forall i :: 0 <= i < |sections| ==> sections[i].markdown == ranked[i].rendered
    ensures Joined(sections) == JoinedInFull(ranked)
    decreases |sections|
  {
    if |sections| > 1 {
      var last := |sections| - 1;
      FullSectionsJoin(sections[..last], ranked[..last]);
    }
  }

  lemma ShownInFull(sections: seq<Selected>, ranked: seq<Candidate>, maxCharacters: nat)
    requires ShowsInOrder(sections, ranked, maxCharacters) && !AnyTruncated(sections)
    ensures forall i :: 0 <= i < |sections| ==> sections[i].markdown == ranked[i].rendered
  {
  }

  // The sections are of relevant candidates, none better than the one before it, and at most this long.
  ghost predicate BestFirst(sections: seq<Selected>, candidates: seq<Candidate>, hasTerms: bool) {
    && (forall i, j :: 0 <= i < j < |sections| ==> sections[i].score >= sections[j].score)
    && forall i :: 0 <= i < |sections| ==>
         && |sections[i].markdown| <= 5_000 && (hasTerms ==> sections[i].score > 0.0)
         && exists c :: c in candidates && c.heading == sections[i].heading && c.score == sections[i].score
                        && (sections[i].truncated || sections[i].markdown == c.rendered)
  }

  lemma ShownAreBest(candidates: seq<Candidate>, hasTerms: bool, sections: seq<Selected>, maxCharacters: nat)
    requires ShowsInOrder(sections, Rank(Relevant(candidates, hasTerms)), maxCharacters)
    ensures BestFirst(sections, candidates, hasTerms)
  {
    hide Rank, Relevant, Remaining, Shortened;
    var all := Rank(Relevant(candidates, hasTerms));
    RankSorts(Relevant(candidates, hasTerms));
    forall i | 0 <= i < |sections|
      ensures all[i] in candidates && (hasTerms ==> all[i].score > 0.0)
    {
      RankedRelevant(candidates, hasTerms, all[i]);
    }
    assert forall i :: 0 <= i < |sections| ==> sections[i].score == all[i].score && sections[i].heading == all[i].heading;
  }

  lemma NothingRelevant(candidates: seq<Candidate>, hasTerms: bool)
    ensures Rank(Relevant(candidates, hasTerms)) == [] <==> forall c :: c in candidates ==> hasTerms && c.score <= 0.0
  {
    var all := Rank(Relevant(candidates, hasTerms));
    forall c
      ensures c in all <==> c in candidates && (hasTerms ==> c.score > 0.0)
    {
      RankedRelevant(candidates, hasTerms, c);
    }
    assert all != [] ==> all[0] in all;
  }

  // The output is within the budget, separators included; it shows the best candidates in rank
  // order, each in full or shortened; and it is unmarked exactly when it is all of them in full.
  method SelectRelevantContent(candidates: seq<Candidate>, hasTerms: bool, maxCharacters: nat, maxSections: nat)
    returns (r: Selection)
    ensures |r.markdown| <= maxCharacters && r.markdown == Joined(r.sections)
    ensures var all := Rank(Relevant(candidates, hasTerms));
            && ShowsInOrder(r.sections, all, maxCharacters) && |r.sections| <= maxSections
            && (|r.sections| < |all| && |r.sections| < maxSections ==> Remaining(r.sections, maxCharacters) <= 0)
            && (r.noRelevantSection <==> all == [] || maxSections == 0)
            && (!r.noRelevantSection ==> (r.truncated <==> |r.sections| < |all| || AnyTruncated(r.sections)))
            && (!r.noRelevantSection && !r.truncated ==> r.markdown == JoinedInFull(all))
            && (r.sectionTruncated <==> AnyTruncated(r.sections))
    ensures r.noRelevantSection <==> maxSections == 0 || forall c :: c in candidates ==> hasTerms && c.score <= 0.0
    ensures BestFirst(r.sections, candidates, hasTerms)
  {
    NothingRelevant(candidates, hasTerms);
    var all := Rank(Relevant(candidates, hasTerms));
    var ranked := if maxSections < |all| then all[..maxSections] else all;
    if |ranked| == 0 {
      return Selection([], "", false, false, true);
    }
    var sections, contentTruncated, sectionTruncated := SelectWithin(ranked, maxCharacters);
    contentTruncated := contentTruncated || |ranked| < |all|;
    if |sections| == |all| && !sectionTruncated {
      ShownInFull(sections, ranked, maxCharacters);
      FullSectionsJoin(sections, all);
    }
    ShownAreBest(candidates, hasTerms, sections, maxCharacters);
    r := Selection(sections, Joined(sections), contentTruncated || sectionTruncated, sectionTruncated, false);
  }

  method SelectWithin(ranked: seq<Candidate>, maxCharacters: nat)
    returns (sections: seq<Selected>, contentTruncated: bool, sectionTruncated: bool)
    ensures |Joined(sections)| <= maxCharacters && ShowsInOrder(sections, ranked, maxCharacters)
    ensures contentTruncated <==> |sections| < |ranked|
    ensures contentTruncated ==> Remaining(sections, maxCharacters) <= 0
    ensures sectionTruncated <==> AnyTruncated(sections)
  {
    hide Shows, Joined, AnyTruncated;
    NothingSelected();
    var remaining: int := maxCharacters;
    sections, contentTruncated, sectionTruncated := [], false, false;
    for i := 0 to |ranked|
      invariant |sections| == i && ShowsInOrder(sections, ranked, maxCharacters) && !contentTruncated
      invariant remaining == maxCharacters - |Joined(sections)| && remaining >= 0
      invariant sectionTruncated <==> AnyTruncated(sections)
    {
      if |sections| > 0 {
        remaining := remaining - 2;
      }
      if remaining <= 0 {
        contentTruncated := true;
        return;
      }
      var selected := ShowWithin(ranked[i], Least(MAX_SECTION_CHARACTERS, remaining));
      OneMoreSelected(sections, selected);
      OneMoreShown(sections, ranked, maxCharacters, selected);
      sectionTruncated := sectionTruncated || selected.truncated;
      sections := sections + [selected];
      remaining := remaining - |selected.markdown|;
    }
  }

  method ShowWithin(c: Candidate, sectionBudget: nat) returns (s: Selected)
    requires sectionBudget > 0
    ensures Shows(s, c, sectionBudget)
  {
    var truncated := |c.rendered| > sectionBudget;
    var value := c.rendered;
    if truncated {
      value := TruncateAtBoundary(c.rendered, sectionBudget);
    }
    s := Selected(c.heading, value, c.score, truncated);
  }

  lemma OneMoreShown(sections: seq<Selected>, ranked: seq<Candidate>, maxCharacters: nat, s: Selected)
    requires ShowsInOrder(sections, ranked, maxCharacters) && |sections| < |ranked| && Remaining(sections, maxCharacters) > 0
    requires Shows(s, ranked[|sections|], Least(MAX_SECTION_CHARACTERS, Remaining(sections, maxCharacters)))
    ensures ShowsInOrder(sections + [s], ranked, maxCharacters) && |s.markdown| <= Remaining(sections, maxCharacters)
  {
    hide Remaining;
    var more := sections + [s];
    forall i | 0 <= i < |more|
      ensures Remaining(more[..i], maxCharacters) > 0
      ensures Shows(more[i], ranked[i], Least(MAX_SECTION_CHARACTERS, Remaining(more[..i], maxCharacters)))
    {
      if i < |sections| {
        assert more[..i] == sections[..i];
      } else {
        assert more[..i] == sections;
      }
    }
  }

  lemma NothingSelected()
    ensures Joined([]) == "" && !AnyTruncated([])
  {
  }

  lemma OneMoreSelected(sections: seq<Selected>, s: Selected)
    ensures |Joined(sections + [s])| == |Joined(sections)| + (if sections == [] then 0 else 2) + |s.markdown|
    ensures AnyTruncated(sections + [s]) <==> AnyTruncated(sections) || s.truncated
  {
    var more := sections + [s];
    assert more[..|sections|] == sections && more[|sections|] == s;
    if AnyTruncated(sections) {
      var i :| 0 <= i < |sections| && sections[i].truncated;
      assert more[i].truncated;
    }
  }
}
