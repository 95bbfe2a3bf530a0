// Bounding what is stored of one section: long sections become overlapping chunks, renumbered.
module ContentChunks {
  import opened Texts
  import opened CatalogTables

  const MAX_SECTION := 12_000
  const OVERLAP := 400
  const STEP := MAX_SECTION - OVERLAP

  // The stretches of the text that become chunks; each starts OVERLAP characters before the last ends.
  function Windows(text: string): (windows: seq<string>)
    ensures windows != [] && forall i :: 0 <= i < |windows| ==> |windows[i]| <= MAX_SECTION
    decreases |text|
  {
    if |text| <= MAX_SECTION then [text] else [text[..MAX_SECTION]] + Windows(text[STEP..])
  }

  function Reassembled(windows: seq<string>): string
    requires windows != []
  {
    if |windows| == 1 then windows[0]
    else windows[0] + (if |Reassembled(windows[1..])| >= OVERLAP then Reassembled(windows[1..])[OVERLAP..] else "")
  }

  // Nothing is lost: dropping each overlap and joining gives the text back.
  lemma {:induction false} WindowsCoverText(text: string)
    ensures Reassembled(Windows(text)) == text
    decreases |text|
  {
    if |text| > MAX_SECTION {
      var rest := text[STEP..];
      WindowsCoverText(rest);
      assert Windows(text) == [text[..MAX_SECTION]] + Windows(rest) && Windows(text)[1..] == Windows(rest);
      assert text[..MAX_SECTION] + rest[OVERLAP..] == text;
    }
  }

  // Each window but the last is full, and the next one starts with its last OVERLAP characters.
  lemma {:induction false} WindowsOverlap(text: string, i: nat)
    requires i + 1 < |Windows(text)|
    ensures var w, next := Windows(text)[i], Windows(text)[i + 1];
            |w| == 12_000 && |next| > 400 && w[11_600..] == next[..400]
    decreases |text|
  {
    var rest := text[STEP..];
    assert Windows(text) == [text[..MAX_SECTION]] + Windows(rest);
    if i == 0 {
      FirstWindow(rest);
      assert text[..MAX_SECTION][STEP..] == rest[..OVERLAP];
    } else {
      WindowsOverlap(rest, i - 1);
    }
  }

  lemma FirstWindow(text: string)
    requires |text| > OVERLAP
    ensures |Windows(text)[0]| > OVERLAP && Windows(text)[0][..OVERLAP] == text[..OVERLAP]
  {
  }

  /*** Chunks ***/

  function NonEmpty(windows: seq<string>): seq<string> {
    if windows == [] then []
    else (if Trim(windows[0]) != "" then [Trim(windows[0])] else []) + NonEmpty(windows[1..])
  }

  // A section that fits is kept as it is.
  function Pieces(text: string): seq<string> {
    if |text| <= MAX_SECTION then [text] else NonEmpty(Windows(text))
  }

  predicate TooLong(sections: seq<SectionInput>) {
    exists i :: 0 <= i < |sections| && |sections[i].content| > MAX_SECTION
  }

  function AsSections(section: SectionInput, texts: seq<string>): seq<SectionInput> {
    seq(|texts|, i requires 0 <= i < |texts| => section.(content := texts[i]))
  }

  function PiecesOf(sections: seq<SectionInput>): seq<SectionInput> {
    if sections == [] then []
    else
      var last := sections[|sections| - 1];
      PiecesOf(sections[..|sections| - 1]) + AsSections(last, Pieces(last.content))
  }

  function Renumbered(sections: seq<SectionInput>): seq<SectionInput> {
    seq(|sections|, i requires 0 <= i < |sections| => sections[i].(ordinal := i))
  }

  function Numbered(first: nat, section: SectionInput, texts: seq<string>): seq<SectionInput> {
    seq(|texts|, i requires 0 <= i < |texts| => section.(ordinal := first + i, content := texts[i]))
  }

  lemma RenumberedAppend(before: seq<SectionInput>, section: SectionInput, texts: seq<string>)
    ensures Renumbered(before + AsSections(section, texts)) == Renumbered(before) + Numbered(|before|, section, texts)
  {
  }

  lemma TrimShortens(text: string)
    ensures |Trim(text)| <= |text|
  {
    StartShortens(text);
    EndShortens(TrimStart(text));
  }

  lemma {:induction false} StartShortens(text: string)
    ensures |TrimStart(text)| <= |text|
  {
    if text != "" && IsSpace(text[0]) {
      StartShortens(text[1..]);
    }
  }

  lemma {:induction false} EndShortens(text: string)
    ensures |TrimEnd(text)| <= |text|
  {
    if text != "" && IsSpace(text[|text| - 1]) {
      EndShortens(text[..|text| - 1]);
    }
  }

  lemma {:induction false} NonEmptyIsBounded(windows: seq<string>)
    requires forall i :: 0 <= i < |windows| ==> |windows[i]| <= MAX_SECTION
    ensures forall i :: 0 <= i < |NonEmpty(windows)| ==> 0 < |NonEmpty(windows)[i]| <= MAX_SECTION
  {
    if windows != [] {
      TrimShortens(windows[0]);
      NonEmptyIsBounded(windows[1..]);
    }
  }

  lemma PiecesAreBounded(text: string)
    ensures forall i :: 0 <= i < |Pieces(text)| ==> |Pieces(text)[i]| <= MAX_SECTION
  {
    if |text| > MAX_SECTION {
      NonEmptyIsBounded(Windows(text));
    }
  }

  lemma {:induction false} PiecesOfAreBounded(sections: seq<SectionInput>)
    ensures forall i :: 0 <= i < |PiecesOf(sections)| ==> |PiecesOf(sections)[i].content| <= MAX_SECTION
  {
    if sections != [] {
      PiecesOfAreBounded(sections[..|sections| - 1]);
      PiecesAreBounded(sections[|sections| - 1].content);
    }
  }

  method ValidateSectionIdentity(sections: seq<SectionInput>) returns (valid: bool)
    ensures valid <==> DistinctOrdinals(sections)
  {
    var seen: set<int> := {};
    for i := 0 to |sections|
      invariant forall j :: 0 <= j < i ==> sections[j].ordinal in seen
      invariant forall o :: o in seen ==> exists j :: 0 <= j < i && sections[j].ordinal == o
      invariant forall j, k :: 0 <= j < k < i ==> sections[j].ordinal != sections[k].ordinal
    {
      if sections[i].ordinal in seen {
        return false;
      }
      seen := seen + {sections[i].ordinal};
    }
    valid := true;
  }

  method RequiresChunking(sections: seq<SectionInput>) returns (required: bool)
    ensures required <==> TooLong(sections)
  {
    required := false;
    for i := 0 to |sections|
      invariant required <==> exists j :: 0 <= j < i && |sections[j].content| > MAX_SECTION
    {
      if |sections[i].content| > MAX_SECTION {
        required := true;
      }
    }
  }

  // The piece has the headings of a section, and the whole of its text or, trimmed, a window of it.
  ghost predicate IsPieceOfOne(piece: SectionInput, sections: seq<SectionInput>) {
    exists k :: 0 <= k < |sections|
                && piece.heading == sections[k].heading && piece.headingPath == sections[k].headingPath
                && (piece.content == sections[k].content
                    || (|sections[k].content| > 12_000 && piece.content != ""
                        && exists i :: 0 <= i < |Windows(sections[k].content)| && piece.content == Trim(Windows(sections[k].content)[i])))
  }

  lemma {:induction false} NonEmptyAreTrimmed(windows: seq<string>)
    ensures forall j :: 0 <= j < |NonEmpty(windows)| ==>
              NonEmpty(windows)[j] != "" && exists i :: 0 <= i < |windows| && NonEmpty(windows)[j] == Trim(windows[i])
  {
    if windows != [] {
      NonEmptyAreTrimmed(windows[1..]);
      var first := if Trim(windows[0]) != "" then [Trim(windows[0])] else [];
      forall j | 0 <= j < |NonEmpty(windows)|
        ensures NonEmpty(windows)[j] != "" && exists i :: 0 <= i < |windows| && NonEmpty(windows)[j] == Trim(windows[i])
      {
        if j >= |first| {
          var i :| 0 <= i < |windows[1..]| && NonEmpty(windows[1..])[j - |first|] == Trim(windows[1..][i]);
          assert windows[1..][i] == windows[i + 1];
        }
      }
    }
  }

  lemma {:induction false} PiecesOfKeepHeadings(sections: seq<SectionInput>)
    ensures forall i :: 0 <= i < |PiecesOf(sections)| ==> forall ordinal :: IsPieceOfOne(PiecesOf(sections)[i].(ordinal := ordinal), sections)
    ensures forall i :: 0 <= i < |sections| ==> IsPieceOfOne(sections[i], sections)
    decreases |sections|
  {
    if sections != [] {
      var last := |sections| - 1;
      PiecesOfKeepHeadings(sections[..last]);
      LastPieces(sections);
      hide IsPieceOfOne, Pieces;
      forall piece | IsPieceOfOne(piece, sections[..last])
        ensures IsPieceOfOne(piece, sections)
      {
        StillPiece(piece, sections);
      }
    }
  }

  lemma StillPiece(piece: SectionInput, sections: seq<SectionInput>)
    requires sections != [] && IsPieceOfOne(piece, sections[..|sections| - 1])
    ensures IsPieceOfOne(piece, sections)
  {
    hide Windows, Trim;
  }

  lemma LastPieces(sections: seq<SectionInput>)
    requires sections != []
    ensures var section := sections[|sections| - 1];
            && IsPieceOfOne(section, sections)
            && forall i, ordinal :: 0 <= i < |Pieces(section.content)| ==>
                 IsPieceOfOne(section.(content := Pieces(section.content)[i], ordinal := ordinal), sections)
  {
    var section := sections[|sections| - 1];
    NonEmptyAreTrimmed(Windows(section.content));
  }

  // What chunking produces is within bounds, and its ordinals never clash, so storing it cannot
  // fail on the unique index over (version, ordinal).
  method ChunkDocumentSections(sections: seq<SectionInput>) returns (r: Result<seq<SectionInput>>)
    ensures r.Ok? <==> DistinctOrdinals(sections)
    ensures r.Ok? ==>
              && r.value == (if TooLong(sections) then Renumbered(PiecesOf(sections)) else sections)
              && DistinctOrdinals(r.value)
              && (forall i :: 0 <= i < |r.value| ==> |r.value[i].content| <= 12_000)
              && ((forall i :: 0 <= i < |sections| ==> |sections[i].content| <= 12_000) ==> r.value == sections)
              && forall i :: 0 <= i < |r.value| ==> IsPieceOfOne(r.value[i], sections)
  {
    var valid := ValidateSectionIdentity(sections);
    if !valid {
      return Err(ConstraintViolation);
    }
    var requiresChunking := RequiresChunking(sections);
    if !requiresChunking {
      return Ok(sections);
    }
    PiecesOfAreBounded(sections);
    PiecesOfKeepHeadings(sections);
    hide PiecesOf, Pieces, TooLong, IsPieceOfOne;
    var bounded := ChunkAll(sections);
    r := Ok(bounded);
  }

  method ChunkAll(sections: seq<SectionInput>) returns (bounded: seq<SectionInput>)
    ensures bounded == Renumbered(PiecesOf(sections))
  {
    bounded := [];
    for i := 0 to |sections|
      invariant bounded == Renumbered(PiecesOf(sections[..i]))
    {
      var section := sections[i];
      PiecesOfOneMore(sections, i);
      RenumberedAppend(PiecesOf(sections[..i]), section, Pieces(section.content));
      if |section.content| <= MAX_SECTION {
        bounded := bounded + [section.(ordinal := |bounded|)];
      } else {
        bounded := AppendChunks(bounded, section);
      }
    }
    assert sections[..|sections|] == sections;
  }

  lemma PiecesOfOneMore(sections: seq<SectionInput>, i: nat)
    requires i < |sections|
    ensures PiecesOf(sections[..i + 1]) == PiecesOf(sections[..i]) + AsSections(sections[i], Pieces(sections[i].content))
  {
    assert sections[..i + 1][..i] == sections[..i];
  }

  // The inner loop over the starts of the windows.
  method AppendChunks(before: seq<SectionInput>, section: SectionInput) returns (bounded: seq<SectionInput>)
    requires |section.content| > MAX_SECTION
    ensures bounded == before + Numbered(|before|, section, Pieces(section.content))
  {
    hide Windows, NonEmpty, Pieces, Numbered;
    bounded := before;
    var text := section.content;
    var start := 0;
    var done := false;
    ghost var texts: seq<string> := [];
    FirstPieces(before, section);
    while !done
      invariant 0 <= start < |text|
      invariant bounded == before + Numbered(|before|, section, texts)
      invariant Pieces(text) == texts + PiecesFrom(text, start, done)
      decreases !done, |text| - start
    {
      var end := if start + MAX_SECTION < |text| then start + MAX_SECTION else |text|;
      var content := Trim(text[start..end]);
      NextPieces(text, start, texts);
      if content != "" {
        NumberedOneMore(before, section, texts, content);
        bounded := bounded + [section.(ordinal := |bounded|, content := content)];
        texts := texts + [content];
      }
      if start + MAX_SECTION >= |text| {
        done := true;
      } else {
        start := start + STEP;
      }
    }
    assert texts + [] == texts;
  }

  function PiecesFrom(text: string, start: nat, done: bool): seq<string>
    requires start < |text|
  {
    if done then [] else NonEmpty(Windows(text[start..]))
  }

  lemma FirstPieces(before: seq<SectionInput>, section: SectionInput)
    requires |section.content| > MAX_SECTION
    ensures before == before + Numbered(|before|, section, [])
    ensures Pieces(section.content) == [] + PiecesFrom(section.content, 0, false)
  {
    assert section.content[0..] == section.content;
  }

  lemma NextPieces(text: string, start: nat, texts: seq<string>)
    requires start < |text|
    ensures var end := if start + MAX_SECTION < |text| then start + MAX_SECTION else |text|;
            var piece := Trim(text[start..end]);
            var more := if piece != "" then texts + [piece] else texts;
            texts + PiecesFrom(text, start, false)
            == more + (if start + MAX_SECTION >= |text| then [] else PiecesFrom(text, start + STEP, false))
  {
    NextWindow(text, start);
  }

  lemma NumberedOneMore(before: seq<SectionInput>, section: SectionInput, texts: seq<string>, content: string)
    ensures var so := before + Numbered(|before|, section, texts);
            so + [section.(ordinal := |so|, content := content)] == before + Numbered(|before|, section, texts + [content])
  {
  }

  lemma NextWindow(text: string, start: nat)
    requires start < |text|
    ensures var end := if start + MAX_SECTION < |text| then start + MAX_SECTION else |text|;
            var piece := Trim(text[start..end]);
            NonEmpty(Windows(text[start..]))
            == (if piece != "" then [piece] else [])
               + (if start + MAX_SECTION >= |text| then [] else NonEmpty(Windows(text[start + STEP..])))
  {
    var rest := text[start..];
    if start + MAX_SECTION < |text| {
      assert rest[..MAX_SECTION] == text[start..start + MAX_SECTION];
      assert rest[STEP..] == text[start + STEP..];
      assert Windows(rest) == [rest[..MAX_SECTION]] + Windows(rest[STEP..]);
    } else {
      assert text[start..|text|] == rest;
    }
  }
}
