// Matching a robots.txt path pattern: the leftmost search over the pattern's literal segments
// against the meaning of '*' (any string) in section 2.2.3 of RFC 9309.
module RobotsWildcards {
  import opened Prelude

  // The whole text matches the pattern.
  ghost predicate Glob(pattern: string, text: string)
    decreases |pattern|
  {
    if pattern == [] then text == []
    else if pattern[0] == '*' then exists k :: 0 <= k <= |text| && Glob(pattern[1..], text[k..])
    else text != [] && text[0] == pattern[0] && Glob(pattern[1..], text[1..])
  }

  // The pattern covers the first n characters of the path.
  ghost predicate Covers(pattern: string, path: string, n: nat) {
    n <= |path| && Glob(pattern, path[..n])
  }

  predicate EndsWithStar(pattern: string) {
    pattern != [] && pattern[|pattern| - 1] == '*'
  }

  // What the search decides: some prefix for an open pattern; for an anchored one, the whole path,
  // and, unless the pattern ends in '*', no shorter prefix.
  ghost predicate Decided(pattern: string, path: string, anchored: bool) {
    if !anchored then exists n :: Covers(pattern, path, n)
    else if EndsWithStar(pattern) then Glob(pattern, path)
    else Glob(pattern, path) && forall n: nat :: n < |path| ==> !Covers(pattern, path, n)
  }

  /*** Segments ***/

  function Split(pattern: string): (segments: seq<string>)
    ensures segments != []
    ensures forall i :: 0 <= i < |segments| ==> '*' !in segments[i]
    ensures pattern == segments[0] + StarTail(segments, 1)
    decreases |pattern|
  {
    if pattern == [] then [[]]
    else
      var rest := Split(pattern[1..]);
      if pattern[0] == '*' then
        ShiftTail(rest, [[]] + rest, 0);
        [[]] + rest
      else
        var segments := [[pattern[0]] + rest[0]] + rest[1..];
        SameTail(rest, segments, 1);
        assert segments[0] + StarTail(segments, 1) == [pattern[0]] + (rest[0] + StarTail(rest, 1));
        segments
  }

  // An empty first or last segment is a star at that end.
  lemma {:induction false} StarsAtTheEnds(pattern: string)
    ensures var segments := Split(pattern);
            && ((pattern != [] && pattern[0] == '*') <==> (segments[0] == [] && |segments| > 1))
            && (EndsWithStar(pattern) <==> (segments[|segments| - 1] == [] && |segments| > 1))
    decreases |pattern|
  {
    if pattern != [] {
      StarsAtTheEnds(pattern[1..]);
      var segments, rest := Split(pattern), Split(pattern[1..]);
      if pattern[0] == '*' {
        assert segments == [[]] + rest;
      } else {
        assert segments == [[pattern[0]] + rest[0]] + rest[1..];
        FirstIsNotStar(pattern);
      }
    }
  }

  lemma FirstIsNotStar(pattern: string)
    requires pattern != [] && pattern[0] != '*'
    ensures EndsWithStar(pattern) <==> EndsWithStar(pattern[1..])
  {
  }

  // "*" before each segment from i on.
  function StarTail(segments: seq<string>, i: nat): string
    requires i <= |segments|
    decreases |segments| - i
  {
    if i == |segments| then [] else "*" + segments[i] + StarTail(segments, i + 1)
  }

  lemma {:induction false} SameTail(a: seq<string>, b: seq<string>, i: nat)
    requires |a| == |b| && i <= |a| && a[i..] == b[i..]
    ensures StarTail(a, i) == StarTail(b, i)
    decreases |a| - i
  {
    if i < |a| {
      assert a[i..][0] == b[i..][0] && a[i..][1..] == b[i..][1..];
      SameTail(a, b, i + 1);
    }
  }

  lemma {:induction false} ShiftTail(a: seq<string>, b: seq<string>, i: nat)
    requires |b| == |a| + 1 && i <= |a| && b[1..] == a
    ensures StarTail(a, i) == StarTail(b, i + 1)
    decreases |a| - i
  {
    if i < |a| {
      assert b[i + 1] == b[1..][i];
      ShiftTail(a, b, i + 1);
    }
  }

  /*** Placing segments ***/

  predicate Occurs(path: string, segment: string, p: nat) {
    p + |segment| <= |path| && path[p..p + |segment|] == segment
  }

  // Segments i, i + 1, ... can be placed in order from position `from` on, the last one ending at n.
  ghost predicate Ends(segments: seq<string>, i: nat, path: string, from: nat, n: nat)
    requires i <= |segments|
    decreases |segments| - i
  {
    if i == |segments| then n == from
    else exists p :: from <= p <= |path| && Occurs(path, segments[i], p) && Ends(segments, i + 1, path, p + |segments[i]|, n)
  }

  lemma {:induction false} EndsBetween(segments: seq<string>, i: nat, path: string, from: nat, n: nat)
    requires i <= |segments| && from <= |path| && Ends(segments, i, path, from, n)
    ensures from <= n <= |path|
    decreases |segments| - i
  {
    if i < |segments| {
      var p :| from <= p <= |path| && Occurs(path, segments[i], p) && Ends(segments, i + 1, path, p + |segments[i]|, n);
      EndsBetween(segments, i + 1, path, p + |segments[i]|, n);
    }
  }

  // Starting earlier loses nothing while a '*' is still to come.
  lemma EndsFromEarlier(segments: seq<string>, i: nat, path: string, from: nat, earlier: nat, n: nat)
    requires i < |segments| && earlier <= from && Ends(segments, i, path, from, n)
    ensures Ends(segments, i, path, earlier, n)
  {
    var p :| from <= p <= |path| && Occurs(path, segments[i], p) && Ends(segments, i + 1, path, p + |segments[i]|, n);
    assert earlier <= p <= |path|;
  }

  // A literal in front of a pattern is a prefix of the text.
  lemma {:induction false} GlobLiteral(literal: string, rest: string, text: string)
    requires '*' !in literal
    ensures Glob(literal + rest, text) <==>
              |literal| <= |text| && text[..|literal|] == literal && Glob(rest, text[|literal|..])
    decreases |literal|
  {
    if literal == [] {
      assert literal + rest == rest && text[0..] == text;
    } else {
      var pattern := literal + rest;
      assert pattern[0] == literal[0] && pattern[1..] == literal[1..] + rest;
      if text != [] {
        GlobLiteral(literal[1..], rest, text[1..]);
        if |literal| <= |text| {
          assert text[1..][..|literal| - 1] == text[..|literal|][1..];
          assert text[1..][|literal| - 1..] == text[|literal|..];
          assert text[..|literal|] == literal <==> text[0] == literal[0] && text[..|literal|][1..] == literal[1..];
        }
      }
    }
  }

  // Matching "*segment*segment..." on path[from..n] is placing the segments between from and n.
  lemma {:induction false} StarTailIsEnds(segments: seq<string>, i: nat, path: string, from: nat, n: nat)
    requires i <= |segments| && from <= n <= |path|
    requires forall j :: 0 <= j < |segments| ==> '*' !in segments[j]
    ensures Glob(StarTail(segments, i), path[from..n]) <==> Ends(segments, i, path, from, n)
    decreases |segments| - i, 1
  {
    if i < |segments| {
      forall p | from <= p <= n
        ensures Glob(segments[i] + StarTail(segments, i + 1), path[from..n][p - from..]) <==>
                  Occurs(path, segments[i], p) && Ends(segments, i + 1, path, p + |segments[i]|, n)
      {
        PlaceNext(segments, i, path, from, p, n);
      }
      StarThenSegment(segments, i, path, from, n);
    }
  }

  // The star is any choice of where the next segment goes.
  lemma StarThenSegment(segments: seq<string>, i: nat, path: string, from: nat, n: nat)
    requires i < |segments| && from <= n <= |path|
    requires forall p | from <= p <= n ::
               Glob(segments[i] + StarTail(segments, i + 1), path[from..n][p - from..]) <==>
               Occurs(path, segments[i], p) && Ends(segments, i + 1, path, p + |segments[i]|, n)
    ensures Glob(StarTail(segments, i), path[from..n]) <==> Ends(segments, i, path, from, n)
  {
    var pattern, rest, text := StarTail(segments, i), segments[i] + StarTail(segments, i + 1), path[from..n];
    assert pattern[0] == '*' && pattern[1..] == rest;
    if Glob(pattern, text) {
      var k :| 0 <= k <= |text| && Glob(pattern[1..], text[k..]);
      var p := from + k;
      assert Glob(rest, text[p - from..]);
      assert Occurs(path, segments[i], p) && Ends(segments, i + 1, path, p + |segments[i]|, n);
    }
    if Ends(segments, i, path, from, n) {
      var p :| from <= p <= |path| && Occurs(path, segments[i], p) && Ends(segments, i + 1, path, p + |segments[i]|, n);
      EndsBetween(segments, i + 1, path, p + |segments[i]|, n);
      assert from <= p <= n && Glob(rest, text[p - from..]);
      assert 0 <= p - from <= |text| && Glob(pattern[1..], text[p - from..]);
    }
  }

  lemma {:induction false} PlaceNext(segments: seq<string>, i: nat, path: string, from: nat, p: nat, n: nat)
    requires i < |segments| && from <= p <= n <= |path|
    requires forall j :: 0 <= j < |segments| ==> '*' !in segments[j]
    ensures Glob(segments[i] + StarTail(segments, i + 1), path[from..n][p - from..]) <==>
              Occurs(path, segments[i], p) && Ends(segments, i + 1, path, p + |segments[i]|, n)
    decreases |segments| - i, 0
  {
    var segment, text := segments[i], path[from..n][p - from..];
    var end := p + |segment|;
    assert text == path[p..n];
    GlobLiteral(segment, StarTail(segments, i + 1), text);
    if end <= n {
      assert text[..|segment|] == path[p..end] && text[|segment|..] == path[end..n];
      StarTailIsEnds(segments, i + 1, path, end, n);
    } else if end <= |path| && Ends(segments, i + 1, path, end, n) {
      EndsBetween(segments, i + 1, path, end, n);
    }
  }

  /*** The search ***/

  // The prefixes covered by a pattern are the ends of its segments after the first.
  lemma CoversIsEnds(pattern: string, path: string, n: nat)
    ensures var segments := Split(pattern);
            Covers(pattern, path, n) <==>
              n <= |path| && Occurs(path, segments[0], 0) && Ends(segments, 1, path, |segments[0]|, n)
  {
    var segments := Split(pattern);
    var first := segments[0];
    if n <= |path| {
      GlobLiteral(first, StarTail(segments, 1), path[..n]);
      if |first| <= n {
        assert path[..n][..|first|] == path[0..|first|] && path[..n][|first|..] == path[|first|..n];
        StarTailIsEnds(segments, 1, path, |first|, n);
      } else if |first| <= |path| && Ends(segments, 1, path, |first|, n) {
        EndsBetween(segments, 1, path, |first|, n);
      }
    }
  }

  // What the cursor stands for once the segments before i are placed leftmost: the ends still
  // possible are those reachable from the cursor, and at the very end the cursor is the least.
  ghost predicate Placed(pattern: string, path: string, segments: seq<string>, i: nat, cursor: nat)
    requires i <= |segments|
  {
    && cursor <= |path|
    && (i < |segments| ==> forall n: nat :: Covers(pattern, path, n) <==> Ends(segments, i, path, cursor, n))
    && (i == |segments| ==> Covers(pattern, path, cursor) && forall n: nat :: Covers(pattern, path, n) ==> cursor <= n)
    && (i == |segments| && |segments| > 1 && segments[i - 1] == [] ==>
          forall n: nat :: cursor <= n <= |path| ==> Covers(pattern, path, n))
    && (i == |segments| == 1 ==> forall n: nat :: Covers(pattern, path, n) ==> n == cursor)
  }

  // Placing the next segment at its leftmost occurrence keeps that meaning.
  lemma PlaceLeftmost(pattern: string, path: string, segments: seq<string>, i: nat, cursor: nat, found: nat)
    requires 0 < i < |segments| && Placed(pattern, path, segments, i, cursor)
    requires cursor <= found && Occurs(path, segments[i], found)
    requires forall p :: cursor <= p < found ==> !Occurs(path, segments[i], p)
    ensures Placed(pattern, path, segments, i + 1, found + |segments[i]|)
  {
    var next := found + |segments[i]|;
    forall n: nat | Covers(pattern, path, n)
      ensures i + 1 < |segments| ==> Ends(segments, i + 1, path, next, n)
      ensures i + 1 == |segments| ==> next <= n
    {
      var p :| cursor <= p <= |path| && Occurs(path, segments[i], p) && Ends(segments, i + 1, path, p + |segments[i]|, n);
      if i + 1 < |segments| {
        EndsFromEarlier(segments, i + 1, path, p + |segments[i]|, next, n);
      }
    }
    forall n: nat | Ends(segments, i + 1, path, next, n)
      ensures Covers(pattern, path, n)
    {
      assert Ends(segments, i, path, cursor, n);
    }
    if i + 1 == |segments| && segments[i] == [] {
      forall n: nat | next <= n <= |path|
        ensures Covers(pattern, path, n)
      {
        assert Occurs(path, segments[i], n) && Ends(segments, i + 1, path, n, n);
        assert Ends(segments, i, path, cursor, n);
      }
    }
  }

  lemma NowhereToPlace(pattern: string, path: string, segments: seq<string>, i: nat, cursor: nat)
    requires i < |segments| && Placed(pattern, path, segments, i, cursor)
    requires forall p :: cursor <= p <= |path| ==> !Occurs(path, segments[i], p)
    ensures forall n: nat :: !Covers(pattern, path, n)
  {
  }

  lemma FirstPlaced(pattern: string, path: string)
    ensures var segments := Split(pattern);
            if Occurs(path, segments[0], 0) then Placed(pattern, path, segments, 1, |segments[0]|)
            else forall n: nat :: !Covers(pattern, path, n)
  {
    var segments := Split(pattern);
    forall n: nat
      ensures Covers(pattern, path, n) <==>
                n <= |path| && Occurs(path, segments[0], 0) && Ends(segments, 1, path, |segments[0]|, n)
    {
      CoversIsEnds(pattern, path, n);
    }
    if Occurs(path, segments[0], 0) {
      forall n: nat | Ends(segments, 1, path, |segments[0]|, n)
        ensures n <= |path|
      {
        EndsBetween(segments, 1, path, |segments[0]|, n);
      }
    }
  }

  // String.indexOf from a position: the leftmost occurrence, if any.
  method IndexOf(path: string, segment: string, from: nat) returns (found: Option<nat>)
    requires from <= |path|
    ensures found.Some? ==>
              && from <= found.value <= |path| && Occurs(path, segment, found.value)
              && forall p :: from <= p < found.value ==> !Occurs(path, segment, p)
    ensures found.None? ==> forall p :: from <= p <= |path| ==> !Occurs(path, segment, p)
  {
    var p := from;
    while p <= |path|
      invariant from <= p <= |path| + 1
      invariant forall q :: from <= q < p ==> !Occurs(path, segment, q)
    {
      if Occurs(path, segment, p) {
        return Some(p);
      }
      p := p + 1;
    }
    found := None;
  }

  method RobotsWildcardMatches(pattern: string, path: string, anchored: bool) returns (matches: bool)
    ensures matches <==> Decided(pattern, path, anchored)
  {
    var segments := Split(pattern);
    StarsAtTheEnds(pattern);
    var segmentIndex: nat, cursor: nat := 0, 0;
    FirstPlaced(pattern, path);
    if pattern == [] || pattern[0] != '*' {
      if !Occurs(path, segments[0], 0) {
        NothingCovered(pattern, path, anchored);
        return false;
      }
      cursor := |segments[0]|;
      segmentIndex := 1;
    }
    while segmentIndex < |segments|
      invariant segmentIndex <= |segments| && cursor <= |path|
      invariant segmentIndex == 0 ==> segments[0] == [] && |segments| > 1 && cursor == 0
      invariant segmentIndex > 0 ==> Placed(pattern, path, segments, segmentIndex, cursor)
    {
      var segment := segments[segmentIndex];
      if segment != [] {
        var found := IndexOf(path, segment, cursor);
        if found.None? {
          NowhereToPlace(pattern, path, segments, segmentIndex, cursor);
          NothingCovered(pattern, path, anchored);
          return false;
        }
        PlaceLeftmost(pattern, path, segments, segmentIndex, cursor, found.value);
        cursor := found.value + |segment|;
      } else if segmentIndex > 0 {
        PlaceLeftmost(pattern, path, segments, segmentIndex, cursor, cursor);
      }
      segmentIndex := segmentIndex + 1;
    }
    assert path[..|path|] == path;
    matches := !anchored || EndsWithStar(pattern) || cursor == |path|;
    assert Covers(pattern, path, |path|) <==> Glob(pattern, path);
  }

  lemma NothingCovered(pattern: string, path: string, anchored: bool)
    requires forall n: nat :: !Covers(pattern, path, n)
    ensures !Decided(pattern, path, anchored)
  {
    assert path[..|path|] == path;
    assert !Covers(pattern, path, |path|);
  }

  /*** Which anchored patterns mean what the standard says ***/

  function Erased(pattern: string): string {
    if pattern == [] then []
    else if pattern[0] == '*' then Erased(pattern[1..])
    else [pattern[0]] + Erased(pattern[1..])
  }

  lemma ConsAppend(c: char, a: string, b: string)
    ensures [c] + (a + b) == ([c] + a) + b
  {
  }

  datatype AroundStar = AroundStar(head: string, tail: string)

  // The pattern cut at its last star.
  function LastStar(pattern: string): (cut: AroundStar)
    requires '*' in pattern
    ensures pattern == cut.head + ("*" + cut.tail) && '*' !in cut.tail
  {
    if '*' in pattern[1..] then
      var cut := LastStar(pattern[1..]);
      ConsAppend(pattern[0], cut.head, "*" + cut.tail);
      assert pattern == [pattern[0]] + pattern[1..];
      AroundStar([pattern[0]] + cut.head, cut.tail)
    else
      AroundStar([], pattern[1..])
  }

  // The star before the tail absorbs any text.
  lemma {:induction false} StarAbsorbs(head: string, tail: string, middle: string)
    requires '*' !in tail
    ensures Glob(head + ("*" + tail), Erased(head) + (middle + tail))
    decreases |head|
  {
    hide Glob;
    if head == [] {
      assert head + ("*" + tail) == "*" + tail && Erased(head) + (middle + tail) == middle + tail;
      AnyThenLiteral(tail, middle);
    } else {
      StarAbsorbs(head[1..], tail, middle);
      FirstCharacter(head[0], head[1..] + ("*" + tail), Erased(head[1..]) + (middle + tail));
      assert head + ("*" + tail) == [head[0]] + (head[1..] + ("*" + tail));
      if head[0] != '*' {
        assert Erased(head) + (middle + tail) == [head[0]] + (Erased(head[1..]) + (middle + tail));
      }
    }
  }

  // One more character in front of a match: a star that stands for nothing, or the character itself.
  lemma FirstCharacter(c: char, pattern: string, text: string)
    requires Glob(pattern, text)
    ensures Glob([c] + pattern, if c == '*' then text else [c] + text)
  {
    assert ([c] + pattern)[1..] == pattern && text[0..] == text && ([c] + text)[1..] == text;
    if c == '*' {
      assert 0 <= 0 <= |text| && Glob(([c] + pattern)[1..], text[0..]);
    }
  }

  lemma AnyThenLiteral(tail: string, middle: string)
    requires '*' !in tail
    ensures Glob("*" + tail, middle + tail)
  {
    var pattern, text := "*" + tail, middle + tail;
    assert pattern[1..] == tail && text[|middle|..] == tail;
    GlobLiteral(tail, [], tail);
    assert tail + [] == tail;
    assert 0 <= |middle| <= |text| && Glob(pattern[1..], text[|middle|..]);
  }

  // The characters of a serialised path and query.
  predicate IsUrlCharacter(c: char) {
    '!' <= c <= '~' && c != '"' && c != '#' && c != '<' && c != '>'
  }

  predicate IsPath(path: string) {
    path != "" && path[0] == '/' && forall i :: 0 <= i < |path| ==> IsUrlCharacter(path[i])
  }

  // Some path starts like the pattern and can have its characters.
  predicate CanBeCovered(pattern: string) {
    pattern == "" || (pattern[0] in {'/', '*'} && forall i :: 0 <= i < |pattern| ==> IsUrlCharacter(pattern[i]))
  }

  // A pattern that starts with '*' takes up more text in front.
  lemma StarTakesMore(pattern: string, text: string, front: string)
    requires pattern != "" && pattern[0] == '*' && Glob(pattern, text)
    ensures Glob(pattern, front + text)
  {
    var k :| 0 <= k <= |text| && Glob(pattern[1..], text[k..]);
    assert (front + text)[|front| + k..] == text[k..];
    assert 0 <= |front| + k <= |front + text| && Glob(pattern[1..], (front + text)[|front| + k..]);
  }

  // The text that repeats the pattern's last literal, with the '/' of a path in front if it needs one.
  function RepeatedTail(pattern: string): string
    requires '*' in pattern
  {
    var cut := LastStar(pattern);
    (if pattern[0] == '*' then "/" else "") + (Erased(cut.head) + (cut.tail + cut.tail))
  }

  lemma {:induction false} ErasedCharacters(head: string, c: char)
    requires c in Erased(head)
    ensures c in head
  {
    if head != [] && c in Erased(head[1..]) {
      ErasedCharacters(head[1..], c);
    }
  }

  // It has no characters but those of the pattern and '/'.
  lemma RepeatedTailCharacters(pattern: string, c: char)
    requires '*' in pattern && c in RepeatedTail(pattern)
    ensures c in pattern || c == '/'
  {
    hide Erased;
    var cut := LastStar(pattern);
    assert pattern == cut.head + ("*" + cut.tail);
    if c in Erased(cut.head) {
      ErasedCharacters(cut.head, c);
    }
  }

  lemma {:induction false} ErasedStart(head: string)
    requires head != "" && head[0] != '*'
    ensures Erased(head) != "" && Erased(head)[0] == head[0]
  {
  }

  lemma CutEnds(pattern: string, head: string, tail: string)
    requires pattern == head + ("*" + tail)
    ensures EndsWithStar(pattern) <==> tail == [] || tail[|tail| - 1] == '*'
    ensures if head == [] then pattern[0] == '*' else pattern[0] == head[0]
  {
  }

  // A path on which the search and the standard disagree: the last literal occurs once too often.
  lemma RepeatedTailIsMissed(pattern: string)
    requires '*' in pattern && !EndsWithStar(pattern) && CanBeCovered(pattern)
    ensures var path := RepeatedTail(pattern);
            IsPath(path) && Glob(pattern, path) && !Decided(pattern, path, true)
  {
    var cut := LastStar(pattern);
    CutEnds(pattern, cut.head, cut.tail);
    CutIsMissed(pattern, cut.head, cut.tail);
    var path := RepeatedTail(pattern);
    forall i | 0 <= i < |path|
      ensures IsUrlCharacter(path[i])
    {
      RepeatedTailCharacters(pattern, path[i]);
    }
  }

  lemma CutIsMissed(pattern: string, head: string, tail: string)
    requires pattern == head + ("*" + tail) && '*' !in tail && tail != [] && pattern[0] in {'/', '*'}
    requires if head == [] then pattern[0] == '*' else pattern[0] == head[0]
    ensures var path := (if pattern[0] == '*' then "/" else "") + (Erased(head) + (tail + tail));
            path != "" && path[0] == '/' && Glob(pattern, path) && !Decided(pattern, path, true)
  {
    hide Glob, Decided, Erased, EndsWithStar;
    TailTwice(head, tail);
    if pattern[0] == '*' {
      TailTwiceAfter(pattern, head, tail);
    } else {
      ErasedStart(head);
      assert "" + (Erased(head) + (tail + tail)) == Erased(head) + (tail + tail);
    }
  }

  lemma TailTwice(head: string, tail: string)
    requires '*' !in tail && tail != []
    ensures var pattern, path := head + ("*" + tail), Erased(head) + (tail + tail);
            && Glob(pattern, path) && !Decided(pattern, path, true)
            && !EndsWithStar(pattern) && Covers(pattern, path, |path| - |tail|)
  {
    hide Glob, Erased;
    var pattern, path := head + ("*" + tail), Erased(head) + (tail + tail);
    StarAbsorbs(head, tail, tail);
    StarAbsorbs(head, tail, []);
    var n := |path| - |tail|;
    assert Erased(head) + ([] + tail) == path[..n];
    assert Covers(pattern, path, n);
    assert pattern[|pattern| - 1] == tail[|tail| - 1];
  }

  lemma TailTwiceAfter(pattern: string, head: string, tail: string)
    requires pattern == head + ("*" + tail) && pattern[0] == '*' && tail != [] && !EndsWithStar(pattern)
    requires var text := Erased(head) + (tail + tail); Glob(pattern, text) && Covers(pattern, text, |text| - |tail|)
    ensures var path := "/" + (Erased(head) + (tail + tail));
            Glob(pattern, path) && !Decided(pattern, path, true)
  {
    hide Glob, Erased, EndsWithStar;
    var text := Erased(head) + (tail + tail);
    var path := "/" + text;
    var n := |text| - |tail|;
    StarTakesMore(pattern, text, "/");
    StarTakesMore(pattern, text[..n], "/");
    assert path[..n + 1] == "/" + text[..n];
    assert Covers(pattern, path, n + 1);
  }

  lemma LiteralCoversItsLength(pattern: string, path: string, n: nat)
    requires '*' !in pattern && Covers(pattern, path, n)
    ensures n == |pattern|
  {
    GlobLiteral(pattern, [], path[..n]);
    assert pattern + [] == pattern;
  }

  // A pattern that starts with another character covers nothing of a path.
  lemma OtherStartCoversNothing(pattern: string, path: string, n: nat)
    requires pattern != "" && pattern[0] != '*' && path != "" && pattern[0] != path[0]
    ensures !Covers(pattern, path, n)
  {
  }

  // Whether the search means by the anchored pattern what the standard does, read off the pattern.
  predicate MeantAsWritten(pattern: string) {
    '*' !in pattern || EndsWithStar(pattern) || !CanBeCovered(pattern)
  }

  lemma WholeIsCovered(pattern: string, path: string)
    ensures Covers(pattern, path, |path|) <==> Glob(pattern, path)
  {
    assert path[..|path|] == path;
  }

  lemma LiteralsDecidedRight(pattern: string, path: string)
    requires '*' !in pattern
    ensures Decided(pattern, path, true) <==> Glob(pattern, path)
  {
    hide Glob;
    WholeIsCovered(pattern, path);
    if Glob(pattern, path) {
      LiteralCoversItsLength(pattern, path, |path|);
      forall n: nat | n < |path|
        ensures !Covers(pattern, path, n)
      {
        if Covers(pattern, path, n) {
          LiteralCoversItsLength(pattern, path, n);
        }
      }
    }
  }

  // Every literal of the pattern is in a text it matches.
  lemma {:induction false} LiteralsOccur(pattern: string, text: string, c: char)
    requires Glob(pattern, text) && c in pattern && c != '*'
    ensures c in text
    decreases |pattern|
  {
    if pattern[0] == '*' {
      var k :| 0 <= k <= |text| && Glob(pattern[1..], text[k..]);
      LiteralsOccur(pattern[1..], text[k..], c);
    } else if c != pattern[0] {
      LiteralsOccur(pattern[1..], text[1..], c);
    }
  }

  lemma OthersCoverNothing(pattern: string, path: string, n: nat)
    requires !CanBeCovered(pattern) && IsPath(path)
    ensures !Covers(pattern, path, n)
  {
    hide Glob;
    if Covers(pattern, path, n) {
      if pattern[0] !in {'/', '*'} {
        OtherStartCoversNothing(pattern, path, n);
      } else {
        var i :| 0 <= i < |pattern| && !IsUrlCharacter(pattern[i]);
        LiteralsOccur(pattern, path[..n], pattern[i]);
      }
    }
  }

  lemma OthersDecidedRight(pattern: string, path: string)
    requires !CanBeCovered(pattern) && IsPath(path)
    ensures !Decided(pattern, path, true) && !Glob(pattern, path)
  {
    hide Glob, CanBeCovered, IsPath;
    WholeIsCovered(pattern, path);
    OthersCoverNothing(pattern, path, |path|);
  }

  // An anchored pattern is decided as the standard says on every path if and only if it has no '*',
  // ends in one, or can cover no path at all.
  lemma AnchoredPatternsDecidedRight(pattern: string)
    ensures (forall path | IsPath(path) :: Decided(pattern, path, true) <==> Glob(pattern, path)) <==> MeantAsWritten(pattern)
  {
    hide Glob, Decided;
    if MeantAsWritten(pattern) {
      forall path | IsPath(path)
        ensures Decided(pattern, path, true) <==> Glob(pattern, path)
      {
        if '*' !in pattern {
          LiteralsDecidedRight(pattern, path);
        } else if EndsWithStar(pattern) {
          StarredDecidedRight(pattern, path);
        } else {
          OthersDecidedRight(pattern, path);
        }
      }
    } else {
      RepeatedTailIsMissed(pattern);
    }
  }

  lemma StarredDecidedRight(pattern: string, path: string)
    requires EndsWithStar(pattern)
    ensures Decided(pattern, path, true) <==> Glob(pattern, path)
  {
  }
}
