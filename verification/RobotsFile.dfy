// From the text of robots.txt to the decision about a path.
module RobotsFile {
  import opened Prelude
  import opened Texts
  import opened RobotsRules
  import opened RobotsGroups

  function UpTo(text: string, mark: char): (prefix: string)
    ensures mark !in prefix && |prefix| <= |text| && prefix == text[..|prefix|]
    ensures mark in text <==> |prefix| < |text|
    ensures |prefix| < |text| ==> text[|prefix|] == mark
  {
    if text == "" || text[0] == mark then "" else [text[0]] + UpTo(text[1..], mark)
  }

  function ParseDirective(rawLine: string): Option<Directive> {
    var line := Trim(UpTo(rawLine, '#'));
    if line == "" || ':' !in line then None
    else
      var field := UpTo(line, ':');
      Some(Directive(Lower(Trim(field)), Trim(line[|field| + 1..])))
  }

  // Lines end at '\n'; '\r' is dropped wherever it is.
  function Without(text: string, c: char): string {
    if text == "" then "" else if text[0] == c then Without(text[1..], c) else [text[0]] + Without(text[1..], c)
  }

  function SplitLines(text: string): (lines: seq<string>)
    ensures lines != [] && forall i :: 0 <= i < |lines| ==> '\n' !in lines[i]
    decreases |text|
  {
    var line := UpTo(text, '\n');
    if |line| == |text| then [line] else [line] + SplitLines(text[|line| + 1..])
  }

  function DirectivesOf(lines: seq<string>): seq<Directive> {
    if lines == [] then []
    else
      var before, d := DirectivesOf(lines[..|lines| - 1]), ParseDirective(lines[|lines| - 1]);
      if d.Some? then before + [d.value] else before
  }

  function Directives(content: string): seq<Directive> {
    DirectivesOf(SplitLines(Without(content, '\r')))
  }

  function ProductToken(userAgent: string): string {
    Trim(UpTo(Lower(userAgent), '/'))
  }

  // The answer is the meaning of the file's directives for the crawler's product token.
  method IsAllowedByRobots(content: string, path: string, userAgent: string) returns (allowed: bool)
    ensures allowed <==> FilePermits(Directives(content), ProductToken(userAgent), path)
  {
    var ds := [];
    var lines := SplitLines(Without(content, '\r'));
    for i := 0 to |lines|
      invariant ds == DirectivesOf(lines[..i])
    {
      assert lines[..i + 1][..i] == lines[..i];
      var directive := ParseDirective(lines[i]);
      if directive.Some? {
        ds := ds + [directive.value];
      }
    }
    assert lines[..|lines|] == lines;
    var groups := ParseRobotsGroups(ds);
    allowed := DecideByGroups(groups, path, ProductToken(userAgent));
  }

  /*** What a written line reads as ***/

  lemma {:induction false} UpToMark(prefix: string, mark: char, rest: string)
    requires mark !in prefix && (rest == "" || rest[0] == mark)
    ensures UpTo(prefix + rest, mark) == prefix
    decreases |prefix|
  {
    if prefix == "" {
      assert prefix + rest == rest;
    } else {
      assert (prefix + rest)[1..] == prefix[1..] + rest;
      UpToMark(prefix[1..], mark, rest);
    }
  }

  lemma CutAtMark(prefix: string, mark: char, rest: string)
    requires mark !in prefix
    ensures var text := prefix + ([mark] + rest);
            UpTo(text, mark) == prefix && |prefix| < |text| && mark in text && text[|prefix| + 1..] == rest
  {
    UpToMark(prefix, mark, [mark] + rest);
    var text := prefix + ([mark] + rest);
    assert text[|prefix|] == mark;
  }

  // A trimmed line that has a field, a colon and perhaps a value.
  lemma TrimmedLineReads(line: string, field: string, gap: string, rest: string, value: string, rawLine: string)
    requires line == field + gap + (":" + rest) && Trim(UpTo(rawLine, '#')) == line
    requires Trimmed(field) && field != "" && ':' !in field && Spaces(gap) && Trim(rest) == value
    ensures ParseDirective(rawLine) == Some(Directive(Lower(field), value))
  {
    hide Trim, UpTo;
    CutAtMark(field + gap, ':', rest);
    TrimRemovesMargins("", field, gap);
    assert "" + field + gap == field + gap;
  }

  // White space around the parts, the case of the field name and a comment make no difference.
  lemma LineReads(left: string, field: string, gap: string, space: string, value: string, right: string, comment: string)
    requires Spaces(left) && Spaces(gap) && Spaces(space) && Spaces(right)
    requires Trimmed(field) && field != "" && ':' !in field && '#' !in field && Trimmed(value) && '#' !in value
    requires comment == "" || comment[0] == '#'
    ensures ParseDirective(left + (field + gap + (":" + space + value)) + right + comment) == Some(Directive(Lower(field), value))
  {
    var core := field + gap + (":" + space + value);
    var rawLine := left + core + right + comment;
    UpToMark(left + core + right, '#', comment);
    if value == "" {
      var line := field + gap + (":" + "");
      assert left + core + right == left + line + (space + right);
      TrimRemovesMargins(left, line, space + right);
      TrimmedLineReads(line, field, gap, "", value, rawLine);
    } else {
      TrimRemovesMargins(left, core, right);
      TrimRemovesMargins(space, value, "");
      assert space + value + "" == space + value;
      assert core == field + gap + (":" + (space + value));
      TrimmedLineReads(core, field, gap, space + value, value, rawLine);
    }
  }

  function JoinLines(lines: seq<string>): string
    requires lines != []
  {
    if |lines| == 1 then lines[0] else lines[0] + ("\n" + JoinLines(lines[1..]))
  }

  // Splitting undoes joining.
  lemma {:induction false} LinesReadBack(lines: seq<string>)
    requires lines != [] && forall i :: 0 <= i < |lines| ==> '\n' !in lines[i]
    ensures SplitLines(JoinLines(lines)) == lines
    decreases |lines|
  {
    if |lines| == 1 {
      UpToMark(lines[0], '\n', "");
      assert lines[0] + "" == lines[0];
    } else {
      hide SplitLines;
      FirstLine(lines[0], JoinLines(lines[1..]));
      LinesReadBack(lines[1..]);
      assert lines == [lines[0]] + lines[1..];
    }
  }

  lemma FirstLine(line: string, rest: string)
    requires '\n' !in line
    ensures SplitLines(line + ("\n" + rest)) == [line] + SplitLines(rest)
  {
    hide UpTo;
    CutAtMark(line, '\n', rest);
  }

  // The product token is the name in front of the version, in lower case.
  lemma TokenInFrontOfVersion(name: string, version: string)
    requires '/' !in name && Trimmed(Lower(name))
    ensures ProductToken(name) == ProductToken(name + "/" + version) == Lower(name)
  {
    TokenUpToSlash(name, name);
    TokenUpToSlash(name, name + "/" + version);
    TrimRemovesMargins("", Lower(name), "");
    assert "" + Lower(name) + "" == Lower(name);
  }

  lemma TokenUpToSlash(name: string, userAgent: string)
    requires '/' !in name && name <= userAgent && (|userAgent| > |name| ==> userAgent[|name|] == '/')
    ensures UpTo(Lower(userAgent), '/') == Lower(name)
  {
    var lower, prefix := Lower(userAgent), UpTo(Lower(userAgent), '/');
    forall i | 0 <= i < |name|
      ensures lower[i] != '/' && lower[i] == Lower(name)[i]
    {
      assert lower[i] == LowerChar(name[i]);
    }
    if |userAgent| > |name| {
      assert lower[|name|] == '/';
    }
    assert |prefix| == |name|;
  }
}
