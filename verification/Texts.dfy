// Text operations of the JavaScript standard library that the parsers use.
module Texts {

  // ASCII letters only; other characters are their own lower case here.
  function LowerChar(c: char): char {
    if 'A' <= c <= 'Z' then (c as int + 32) as char else c
  }

  function Lower(text: string): (lower: string)
    ensures |lower| == |text|
  {
    seq(|text|, i requires 0 <= i < |text| => LowerChar(text[i]))
  }

  // White space and line terminators, as trim() removes them.
  predicate IsSpace(c: char) {
    || '\t' <= c <= '\r' || c == ' ' || c == '\U{00A0}' || c == '\U{1680}' || '\U{2000}' <= c <= '\U{200A}'
    || c == '\U{2028}' || c == '\U{2029}' || c == '\U{202F}' || c == '\U{205F}' || c == '\U{3000}' || c == '\U{FEFF}'
  }

  predicate Trimmed(text: string) {
    text == "" || (!IsSpace(text[0]) && !IsSpace(text[|text| - 1]))
  }

  function TrimStart(text: string): string {
    if text != "" && IsSpace(text[0]) then TrimStart(text[1..]) else text
  }

  function TrimEnd(text: string): string {
    if text != "" && IsSpace(text[|text| - 1]) then TrimEnd(text[..|text| - 1]) else text
  }

  function Trim(text: string): string {
    TrimEnd(TrimStart(text))
  }

  predicate Spaces(text: string) {
    forall i :: 0 <= i < |text| ==> IsSpace(text[i])
  }

  // Trimming removes exactly the surrounding white space.
  lemma {:induction false} TrimRemovesMargins(left: string, text: string, right: string)
    requires Spaces(left) && Spaces(right) && Trimmed(text)
    ensures Trim(left + text + right) == text
    decreases |left| + |right|
  {
    if left != "" {
      assert (left + text + right)[1..] == left[1..] + text + right;
      TrimRemovesMargins(left[1..], text, right);
    } else if right != "" {
      var whole := left + text + right;
      if text == "" {
        assert whole == right && right[1..] == "" + "" + right[1..];
        TrimRemovesMargins("", text, right[1..]);
      } else {
        assert TrimStart(whole) == whole;
        var shorter := "" + text + right[..|right| - 1];
        assert whole[..|whole| - 1] == shorter;
        TrimRemovesMargins("", text, right[..|right| - 1]);
        assert TrimStart(shorter) == shorter;
      }
    } else {
      assert left + text + right == text;
    }
  }
}
