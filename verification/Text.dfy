/** The few string operations of JavaScript that the models need. */
module Text {
  /** White space as `trim` and `\s` see it. */
  predicate IsSpace(c: char) {
    var code := c as int;
    || 0x09 <= code <= 0x0d
    || code == 0x20
    || code == 0xa0
    || code == 0x1680
    || 0x2000 <= code <= 0x200a
    || 0x2028 <= code <= 0x2029
    || code == 0x202f
    || code == 0x205f
    || code == 0x3000
    || code == 0xfeff
  }

  /** `!text.trim()`. */
  predicate Blank(text: string) {
    forall i :: 0 <= i < |text| ==> IsSpace(text[i])
  }

  function TrimStart(text: string): string {
    if text == "" || !IsSpace(text[0]) then text else TrimStart(text[1..])
  }

  function TrimEnd(text: string): string {
    if text == "" || !IsSpace(text[|text| - 1]) then text else TrimEnd(text[..|text| - 1])
  }

  /** `text.trim()`. */
  function Trim(text: string): string {
    TrimEnd(TrimStart(text))
  }

  /** No white space at either end. */
  predicate Trimmed(text: string) {
    text != "" ==> !IsSpace(text[0]) && !IsSpace(text[|text| - 1])
  }

  lemma {:induction false} TrimStartIs(text: string)
    ensures |TrimStart(text)| <= |text| && TrimStart(text) == text[|text| - |TrimStart(text)|..]
    ensures TrimStart(text) != "" ==> !IsSpace(TrimStart(text)[0])
    ensures TrimStart(text) == "" <==> Blank(text)
    decreases |text|
  {
    if text != "" && IsSpace(text[0]) {
      TrimStartIs(text[1..]);
      assert forall i :: 1 <= i < |text| ==> text[i] == text[1..][i - 1];
    }
  }

  lemma {:induction false} TrimEndIs(text: string)
    ensures |TrimEnd(text)| <= |text| && TrimEnd(text) == text[..|TrimEnd(text)|]
    ensures TrimEnd(text) != "" ==> !IsSpace(TrimEnd(text)[|TrimEnd(text)| - 1])
    ensures TrimEnd(text) == "" <==> Blank(text)
    decreases |text|
  {
    if text != "" && IsSpace(text[|text| - 1]) {
      TrimEndIs(text[..|text| - 1]);
    }
  }

  /** What `trim` leaves is trimmed, is never longer, and is the text itself exactly when that was
      trimmed already. */
  lemma TrimIs(text: string)
    ensures Trimmed(Trim(text)) && |Trim(text)| <= |text|
    ensures Trim(text) == text <==> Trimmed(text)
    ensures |Trim(text)| == |text| ==> Trim(text) == text
    ensures Trim(text) == "" <==> Blank(text)
  {
    var start := TrimStart(text);
    TrimStartIs(text);
    TrimEndIs(start);
    NotBlank(start);
    TrimmedEnds(start, Trim(text));
    SuffixIsWhole(text, start);
    PrefixIsWhole(start, Trim(text));
  }

  lemma NotBlank(text: string)
    requires text != "" ==> !IsSpace(text[0])
    ensures Blank(text) <==> text == ""
  {
  }

  lemma TrimmedEnds(start: string, part: string)
    requires |part| <= |start| && part == start[..|part|]
    requires (start != "" ==> !IsSpace(start[0])) && (part != "" ==> !IsSpace(part[|part| - 1]))
    ensures Trimmed(part)
  {
    assert part != "" ==> part[0] == start[0];
  }

  lemma SuffixIsWhole(text: string, part: string)
    requires |part| <= |text| && part == text[|text| - |part|..]
    ensures |part| == |text| ==> part == text
  {
  }

  lemma PrefixIsWhole(text: string, part: string)
    requires |part| <= |text| && part == text[..|part|]
    ensures |part| == |text| ==> part == text
  {
  }

  /** `trim` takes white space away at both ends and nothing else. */
  lemma TrimTakesSpace(text: string) returns (left: string, right: string)
    ensures text == left + Trim(text) + right && Blank(left) && Blank(right)
  {
    var start;
    left, start := TrimStartTakesSpace(text);
    right := TrimEndTakesSpace(start);
  }

  lemma {:induction false} TrimStartTakesSpace(text: string) returns (left: string, start: string)
    ensures start == TrimStart(text) && text == left + start && Blank(left)
    decreases |text|
  {
    if text == "" || !IsSpace(text[0]) {
      left, start := "", text;
    } else {
      var rest;
      rest, start := TrimStartTakesSpace(text[1..]);
      left := [text[0]] + rest;
      OneSpaceBefore(text[0], rest, start, text);
    }
  }

  lemma {:induction false} TrimEndTakesSpace(text: string) returns (right: string)
    ensures text == TrimEnd(text) + right && Blank(right)
    decreases |text|
  {
    if text == "" || !IsSpace(text[|text| - 1]) {
      right := "";
    } else {
      var rest := TrimEndTakesSpace(text[..|text| - 1]);
      right := rest + [text[|text| - 1]];
      OneMoreSpace(TrimEnd(text), rest, text[|text| - 1], text);
    }
  }

  lemma OneMoreSpace(part: string, rest: string, last: char, text: string)
    requires text != "" && text[..|text| - 1] == part + rest && text[|text| - 1] == last
    requires Blank(rest) && IsSpace(last)
    ensures text == part + (rest + [last]) && Blank(rest + [last])
  {
    assert text == text[..|text| - 1] + [last];
  }

  lemma OneSpaceBefore(first: char, rest: string, part: string, text: string)
    requires text != "" && text[0] == first && text[1..] == rest + part
    requires IsSpace(first) && Blank(rest)
    ensures text == [first] + rest + part && Blank([first] + rest)
  {
    assert text == [first] + text[1..];
  }
}
