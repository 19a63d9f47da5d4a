/** Scanning source text with quotes and brackets (`beginQuotedSection`, `consumeQuotedChar`,
    `findMatchingParen`, `splitTopLevelArguments` in scripts/check-temp-path-guardrails.ts). */
module ArgumentScanner {
  import opened Text
  import opened Wrappers

  // ----- quotes

  datatype Quotes = Quotes(quote: Option<char>, escaped: bool)

  const UNQUOTED := Quotes(None, false)

  predicate IsQuote(ch: char) {
    ch == '\'' || ch == '"' || ch == '`'
  }

  /** The quote state after one more character. */
  function QuoteStep(q: Quotes, ch: char): Quotes {
    if q.quote.None? then (if IsQuote(ch) then Quotes(Some(ch), q.escaped) else q)
    else if q.escaped then Quotes(q.quote, false)
    else if ch == '\\' then Quotes(q.quote, true)
    else if ch == q.quote.value then Quotes(None, false)
    else q
  }

  class QuoteScanState {
    var quote: Option<char>
    var escaped: bool

    function Snapshot(): Quotes
      reads this
    {
      Quotes(quote, escaped)
    }

    constructor ()
      ensures Snapshot() == UNQUOTED
    {
      quote, escaped := None, false;
    }

    /** True, and inside a quoted section from now on, if an unquoted character opens one. */
    method BeginQuotedSection(ch: char) returns (began: bool)
      requires quote.None?
      modifies this
      ensures began <==> IsQuote(ch)
      ensures Snapshot() == QuoteStep(old(Snapshot()), ch)
    {
      if ch != '\'' && ch != '"' && ch != '`' {
        return false;
      }
      quote := Some(ch);
      return true;
    }

    /** True if the character belongs to the quoted section, its closing quote included. */
    method ConsumeQuotedChar(ch: char) returns (consumed: bool)
      modifies this
      ensures consumed <==> old(quote).Some?
      ensures Snapshot() == if consumed then QuoteStep(old(Snapshot()), ch) else old(Snapshot())
    {
      if quote.None? {
        return false;
      }
      if escaped {
        escaped := false;
        return true;
      }
      if ch == '\\' {
        escaped := true;
        return true;
      }
      if ch == quote.value {
        quote := None;
      }
      return true;
    }
  }

  // ----- the matching parenthesis

  /** The quote state before position `i` of a scan that begins at `from`. */
  function QuotesAt(source: string, from: nat, i: nat): Quotes
    requires from <= i <= |source|
    decreases i
  {
    if i == from then UNQUOTED else QuoteStep(QuotesAt(source, from, i - 1), source[i - 1])
  }

  /** An occurrence of a character outside quotes. */
  predicate Plain(source: string, from: nat, i: nat, ch: char)
    requires from <= i < |source|
  {
    source[i] == ch && QuotesAt(source, from, i).quote.None?
  }

  /** One more than the unquoted opening parentheses minus the unquoted closing ones before `i`. */
  function Depth(source: string, from: nat, i: nat): int
    requires from <= i <= |source|
    decreases i
  {
    if i == from then 1
    else Depth(source, from, i - 1) +
         (if Plain(source, from, i - 1, '(') then 1 else 0) - (if Plain(source, from, i - 1, ')') then 1 else 0)
  }

  /** The least position at which the unquoted depth reaches zero, or -1 if it never does. */
  method FindMatchingParen(source: string, openIndex: nat) returns (index: int)
    ensures index == -1 || openIndex < index < |source|
    ensures index != -1 ==> Plain(source, openIndex + 1, index, ')') && Depth(source, openIndex + 1, index + 1) == 0
    ensures var from, scanned := openIndex + 1, if index == -1 then |source| else index;
            forall end :: from <= end <= scanned ==> Depth(source, from, end) > 0
  {
    var from := openIndex + 1;
    var depth := 1;
    var quoteState := new QuoteScanState();
    var i := from;
    while i < |source|
      invariant from <= i && (i <= |source| || i == from)
      invariant i <= |source| ==>
                  quoteState.Snapshot() == QuotesAt(source, from, i) && depth == Depth(source, from, i) > 0
      invariant forall end :: from <= end <= i && end <= |source| ==> Depth(source, from, end) > 0
    {
      var ch := source[i];
      var consumed := quoteState.ConsumeQuotedChar(ch);
      if !consumed {
        var began := quoteState.BeginQuotedSection(ch);
        if !began {
          if ch == '(' {
            depth := depth + 1;
          } else if ch == ')' {
            depth := depth - 1;
            if depth == 0 {
              return i;
            }
          }
        }
      }
      i := i + 1;
    }
    return -1;
  }

  // ----- quoted sections by position

  /** The run of backslashes that ends before position `i`, no further back than `lo`. */
  function Backslashes(source: string, lo: nat, i: nat): nat
    requires lo <= i <= |source|
    decreases i
  {
    if i == lo || source[i - 1] != '\\' then 0 else 1 + Backslashes(source, lo, i - 1)
  }

  /** A quote character whose section is not closed before position `i`: the same character occurs
      in between only behind an odd number of backslashes. */
  predicate OpenTill(source: string, a: nat, i: nat)
    requires a < i <= |source|
  {
    && (source[a] == '\'' || source[a] == '"' || source[a] == '`')
    && forall j :: a < j < i && source[j] == source[a] ==> Backslashes(source, a + 1, j) % 2 == 1
  }

  lemma {:induction false} EscapedInsideOnly(source: string, from: nat, i: nat)
    requires from <= i <= |source|
    ensures QuotesAt(source, from, i).quote.None? ==> QuotesAt(source, from, i) == UNQUOTED
    decreases i
  {
    if i > from {
      EscapedInsideOnly(source, from, i - 1);
    }
  }

  lemma {:induction false} InsideSection(source: string, from: nat, a: nat, i: nat)
    requires from <= a < i <= |source| && QuotesAt(source, from, a).quote.None? && OpenTill(source, a, i)
    ensures QuotesAt(source, from, i) == Quotes(Some(source[a]), Backslashes(source, a + 1, i) % 2 == 1)
    decreases i
  {
    if i == a + 1 {
      EscapedInsideOnly(source, from, a);
    } else {
      InsideSection(source, from, a, i - 1);
      InsideStep(source, from, a, i - 1);
    }
  }

  lemma {:induction false} InsideStep(source: string, from: nat, a: nat, i: nat)
    requires from <= a < i < |source| && IsQuote(source[a])
    requires QuotesAt(source, from, i) == Quotes(Some(source[a]), Backslashes(source, a + 1, i) % 2 == 1)
    requires source[i] == source[a] ==> Backslashes(source, a + 1, i) % 2 == 1
    ensures QuotesAt(source, from, i + 1) == Quotes(Some(source[a]), Backslashes(source, a + 1, i + 1) % 2 == 1)
  {
    assert Backslashes(source, a + 1, i + 1) == if source[i] == '\\' then 1 + Backslashes(source, a + 1, i) else 0;
  }

  lemma {:induction false} SectionOpens(source: string, from: nat, i: nat) returns (a: nat)
    requires from <= i <= |source| && QuotesAt(source, from, i).quote.Some?
    ensures from <= a < i && QuotesAt(source, from, a).quote.None? && OpenTill(source, a, i)
    decreases i
  {
    if QuotesAt(source, from, i - 1).quote.None? {
      a := i - 1;
    } else {
      a := SectionOpens(source, from, i - 1);
      InsideSection(source, from, a, i - 1);
    }
  }

  /** A position is quoted exactly when one of the three quote characters, itself unquoted, stands
      before it and has not been closed in between. */
  lemma QuotedExactly(source: string, from: nat, i: nat)
    requires from <= i <= |source|
    ensures QuotesAt(source, from, i).quote.Some? <==>
            exists a :: from <= a < i && OpenTill(source, a, i) && QuotesAt(source, from, a).quote.None?
  {
    if QuotesAt(source, from, i).quote.Some? {
      var a := SectionOpens(source, from, i);
    }
    if a :| from <= a < i && OpenTill(source, a, i) && QuotesAt(source, from, a).quote.None? {
      InsideSection(source, from, a, i);
    }
  }

  /** The unquoted occurrences of a character before position `i`. */
  function Occurrences(source: string, from: nat, i: nat, ch: char): set<int>
    requires from <= i <= |source|
  {
    set j | from <= j < i && source[j] == ch && QuotesAt(source, from, j).quote.None?
  }

  lemma {:induction false} DepthCounts(source: string, from: nat, i: nat)
    requires from <= i <= |source|
    ensures Depth(source, from, i) ==
            1 + |Occurrences(source, from, i, '(')| - |Occurrences(source, from, i, ')')|
    decreases i
  {
    if i > from {
      DepthCounts(source, from, i - 1);
      var more := OneMore(source, from, i, '(');
      var fewer := OneMore(source, from, i, ')');
      assert Depth(source, from, i) == Depth(source, from, i - 1) + more - fewer;
    }
  }

  lemma {:induction false} OneMore(source: string, from: nat, i: nat, ch: char) returns (more: nat)
    requires from < i <= |source|
    ensures more == if Plain(source, from, i - 1, ch) then 1 else 0
    ensures |Occurrences(source, from, i, ch)| == |Occurrences(source, from, i - 1, ch)| + more
  {
    var before := Occurrences(source, from, i - 1, ch);
    more := if Plain(source, from, i - 1, ch) then 1 else 0;
    if more == 1 {
      assert Occurrences(source, from, i, ch) == before + {i - 1};
    } else {
      assert Occurrences(source, from, i, ch) == before;
    }
  }

  // ----- splitting arguments

  datatype Scan = Scan(quotes: Quotes, parens: nat, brackets: nat, braces: nat)

  const START := Scan(UNQUOTED, 0, 0, 0)

  function Less(n: nat): nat {
    if n > 0 then n - 1 else 0
  }

  function ScanStep(s: Scan, ch: char): Scan {
    if s.quotes.quote.Some? || IsQuote(ch) then s.(quotes := QuoteStep(s.quotes, ch))
    else
      match ch
      case '(' => s.(parens := s.parens + 1)
      case ')' => s.(parens := Less(s.parens))
      case '[' => s.(brackets := s.brackets + 1)
      case ']' => s.(brackets := Less(s.brackets))
      case '{' => s.(braces := s.braces + 1)
      case '}' => s.(braces := Less(s.braces))
      case _ => s
  }

  /** A comma that separates arguments. */
  predicate Cuts(s: Scan, ch: char) {
    ch == ',' && s.quotes.quote.None? && s.parens == s.brackets == s.braces == 0
  }

  /** What is pushed while scanning the rest of the source with `current` read so far. */
  function SplitFrom(source: string, s: Scan, current: string): seq<string> {
    if source == "" then (if Blank(current) then [] else [Trim(current)])
    else if Cuts(s, source[0]) then [Trim(current)] + SplitFrom(source[1..], s, "")
    else SplitFrom(source[1..], ScanStep(s, source[0]), current + [source[0]])
  }

  function Split(source: string): seq<string> {
    SplitFrom(source, START, "")
  }

  method SplitTopLevelArguments(source: string) returns (out: seq<string>)
    ensures out == Split(source)
  {
    out := [];
    var current, parenDepth, bracketDepth, braceDepth := "", 0, 0, 0;
    var quoteState := new QuoteScanState();
    assert source[0..] == source;
    for i := 0 to |source|
      invariant parenDepth >= 0 && bracketDepth >= 0 && braceDepth >= 0
      invariant out + SplitFrom(source[i..], Scan(quoteState.Snapshot(), parenDepth, bracketDepth, braceDepth),
                                current) == Split(source)
    {
      var ch := source[i];
      assert source[i..][0] == ch && source[i..][1..] == source[i + 1..];
      if quoteState.quote.Some? {
        current := current + [ch];
        var consumed := quoteState.ConsumeQuotedChar(ch);
        continue;
      }
      var began := quoteState.BeginQuotedSection(ch);
      if began {
        current := current + [ch];
        continue;
      }
      if ch == ',' && parenDepth == 0 && bracketDepth == 0 && braceDepth == 0 {
        out := out + [Trim(current)];
        current := "";
        continue;
      }
      match ch {
        case '(' => parenDepth := parenDepth + 1;
        case ')' => if parenDepth > 0 { parenDepth := parenDepth - 1; }
        case '[' => bracketDepth := bracketDepth + 1;
        case ']' => if bracketDepth > 0 { bracketDepth := bracketDepth - 1; }
        case '{' => braceDepth := braceDepth + 1;
        case '}' => if braceDepth > 0 { braceDepth := braceDepth - 1; }
        case _ =>
      }
      current := current + [ch];
    }
    if !Blank(current) {
      out := out + [Trim(current)];
    }
  }

  // ----- splitting undoes joining

  function Join(args: seq<string>): string {
    if args == [] then "" else if |args| == 1 then args[0] else args[0] + "," + Join(args[1..])
  }

  function ScanAll(s: Scan, text: string): Scan
    decreases |text|
  {
    if text == "" then s else ScanAll(ScanStep(s, text[0]), text[1..])
  }

  /** No character of the text is a separating comma. */
  predicate NoCut(s: Scan, text: string)
    decreases |text|
  {
    text == "" || (!Cuts(s, text[0]) && NoCut(ScanStep(s, text[0]), text[1..]))
  }

  /** The stretches between separating commas, untrimmed. */
  function Pieces(source: string, s: Scan, current: string): (pieces: seq<string>)
    ensures pieces != []
  {
    if source == "" then [current]
    else if Cuts(s, source[0]) then [current] + Pieces(source[1..], s, "")
    else Pieces(source[1..], ScanStep(s, source[0]), current + [source[0]])
  }

  function TrimAll(texts: seq<string>): (trimmed: seq<string>)
    ensures |trimmed| == |texts| && forall i :: 0 <= i < |texts| ==> trimmed[i] == Trim(texts[i])
  {
    seq(|texts|, i requires 0 <= i < |texts| => Trim(texts[i]))
  }

  /** The pieces as they are pushed: trimmed, and without a blank last one. */
  function Pushed(pieces: seq<string>): seq<string>
    requires pieces != []
  {
    if Blank(pieces[|pieces| - 1]) then TrimAll(pieces[..|pieces| - 1]) else TrimAll(pieces)
  }

  lemma PushedFirst(first: string, rest: seq<string>)
    requires rest != []
    ensures Pushed([first] + rest) == [Trim(first)] + Pushed(rest)
  {
    var all := [first] + rest;
    assert all[|all| - 1] == rest[|rest| - 1];
    if Blank(rest[|rest| - 1]) {
      assert all[..|all| - 1] == [first] + rest[..|rest| - 1];
      TrimAllFirst(first, rest[..|rest| - 1]);
    } else {
      TrimAllFirst(first, rest);
    }
  }

  lemma TrimAllFirst(first: string, rest: seq<string>)
    ensures TrimAll([first] + rest) == [Trim(first)] + TrimAll(rest)
  {
  }

  lemma {:induction false} SplitIsPieces(source: string, s: Scan, current: string)
    ensures SplitFrom(source, s, current) == Pushed(Pieces(source, s, current))
    decreases |source|
  {
    if source != "" {
      if Cuts(s, source[0]) {
        SplitIsPieces(source[1..], s, "");
        PushedFirst(current, Pieces(source[1..], s, ""));
      } else {
        SplitIsPieces(source[1..], ScanStep(s, source[0]), current + [source[0]]);
      }
    }
  }

  lemma {:induction false} PiecesAfter(text: string, rest: string, s: Scan, current: string)
    requires NoCut(s, text)
    ensures Pieces(text + rest, s, current) == Pieces(rest, ScanAll(s, text), current + text)
    decreases |text|
  {
    if text == "" {
      assert text + rest == rest && current + text == current;
    } else {
      assert (text + rest)[0] == text[0] && (text + rest)[1..] == text[1..] + rest;
      PiecesAfter(text[1..], rest, ScanStep(s, text[0]), current + [text[0]]);
      assert current + [text[0]] + text[1..] == current + text;
    }
  }

  /** The lists that survive joining and splitting: every argument is trimmed and has no separating
      comma of its own, every argument but the last closes its quotes and brackets, and the last
      one is not empty. */
  predicate RoundTrips(args: seq<string>) {
    && (forall i :: 0 <= i < |args| ==> Trimmed(args[i]))
    && Closed(args)
    && (args != [] ==> args[|args| - 1] != "")
  }

  lemma {:induction false} PiecesOfJoin(args: seq<string>)
    requires args != [] && Closed(args)
    ensures Pieces(Join(args), START, "") == args
    decreases |args|
  {
    var first := args[0];
    assert "" + first == first;
    if |args| == 1 {
      assert first + "" == first;
      PiecesAfter(first, "", START, "");
    } else {
      var rest := "," + Join(args[1..]);
      assert Join(args) == first + rest && rest[1..] == Join(args[1..]);
      PiecesAfter(first, rest, START, "");
      PiecesOfJoin(args[1..]);
      assert [first] + args[1..] == args;
    }
  }

  lemma {:induction false} JoinOfPieces(source: string, s: Scan, current: string)
    ensures Join(Pieces(source, s, current)) == current + source
    decreases |source|
  {
    if source == "" {
      assert current + source == current;
    } else if Cuts(s, source[0]) {
      var rest := Pieces(source[1..], s, "");
      JoinOfPieces(source[1..], s, "");
      assert "" + source[1..] == source[1..];
      assert ([current] + rest)[1..] == rest;
      assert current + "," + source[1..] == current + source;
    } else {
      JoinOfPieces(source[1..], ScanStep(s, source[0]), current + [source[0]]);
      assert current + [source[0]] + source[1..] == current + source;
    }
  }

  lemma {:induction false} ScanAllAppend(s: Scan, text: string, ch: char)
    ensures ScanAll(s, text + [ch]) == ScanStep(ScanAll(s, text), ch)
    ensures NoCut(s, text + [ch]) <==> NoCut(s, text) && !Cuts(ScanAll(s, text), ch)
    decreases |text|
  {
    if text == "" {
      assert text + [ch] == [ch] && [ch][1..] == "";
    } else {
      assert (text + [ch])[1..] == text[1..] + [ch];
      ScanAllAppend(ScanStep(s, text[0]), text[1..], ch);
    }
  }

  /** No piece has a separating comma of its own and all but the last end where they began. */
  predicate Closed(pieces: seq<string>) {
    && (forall i :: 0 <= i < |pieces| ==> NoCut(START, pieces[i]))
    && (forall i :: 0 <= i < |pieces| - 1 ==> ScanAll(START, pieces[i]) == START)
  }

  lemma ClosedFirst(first: string, rest: seq<string>)
    requires Closed(rest) && NoCut(START, first) && ScanAll(START, first) == START
    ensures Closed([first] + rest)
  {
  }

  lemma {:induction false} PiecesAreClosed(source: string, current: string)
    requires NoCut(START, current)
    ensures Closed(Pieces(source, ScanAll(START, current), current))
    decreases |source|
  {
    var s := ScanAll(START, current);
    if source != "" {
      if Cuts(s, source[0]) {
        EscapedOnlyInQuotes(current);
        assert s == START == ScanAll(START, "");
        PiecesAreClosed(source[1..], "");
        ClosedFirst(current, Pieces(source[1..], START, ""));
      } else {
        ScanAllAppend(START, current, source[0]);
        PiecesAreClosed(source[1..], current + [source[0]]);
      }
    }
  }

  lemma {:induction false} EscapedOnlyInQuotes(text: string)
    ensures ScanAll(START, text).quotes.escaped ==> ScanAll(START, text).quotes.quote.Some?
    decreases |text|
  {
    if text != "" {
      var init, last := text[..|text| - 1], text[|text| - 1];
      EscapedOnlyInQuotes(init);
      ScanAllAppend(START, init, last);
      assert init + [last] == text;
    }
  }

  // ----- separating commas by position

  /** The unquoted opening brackets less the unquoted closing ones from position `j` up to `i`. */
  function Balance(source: string, open: char, close: char, j: nat, i: nat): int
    requires j <= i <= |source|
    decreases i
  {
    if i == j then 0
    else Balance(source, open, close, j, i - 1) +
         (if Plain(source, 0, i - 1, open) then 1 else 0) - (if Plain(source, 0, i - 1, close) then 1 else 0)
  }

  /** No bracket of the kind is open: no stretch that ends here opens more than it closes. */
  predicate NoneOpen(source: string, open: char, close: char, i: nat)
    requires i <= |source|
  {
    forall j :: 0 <= j <= i ==> Balance(source, open, close, j, i) <= 0
  }

  /** Outside quotes and brackets; a closing bracket without an opening one counts for nothing. */
  predicate Outside(source: string, i: nat)
    requires i <= |source|
  {
    && QuotesAt(source, 0, i).quote.None?
    && NoneOpen(source, '(', ')', i) && NoneOpen(source, '[', ']', i) && NoneOpen(source, '{', '}', i)
  }

  /** How deep the scan takes itself to be in brackets of a kind. */
  function Level(s: Scan, open: char): nat {
    if open == '(' then s.parens else if open == '[' then s.brackets else s.braces
  }

  lemma {:induction false} ScanAt(source: string, i: nat)
    requires i < |source|
    ensures ScanAll(START, source[..i + 1]) == ScanStep(ScanAll(START, source[..i]), source[i])
  {
    assert source[..i + 1] == source[..i] + [source[i]];
    ScanAllAppend(START, source[..i], source[i]);
  }

  lemma {:induction false} ScanTracksQuotes(source: string, i: nat)
    requires i <= |source|
    ensures ScanAll(START, source[..i]).quotes == QuotesAt(source, 0, i)
    decreases i
  {
    if i > 0 {
      ScanTracksQuotes(source, i - 1);
      ScanAt(source, i - 1);
    } else {
      assert source[..0] == "";
    }
  }

  /** The level is the largest surplus of opening brackets over the stretches that end here. */
  lemma {:induction false} LevelIsLargest(source: string, open: char, close: char, i: nat) returns (at: nat)
    requires i <= |source|
    requires (open, close) == ('(', ')') || (open, close) == ('[', ']') || (open, close) == ('{', '}')
    ensures var level := Level(ScanAll(START, source[..i]), open);
            && at <= i && Balance(source, open, close, at, i) == level
            && forall j :: 0 <= j <= i ==> Balance(source, open, close, j, i) <= level
    decreases i
  {
    if i == 0 {
      assert source[..0] == "";
      at := 0;
    } else {
      at := LevelIsLargest(source, open, close, i - 1);
      ScanAt(source, i - 1);
      ScanTracksQuotes(source, i - 1);
      if Balance(source, open, close, at, i) < 0 {
        at := i;
      }
    }
  }

  lemma NoneOpenExactly(source: string, open: char, close: char, i: nat)
    requires i <= |source|
    requires (open, close) == ('(', ')') || (open, close) == ('[', ']') || (open, close) == ('{', '}')
    ensures NoneOpen(source, open, close, i) <==> Level(ScanAll(START, source[..i]), open) == 0
  {
    var at := LevelIsLargest(source, open, close, i);
  }

  /** The scan is back where it started exactly outside quotes and brackets. */
  lemma StartExactly(source: string, i: nat)
    requires i <= |source|
    ensures ScanAll(START, source[..i]) == START <==> Outside(source, i)
    ensures i < |source| ==> (Cuts(ScanAll(START, source[..i]), source[i]) <==> source[i] == ',' && Outside(source, i))
  {
    ScanTracksQuotes(source, i);
    EscapedInsideOnly(source, 0, i);
    NoneOpenExactly(source, '(', ')', i);
    NoneOpenExactly(source, '[', ']', i);
    NoneOpenExactly(source, '{', '}', i);
  }

  lemma {:induction false} NoCutExactly(text: string, i: nat)
    requires i <= |text|
    ensures NoCut(START, text[..i]) <==> forall k :: 0 <= k < i && text[k] == ',' ==> !Outside(text, k)
    decreases i
  {
    if i > 0 {
      NoCutExactly(text, i - 1);
      assert text[..i] == text[..i - 1] + [text[i - 1]];
      ScanAllAppend(START, text[..i - 1], text[i - 1]);
      StartExactly(text, i - 1);
    }
  }

  /** The pieces between separating commas: none has such a comma of its own, and each but the last
      ends outside quotes and brackets. */
  predicate CutApart(pieces: seq<string>) {
    && (forall p, k :: 0 <= p < |pieces| && 0 <= k < |pieces[p]| && pieces[p][k] == ',' ==> !Outside(pieces[p], k))
    && (forall p :: 0 <= p < |pieces| - 1 ==> Outside(pieces[p], |pieces[p]|))
  }

  lemma ClosedExactly(pieces: seq<string>)
    ensures Closed(pieces) <==> CutApart(pieces)
  {
    forall p | 0 <= p < |pieces|
      ensures NoCut(START, pieces[p]) <==>
              forall k :: 0 <= k < |pieces[p]| && pieces[p][k] == ',' ==> !Outside(pieces[p], k)
      ensures ScanAll(START, pieces[p]) == START <==> Outside(pieces[p], |pieces[p]|)
    {
      assert pieces[p][..|pieces[p]|] == pieces[p];
      NoCutExactly(pieces[p], |pieces[p]|);
      StartExactly(pieces[p], |pieces[p]|);
    }
  }

  /** Splitting gives a list exactly when the list is what is pushed for a way of cutting the source
      apart at its separating commas. */
  lemma SplitExactly(source: string, out: seq<string>)
    ensures Split(source) == out <==>
            exists pieces :: pieces != [] && CutApart(pieces) && Join(pieces) == source && Pushed(pieces) == out
  {
    var cut := Pieces(source, START, "");
    SplitIsPieces(source, START, "");
    JoinOfPieces(source, START, "");
    assert "" + source == source && ScanAll(START, "") == START;
    PiecesAreClosed(source, "");
    ClosedExactly(cut);
    if pieces :| pieces != [] && CutApart(pieces) && Join(pieces) == source && Pushed(pieces) == out {
      ClosedExactly(pieces);
      PiecesOfJoin(pieces);
    }
  }

  function TotalLength(texts: seq<string>): nat {
    if texts == [] then 0 else |texts[0]| + TotalLength(texts[1..])
  }

  lemma {:induction false} JoinLength(texts: seq<string>)
    requires texts != []
    ensures |Join(texts)| == TotalLength(texts) + |texts| - 1
    decreases |texts|
  {
    if |texts| > 1 {
      JoinLength(texts[1..]);
    } else {
      assert texts[1..] == [];
    }
  }

  lemma {:induction false} TrimmingShortens(texts: seq<string>)
    ensures TotalLength(TrimAll(texts)) <= TotalLength(texts)
    ensures TotalLength(TrimAll(texts)) == TotalLength(texts) ==> TrimAll(texts) == texts
    decreases |texts|
  {
    if texts != [] {
      TrimIs(texts[0]);
      TrimmingShortens(texts[1..]);
      TrimFirst(texts);
    }
  }

  lemma TrimFirst(texts: seq<string>)
    requires texts != []
    ensures TrimAll(texts)[1..] == TrimAll(texts[1..])
    ensures TotalLength(TrimAll(texts)) == |Trim(texts[0])| + TotalLength(TrimAll(texts[1..]))
    ensures Trim(texts[0]) == texts[0] && TrimAll(texts[1..]) == texts[1..] ==> TrimAll(texts) == texts
  {
    assert TrimAll(texts)[1..] == TrimAll(texts[1..]);
    assert texts == [texts[0]] + texts[1..];
  }

  lemma {:induction false} TotalLengthOfInit(texts: seq<string>)
    requires texts != []
    ensures TotalLength(texts[..|texts| - 1]) <= TotalLength(texts)
    decreases |texts|
  {
    if |texts| > 1 {
      assert texts[1..][..|texts[1..]| - 1] == texts[..|texts| - 1][1..];
      TotalLengthOfInit(texts[1..]);
    }
  }

  lemma SplitOfJoin(args: seq<string>)
    requires RoundTrips(args)
    ensures Split(Join(args)) == args
  {
    if args != [] {
      PiecesOfJoin(args);
      SplitIsPieces(Join(args), START, "");
      forall i | 0 <= i < |args|
        ensures Trim(args[i]) == args[i]
      {
        TrimIs(args[i]);
      }
      assert TrimAll(args) == args;
      TrimIs(args[|args| - 1]);
    }
  }

  lemma SplitSurvivorsRoundTrip(args: seq<string>)
    requires Split(Join(args)) == args
    ensures RoundTrips(args)
  {
    if args != [] {
      var source := Join(args);
      var pieces := Pieces(source, START, "");
      PiecesOfSurvivors(args, pieces);
      assert ScanAll(START, "") == START;
      PiecesAreClosed(source, "");
      forall i | 0 <= i < |args|
        ensures Trimmed(args[i])
      {
        TrimIs(args[i]);
        assert Trim(args[i]) == args[i];
      }
      TrimIs(args[|args| - 1]);
    }
  }

  /** Comparing lengths shows that nothing was trimmed and no piece was forgotten. */
  lemma PiecesOfSurvivors(args: seq<string>, pieces: seq<string>)
    requires args != [] && Split(Join(args)) == args && pieces == Pieces(Join(args), START, "")
    ensures pieces == args == TrimAll(args) && !Blank(args[|args| - 1])
  {
    SplitIsPieces(Join(args), START, "");
    JoinOfPieces(Join(args), START, "");
    assert "" + Join(args) == Join(args);
    JoinLength(args);
    JoinLength(pieces);
    TrimmingShortens(pieces);
    TotalLengthOfInit(pieces);
    TrimmingShortens(pieces[..|pieces| - 1]);
    assert |args| == |pieces|;
  }

  lemma SplitUndoesJoinExactly(args: seq<string>)
    ensures Split(Join(args)) == args <==> RoundTrips(args)
  {
    if RoundTrips(args) {
      SplitOfJoin(args);
    }
    if Split(Join(args)) == args {
      SplitSurvivorsRoundTrip(args);
    }
  }

  /** In particular for trimmed, non-empty arguments that close their quotes and brackets and have
      no comma outside them. */
  lemma WellFormedArgumentsSurvive(args: seq<string>)
    requires forall i :: 0 <= i < |args| ==>
                           args[i] != "" && Trimmed(args[i]) && NoCut(START, args[i]) &&
                           ScanAll(START, args[i]) == START
    ensures Split(Join(args)) == args
  {
    SplitOfJoin(args);
  }
}
