/** Cutting strings without cutting surrogate pairs (`sliceUtf16Safe`, `truncateUtf16Safe` in
    src/utils.ts).  Well-formed UTF-16 is that of the Unicode Standard, section 3.9, definition D91:
    every high surrogate is followed by a low one, and low ones occur nowhere else. */
module Utf16Slice {
  import opened Wrappers

  type CodeUnit = u: int | 0 <= u < 0x10000
  type Units = seq<CodeUnit>

  predicate IsHighSurrogate(u: CodeUnit) {
    0xd800 <= u <= 0xdbff
  }

  predicate IsLowSurrogate(u: CodeUnit) {
    0xdc00 <= u <= 0xdfff
  }

  predicate WellFormed(s: Units)
    decreases |s|
  {
    s == [] ||
    (if IsHighSurrogate(s[0]) then |s| >= 2 && IsLowSurrogate(s[1]) && WellFormed(s[2..])
     else !IsLowSurrogate(s[0]) && WellFormed(s[1..]))
  }

  /** A position between the two halves of a pair. */
  predicate SplitsPair(s: Units, i: int) {
    0 < i < |s| && IsLowSurrogate(s[i]) && IsHighSurrogate(s[i - 1])
  }

  function Min(a: int, b: int): int {
    if a < b then a else b
  }

  function Max(a: int, b: int): int {
    if a < b then b else a
  }

  /** Where a bound of `slice` points: from the end if negative, and never outside. */
  function Clamp(len: nat, bound: int): (at: nat)
    ensures at <= len
  {
    if bound < 0 then Max(len + bound, 0) else Min(bound, len)
  }

  /** The two bounds in order. */
  function Bounds(len: nat, start: int, end: Option<int>): (bounds: (nat, nat))
    ensures bounds.0 <= bounds.1 <= len
  {
    var from, to := Clamp(len, start), if end.None? then len else Clamp(len, end.value);
    if to < from then (to, from) else (from, to)
  }

  /** The slice between two bounds, each moved inwards by one where it would split a pair. */
  function SafeSlice(input: Units, from: nat, to: nat): Units
    requires from <= to <= |input|
  {
    var from' := if SplitsPair(input, from) then from + 1 else from;
    var to' := if SplitsPair(input, to) then to - 1 else to;
    if from' <= to' then input[from'..to'] else []
  }

  method SliceUtf16Safe(input: Units, start: int, end: Option<int>) returns (slice: Units)
    ensures slice == SafeSlice(input, Bounds(|input|, start, end).0, Bounds(|input|, start, end).1)
    ensures WellFormed(input) ==> WellFormed(slice)
    ensures Bounds(|input|, start, end).1 - Bounds(|input|, start, end).0 - 2 <= |slice|
  {
    ghost var bounds := Bounds(|input|, start, end);
    SafeSliceIsWellFormed(input, bounds.0, bounds.1);
    var len := |input|;
    var from := if start < 0 then Max(len + start, 0) else Min(start, len);
    var to := if end.None? then len else if end.value < 0 then Max(len + end.value, 0) else Min(end.value, len);
    if to < from {
      var tmp := from;
      from := to;
      to := tmp;
    }
    assert (from, to) == bounds;
    slice := SliceBetween(input, from, to);
  }

  /** The second half of `SliceUtf16Safe`: the bounds are in order and are moved off split pairs. */
  method SliceBetween(input: Units, start: nat, end: nat) returns (slice: Units)
    requires start <= end <= |input|
    ensures slice == SafeSlice(input, start, end)
  {
    var len, from, to := |input|, start, end;
    if from > 0 && from < len {
      if IsLowSurrogate(input[from]) && IsHighSurrogate(input[from - 1]) {
        from := from + 1;
      }
    }
    if to > 0 && to < len {
      if IsHighSurrogate(input[to - 1]) && IsLowSurrogate(input[to]) {
        to := to - 1;
      }
    }
    slice := if from <= to then input[from..to] else [];
  }

  method TruncateUtf16Safe(input: Units, maxLen: int) returns (text: Units)
    ensures text <= input && (WellFormed(input) ==> WellFormed(text))
    ensures var limit := Max(0, maxLen);
            if |input| <= limit then text == input
            else |text| == (if SplitsPair(input, limit) then limit - 1 else limit)
  {
    var limit := Max(0, maxLen);
    if |input| <= limit {
      return input;
    }
    text := SliceUtf16Safe(input, 0, Some(limit));
  }

  /** A bound of `slice` means the position nearest to the one it asks for, counted from the end if it
      is negative. */
  lemma ClampIsNearest(len: nat, bound: int, at: nat)
    requires at <= len
    ensures var asked := if bound < 0 then len + bound else bound;
            Max(asked - Clamp(len, bound), Clamp(len, bound) - asked) <= Max(asked - at, at - asked)
  {
  }

  // ----- well-formed text is encoded text

  /** A Unicode scalar value (definition D76). */
  type Scalar = c: int | 0 <= c < 0xd800 || 0xe000 <= c < 0x110000

  /** The UTF-16 encoding form (definition D91): 20 bits over two surrogates above U+FFFF. */
  function EncodeScalar(c: Scalar): Units {
    if c < 0x10000 then [c] else [0xd800 + (c - 0x10000) / 0x400, 0xdc00 + (c - 0x10000) % 0x400]
  }

  function Encode(scalars: seq<Scalar>): Units {
    if scalars == [] then [] else EncodeScalar(scalars[0]) + Encode(scalars[1..])
  }

  lemma CharacterOf(high: int, low: int) returns (c: Scalar)
    requires 0xd800 <= high <= 0xdbff && 0xdc00 <= low <= 0xdfff
    ensures EncodeScalar(c) == [high, low]
  {
    c := 0x10000 + (high - 0xd800) * 0x400 + (low - 0xdc00);
  }

  lemma {:induction false} EncodingIsWellFormed(scalars: seq<Scalar>)
    ensures WellFormed(Encode(scalars))
    decreases |scalars|
  {
    if scalars != [] {
      var first, rest := EncodeScalar(scalars[0]), Encode(scalars[1..]);
      EncodingIsWellFormed(scalars[1..]);
      assert (first + rest)[|first|..] == rest;
    }
  }

  lemma {:induction false} WellFormedIsEncoded(s: Units) returns (scalars: seq<Scalar>)
    requires WellFormed(s)
    ensures Encode(scalars) == s
    decreases |s|
  {
    if s == [] {
      scalars := [];
    } else if IsHighSurrogate(s[0]) {
      var c := CharacterOf(s[0], s[1]);
      assert EncodeScalar(c) == s[..2];
      scalars := WellFormedIsEncoded(s[2..]);
      scalars := [c] + scalars;
    } else {
      assert EncodeScalar(s[0]) == s[..1];
      scalars := WellFormedIsEncoded(s[1..]);
      scalars := [s[0]] + scalars;
    }
  }

  /** Code units are well-formed exactly when they are the encoding of some Unicode text. */
  lemma WellFormedExactly(s: Units)
    ensures WellFormed(s) <==> exists scalars :: Encode(scalars) == s
  {
    if WellFormed(s) {
      var scalars := WellFormedIsEncoded(s);
    }
    if scalars :| Encode(scalars) == s {
      EncodingIsWellFormed(scalars);
    }
  }

  /** A position splits a pair exactly when the code units on its two sides encode one character. */
  lemma SplitsPairExactly(s: Units, i: nat)
    ensures SplitsPair(s, i) <==> 0 < i < |s| && exists c: Scalar :: EncodeScalar(c) == s[i - 1..i + 1]
  {
    if SplitsPair(s, i) {
      var c := CharacterOf(s[i - 1], s[i]);
      assert EncodeScalar(c) == s[i - 1..i + 1];
    }
    if 0 < i < |s| {
      if c: Scalar :| EncodeScalar(c) == s[i - 1..i + 1] {
        assert EncodeScalar(c)[0] == s[i - 1] && EncodeScalar(c)[1] == s[i];
      }
    }
  }

  /** Cutting where no pair is split leaves two well-formed halves. */
  lemma {:induction false} CutIsWellFormed(s: Units, i: nat)
    requires WellFormed(s) && i <= |s| && !SplitsPair(s, i)
    ensures WellFormed(s[..i]) && WellFormed(s[i..])
    decreases |s|
  {
    if i > 0 {
      var n := if IsHighSurrogate(s[0]) then 2 else 1;
      assert n <= i;
      assert s[n..][i - n..] == s[i..] && s[n..][..i - n] == s[..i][n..];
      assert i > n && SplitsPair(s[n..], i - n) ==> SplitsPair(s, i);
      CutIsWellFormed(s[n..], i - n);
    }
  }

  /** Well-formed text stays well-formed, whatever the bounds. */
  lemma SafeSliceIsWellFormed(input: Units, from: nat, to: nat)
    requires from <= to <= |input|
    ensures WellFormed(input) ==> WellFormed(SafeSlice(input, from, to))
    ensures to - from - 2 <= |SafeSlice(input, from, to)|
  {
    var from' := if SplitsPair(input, from) then from + 1 else from;
    var to' := if SplitsPair(input, to) then to - 1 else to;
    if WellFormed(input) && from' <= to' {
      CutIsWellFormed(input, to');
      assert !SplitsPair(input[..to'], from');
      CutIsWellFormed(input[..to'], from');
      assert input[..to'][from'..] == input[from'..to'];
    }
  }

  lemma {:induction false} EndsOfWellFormed(s: Units)
    requires WellFormed(s) && s != []
    ensures !IsLowSurrogate(s[0]) && !IsHighSurrogate(s[|s| - 1])
    decreases |s|
  {
    var n := if IsHighSurrogate(s[0]) then 2 else 1;
    if |s| > n {
      EndsOfWellFormed(s[n..]);
    }
  }

  lemma SliceOfSlice(s: Units, from: nat, to: nat, a: nat, b: nat)
    requires from <= a <= b <= to <= |s|
    ensures s[from..to][a - from..b - from] == s[a..b]
  {
    var outer := s[from..to];
    var inner := outer[a - from..b - from];
    forall k | 0 <= k < b - a
      ensures inner[k] == s[a..b][k]
    {
      assert inner[k] == outer[a - from + k];
    }
  }

  lemma EndsOfStretch(input: Units, a: nat, b: nat)
    requires a < b <= |input| && WellFormed(input[a..b])
    ensures !IsLowSurrogate(input[a]) && !IsHighSurrogate(input[b - 1])
  {
    var stretch := input[a..b];
    EndsOfWellFormed(stretch);
    assert stretch[0] == input[a] && stretch[|stretch| - 1] == input[b - 1];
  }

  /** Nothing is dropped without need: the result contains every well-formed stretch of the input
      between the two bounds. */
  lemma SafeSliceIsLargest(input: Units, from: nat, to: nat, a: nat, b: nat)
    requires from <= a < b <= to <= |input| && WellFormed(input[a..b])
    ensures (SplitsPair(input, from) ==> from < a) && (SplitsPair(input, to) ==> b < to)
    ensures var skip := if SplitsPair(input, from) then 1 else 0;
            b - from - skip <= |SafeSlice(input, from, to)| &&
            SafeSlice(input, from, to)[a - from - skip..b - from - skip] == input[a..b]
  {
    EndsOfStretch(input, a, b);
    SafeSliceBetween(input, from, to, a, b);
  }

  lemma SafeSliceBetween(input: Units, from: nat, to: nat, a: nat, b: nat)
    requires from <= a < b <= to <= |input|
    requires (SplitsPair(input, from) ==> from < a) && (SplitsPair(input, to) ==> b < to)
    ensures var skip := if SplitsPair(input, from) then 1 else 0;
            b - from - skip <= |SafeSlice(input, from, to)| &&
            SafeSlice(input, from, to)[a - from - skip..b - from - skip] == input[a..b]
  {
    var from' := if SplitsPair(input, from) then from + 1 else from;
    var to' := if SplitsPair(input, to) then to - 1 else to;
    assert SafeSlice(input, from, to) == input[from'..to'];
    SliceOfSlice(input, from', to', a, b);
  }
}
