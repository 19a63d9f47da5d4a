/** Build-number floors for calendar versions (scripts/sparkle-build.ts).  The source glues decimal
    strings together and reads the result back as a number; the model does the same, and what the
    glued numbers mean is proved. */
module SparkleBuild {
  import opened Wrappers
  import opened Text

  predicate IsDigit(c: char) {
    '0' <= c <= '9'
  }

  predicate AllDigits(s: string) {
    forall i :: 0 <= i < |s| ==> IsDigit(s[i])
  }

  /** The line terminators, which `.` does not match. */
  predicate IsLineBreak(c: char) {
    c == '\n' || c == '\r' || c as int == 0x2028 || c as int == 0x2029
  }

  /** `Number.parseInt` and `Number` of a string of digits. */
  function Value(digits: string): nat
    requires AllDigits(digits)
  {
    if digits == "" then 0
    else 10 * Value(digits[..|digits| - 1]) + (digits[|digits| - 1] as int - '0' as int)
  }

  /** `String(n)`. */
  function Decimal(n: nat): (digits: string)
    ensures AllDigits(digits)
  {
    var last := [('0' as int + n % 10) as char];
    if n < 10 then last else Decimal(n / 10) + last
  }

  /** `padStart(2, "0")`. */
  function PadTwo(s: string): (padded: string)
    ensures AllDigits(s) ==> AllDigits(padded)
  {
    if |s| >= 2 then s else if |s| == 1 then ['0'] + s else ['0', '0']
  }

  datatype Version = Version(year: string, month: string, day: string, suffix: string)

  predicate IsVersion(v: Version) {
    && |v.year| == 4 && 1 <= |v.month| <= 2 && 1 <= |v.day| <= 2
    && AllDigits(v.year) && AllDigits(v.month) && AllDigits(v.day)
    && (v.suffix == "" || v.suffix[0] in ".-")
    && forall i :: 0 <= i < |v.suffix| ==> !IsLineBreak(v.suffix[i])
  }

  function Print(v: Version): string {
    v.year + ['.'] + v.month + ['.'] + v.day + v.suffix
  }

  /** How many of the first two characters are digits, from the first on. */
  function DigitRun(s: string): (n: nat)
    ensures n <= 2 && n <= |s| && AllDigits(s[..n])
    ensures n < 2 && n < |s| ==> !IsDigit(s[n])
  {
    if s == "" || !IsDigit(s[0]) then 0 else if |s| == 1 || !IsDigit(s[1]) then 1 else 2
  }

  /** The pattern for calendar versions: four digits, one or two, one or two, and a suffix. */
  function MatchVersion(text: string): Option<Version> {
    if |text| < 5 || !AllDigits(text[..4]) || text[4] != '.' then None
    else
      var afterYear := text[5..];
      var m := DigitRun(afterYear);
      if m == 0 || m == |afterYear| || afterYear[m] != '.' then None
      else
        var afterMonth := afterYear[m + 1..];
        var d := DigitRun(afterMonth);
        var v := Version(text[..4], afterYear[..m], afterMonth[..d], afterMonth[d..]);
        if d > 0 && IsVersion(v) then Some(v) else None
  }

  /** The pattern takes apart exactly the texts that are put together from a version. */
  lemma MatchExactly(text: string, v: Version)
    ensures MatchVersion(text) == Some(v) <==> IsVersion(v) && Print(v) == text
  {
    if MatchVersion(text) == Some(v) {
      MatchedPrints(text, v);
    }
    if IsVersion(v) && Print(v) == text {
      PrintedMatches(v);
    }
  }

  lemma PrintAssociates(v: Version)
    ensures Print(v) == v.year + (['.'] + (v.month + (['.'] + (v.day + v.suffix))))
  {
  }

  /** Where the parts of a matched version stand. */
  ghost predicate PartsStand(text: string, v: Version, afterYear: string, afterMonth: string) {
    && |v.year| == 4 && |text| >= 5 && text[..4] == v.year && text[4] == '.' && text[5..] == afterYear
    && |v.month| < |afterYear| && afterYear[..|v.month|] == v.month && afterYear[|v.month|] == '.'
    && afterYear[|v.month| + 1..] == afterMonth
    && |v.day| <= |afterMonth| && afterMonth[..|v.day|] == v.day && afterMonth[|v.day|..] == v.suffix
  }

  lemma MatchedParts(text: string, v: Version) returns (afterYear: string, afterMonth: string)
    requires MatchVersion(text) == Some(v)
    ensures PartsStand(text, v, afterYear, afterMonth)
  {
    afterYear := text[5..];
    afterMonth := afterYear[|v.month| + 1..];
  }

  lemma PartsPrint(text: string, v: Version, afterYear: string, afterMonth: string)
    requires PartsStand(text, v, afterYear, afterMonth)
    ensures Print(v) == text
  {
    Glued(text, 4);
    Glued(afterYear, |v.month|);
    assert afterMonth == afterMonth[..|v.day|] + afterMonth[|v.day|..];
    PrintAssociates(v);
  }

  lemma Glued(s: string, i: nat)
    requires i < |s|
    ensures s == s[..i] + ([s[i]] + s[i + 1..])
  {
  }

  lemma MatchedPrints(text: string, v: Version)
    requires MatchVersion(text) == Some(v)
    ensures Print(v) == text
  {
    var afterYear, afterMonth := MatchedParts(text, v);
    PartsPrint(text, v, afterYear, afterMonth);
  }

  lemma PrintedParts(v: Version) returns (afterYear: string, afterMonth: string)
    requires IsVersion(v)
    ensures PartsStand(Print(v), v, afterYear, afterMonth)
    ensures afterYear == v.month + (['.'] + afterMonth) && afterMonth == v.day + v.suffix
  {
    afterMonth := v.day + v.suffix;
    afterYear := v.month + (['.'] + afterMonth);
    PrintAssociates(v);
    Cut(v.year, '.', afterYear);
    Cut(v.month, '.', afterMonth);
  }

  lemma PrintedMatches(v: Version)
    requires IsVersion(v)
    ensures MatchVersion(Print(v)) == Some(v)
  {
    var afterYear, afterMonth := PrintedParts(v);
    DigitRunStops(v.month, ['.'] + afterMonth);
    DigitRunStops(v.day, v.suffix);
  }

  lemma Cut(left: string, c: char, right: string)
    ensures var s := left + ([c] + right); s[..|left|] == left && s[|left|] == c && s[|left| + 1..] == right
  {
  }

  lemma DigitRunStops(digits: string, rest: string)
    requires 1 <= |digits| <= 2 && AllDigits(digits) && (rest != "" ==> !IsDigit(rest[0]))
    ensures DigitRun(digits + rest) == |digits|
  {
    var s := digits + rest;
    assert s[0] == digits[0] && (|digits| == 2 ==> s[1] == digits[1]);
    assert |digits| == 1 && rest != "" ==> s[1] == rest[0];
  }

  // ----- the floors

  /** The digits at the end of a suffix. */
  function TrailingDigits(s: string): (digits: string)
    ensures AllDigits(digits)
  {
    if s == "" || !IsDigit(s[|s| - 1]) then "" else TrailingDigits(s[..|s| - 1]) + [s[|s| - 1]]
  }

  /** The lane of a suffix: its number up to 89, 1 without a number, and 90 for a final release. */
  function Lane(suffix: string): (lane: nat)
    ensures lane <= 90
    ensures lane == 90 <==> suffix == ""
  {
    if suffix == "" then 90
    else
      var digits := TrailingDigits(suffix);
      if digits == "" then 1 else if Value(digits) < 89 then Value(digits) else 89
  }

  /** The digits that count are the longest run at the end. */
  lemma {:induction false} TrailingDigitsAre(head: string, digits: string)
    requires AllDigits(digits) && (head != "" ==> !IsDigit(head[|head| - 1]))
    ensures TrailingDigits(head + digits) == digits
    decreases |digits|
  {
    if digits == "" {
      assert head + digits == head;
    } else {
      var init, last := digits[..|digits| - 1], digits[|digits| - 1];
      var suffix := head + digits;
      assert suffix[..|suffix| - 1] == head + init && suffix[|suffix| - 1] == last;
      TrailingDigitsAre(head, init);
    }
  }

  lemma LaneIs(head: string, digits: string)
    requires head + digits != "" && AllDigits(digits) && (head != "" ==> !IsDigit(head[|head| - 1]))
    ensures Lane(head + digits) == if digits == "" then 1 else if Value(digits) <= 89 then Value(digits) else 89
  {
    TrailingDigitsAre(head, digits);
  }

  datatype Floors = Floors(dateKey: nat, legacyFloor: nat, laneFloor: nat, lane: nat)

  predicate IsDate(v: Version)
    requires IsVersion(v)
  {
    1 <= Value(v.month) <= 12 && 1 <= Value(v.day) <= 31
  }

  function FloorsOf(v: Version): Floors
    requires IsVersion(v)
  {
    var dateText := Decimal(Value(v.year)) + PadTwo(Decimal(Value(v.month))) + PadTwo(Decimal(Value(v.day)));
    var dateKey := Value(dateText);
    var lane := Lane(v.suffix);
    Floors(dateKey, Value(Decimal(dateKey) + ['0']), Value(Decimal(dateKey) + PadTwo(Decimal(lane))), lane)
  }

  function SparkleBuildFloorsFromShortVersion(shortVersion: string): Option<Floors> {
    var v := MatchVersion(Trim(shortVersion));
    if v.None? then None
    else (MatchExactly(Trim(shortVersion), v.value); if !IsDate(v.value) then None else Some(FloorsOf(v.value)))
  }

  lemma {:induction false} ValueOfDecimal(n: nat)
    ensures Value(Decimal(n)) == n
    decreases n
  {
    if n >= 10 {
      ValueOfDecimal(n / 10);
      assert Decimal(n)[..|Decimal(n)| - 1] == Decimal(n / 10);
    }
  }

  lemma ValueOfAppended(s: string, c: char)
    requires AllDigits(s) && IsDigit(c)
    ensures Value(s + [c]) == 10 * Value(s) + (c as int - '0' as int)
  {
    assert (s + [c])[..|s|] == s;
  }

  /** Gluing a number below 100, padded to two digits, to the right of a number. */
  lemma ValueOfGlued(s: string, n: nat)
    requires AllDigits(s) && n < 100
    ensures AllDigits(PadTwo(Decimal(n))) && Value(s + PadTwo(Decimal(n))) == 100 * Value(s) + n
  {
    var tens, ones := ('0' as int + n / 10) as char, ('0' as int + n % 10) as char;
    assert PadTwo(Decimal(n)) == [tens, ones] by {
      if n >= 10 {
        assert Decimal(n) == Decimal(n / 10) + [ones];
      }
    }
    assert s + [tens, ones] == (s + [tens]) + [ones];
    ValueOfAppended(s, tens);
    ValueOfAppended(s + [tens], ones);
  }

  lemma {:induction false} ValueIsBounded(s: string)
    requires AllDigits(s) && |s| <= 4
    ensures |s| <= 2 ==> Value(s) < 100
    ensures Value(s) < 10000
    decreases |s|
  {
    if s != "" {
      var init := s[..|s| - 1];
      ValueIsBounded(init);
      if init != "" {
        assert Value(init) == 10 * Value(init[..|init| - 1]) + (init[|init| - 1] as int - '0' as int);
        ValueIsBounded(init[..|init| - 1]);
        ThreeDigits(init);
      }
    }
  }

  lemma ThreeDigits(s: string)
    requires AllDigits(s) && |s| <= 3
    ensures Value(s) < 1000 && (|s| <= 1 ==> Value(s) < 10)
  {
    if s != "" {
      var init := s[..|s| - 1];
      if init != "" {
        var rest := init[..|init| - 1];
        assert |rest| <= 1 && (rest != "" ==> rest[..|rest| - 1] == "");
      }
    }
  }

  /** What the glued numbers are. */
  lemma FloorsAre(v: Version)
    requires IsVersion(v) && IsDate(v)
    ensures var dateKey, f := 10000 * Value(v.year) + 100 * Value(v.month) + Value(v.day), FloorsOf(v);
            f.dateKey == dateKey && f.legacyFloor == 10 * dateKey && f.laneFloor == 100 * dateKey + f.lane &&
            f.lane == Lane(v.suffix)
    ensures Value(v.year) < 10000
  {
    var year, month, day := Value(v.year), Value(v.month), Value(v.day);
    ValueIsBounded(v.year);
    ValueOfDecimal(year);
    ValueOfGlued(Decimal(year), month);
    ValueOfGlued(Decimal(year) + PadTwo(Decimal(month)), day);
    var dateKey := FloorsOf(v).dateKey;
    ValueOfDecimal(dateKey);
    ValueOfAppended(Decimal(dateKey), '0');
    ValueOfGlued(Decimal(dateKey), Lane(v.suffix));
  }

  predicate Earlier(a: Version, b: Version)
    requires IsVersion(a) && IsVersion(b)
  {
    || Value(a.year) < Value(b.year)
    || (Value(a.year) == Value(b.year) && Value(a.month) < Value(b.month))
    || (Value(a.year) == Value(b.year) && Value(a.month) == Value(b.month) && Value(a.day) < Value(b.day))
  }

  /** Lane floors are ordered as (year, month, day, lane), date keys and legacy floors as the dates,
      and of one date the final release comes last. */
  lemma FloorsOrder(a: Version, b: Version)
    requires IsVersion(a) && IsVersion(b) && IsDate(a) && IsDate(b)
    ensures FloorsOf(a).laneFloor < FloorsOf(b).laneFloor <==>
            Earlier(a, b) || (!Earlier(b, a) && Lane(a.suffix) < Lane(b.suffix))
    ensures FloorsOf(a).dateKey < FloorsOf(b).dateKey <==> Earlier(a, b)
    ensures FloorsOf(a).legacyFloor < FloorsOf(b).legacyFloor <==> Earlier(a, b)
    ensures a.suffix != "" && b.suffix == "" && !Earlier(a, b) && !Earlier(b, a) ==>
              FloorsOf(a).laneFloor < FloorsOf(b).laneFloor
  {
    FloorsAre(a);
    FloorsAre(b);
    DateKeysOrder(a, b);
  }

  lemma DateKeysOrder(a: Version, b: Version)
    requires IsVersion(a) && IsVersion(b) && IsDate(a) && IsDate(b)
    ensures 10000 * Value(a.year) + 100 * Value(a.month) + Value(a.day) < 10000 * Value(b.year) + 100 * Value(b.month) +
                                                                          Value(b.day)
       <==> Earlier(a, b)
  {
  }

  /** Legacy floors stay below a thousand million; lane floors reach it exactly from the year 1000. */
  lemma FloorBands(v: Version)
    requires IsVersion(v) && IsDate(v)
    ensures FloorsOf(v).legacyFloor < 1_000_000_000
    ensures FloorsOf(v).laneFloor >= 1_000_000_000 <==> Value(v.year) >= 1000
  {
    FloorsAre(v);
  }
}

/** The check of the update feed (`collectAppcastSparkleVersionErrors` in scripts/release-check.ts),
    from the extracted tags on. */
module Appcast {
  import opened Wrappers
  import opened Text
  import opened SparkleBuild

  const LANE_BUILD_MIN := 1_000_000_000
  const LANE_FLOOR_ADOPTION_DATE_KEY := 20260227

  /** The three tags of an item, trimmed; a tag may be missing, and trimming may leave it empty. */
  datatype Item = Item(title: Option<string>, shortVersion: Option<string>, sparkleVersion: Option<string>)

  datatype Problem =
    | NoItems
    | MissingVersion(title: string)
    | NonNumericVersion(title: string, version: string)
    | BelowFloor(title: string, build: nat, laneFloor: bool, floor: nat)

  datatype CalverItem = CalverItem(title: string, sparkleBuild: nat, floors: Floors)

  function Title(item: Item): string {
    if item.title.Some? then item.title.value else "unknown"
  }

  function Present(tag: Option<string>): (text: string)
    ensures text != "" <==> tag.Some? && tag.value != ""
  {
    if tag.Some? then tag.value else ""
  }

  // ----- what the check reports

  predicate Numbered(item: Item) {
    Present(item.sparkleVersion) != "" && AllDigits(Present(item.sparkleVersion))
  }

  function VersionProblems(items: seq<Item>): seq<Problem> {
    if items == [] then []
    else
      var last := items[|items| - 1];
      VersionProblems(items[..|items| - 1]) +
      (if Numbered(last) then []
       else if Present(last.sparkleVersion) == "" then [MissingVersion(Title(last))]
       else [NonNumericVersion(Title(last), Present(last.sparkleVersion))])
  }

  /** The item as a calendar-versioned one, if it is numbered and has such a version. */
  function Calver(item: Item): Option<CalverItem> {
    if !Numbered(item) || Present(item.shortVersion) == "" then None
    else
      var floors := SparkleBuildFloorsFromShortVersion(item.shortVersion.value);
      if floors.None? then None else Some(CalverItem(Title(item), Value(item.sparkleVersion.value), floors.value))
  }

  function Somes(options: seq<Option<CalverItem>>): seq<CalverItem> {
    if options == [] then []
    else
      var last := options[|options| - 1];
      Somes(options[..|options| - 1]) + (if last.Some? then [last.value] else [])
  }

  function CalverItems(items: seq<Item>): seq<CalverItem> {
    Somes(seq(|items|, i requires 0 <= i < |items| => Calver(items[i])))
  }

  lemma CalverItemsOfNext(items: seq<Item>, n: nat)
    requires n < |items|
    ensures CalverItems(items[..n + 1]) ==
            CalverItems(items[..n]) + (if Calver(items[n]).Some? then [Calver(items[n]).value] else [])
  {
    var before := seq(n, i requires 0 <= i < n => Calver(items[..n][i]));
    var after := seq(n + 1, i requires 0 <= i < n + 1 => Calver(items[..n + 1][i]));
    assert after[..n] == before && after[n] == Calver(items[n]);
  }

  /** The earliest date of a lane-numbered item, if that is before the adoption date. */
  function AdoptionDate(items: seq<CalverItem>): int {
    if items == [] then LANE_FLOOR_ADOPTION_DATE_KEY
    else
      var last, rest := items[|items| - 1], AdoptionDate(items[..|items| - 1]);
      if last.sparkleBuild >= LANE_BUILD_MIN && last.floors.dateKey < rest then last.floors.dateKey else rest
  }

  function FloorProblem(item: CalverItem, adoption: int): seq<Problem> {
    var expectLane := item.sparkleBuild >= LANE_BUILD_MIN || item.floors.dateKey >= adoption;
    var floor := if expectLane then item.floors.laneFloor else item.floors.legacyFloor;
    if item.sparkleBuild < floor then [BelowFloor(item.title, item.sparkleBuild, expectLane, floor)] else []
  }

  function FloorProblems(items: seq<CalverItem>, adoption: int): seq<Problem> {
    if items == [] then []
    else FloorProblems(items[..|items| - 1], adoption) + FloorProblem(items[|items| - 1], adoption)
  }

  function Problems(items: seq<Item>): seq<Problem> {
    var calver := CalverItems(items);
    (if items == [] then [NoItems] else []) + VersionProblems(items) + FloorProblems(calver, AdoptionDate(calver))
  }

  /** The dates of the lane-numbered items: the filter and the map. */
  function LaneDateKeys(items: seq<CalverItem>): seq<nat> {
    if items == [] then []
    else (if items[0].sparkleBuild >= LANE_BUILD_MIN then [items[0].floors.dateKey] else []) + LaneDateKeys(items[1..])
  }

  function InsertKey(key: nat, sorted: seq<nat>): seq<nat> {
    if sorted == [] || key <= sorted[0] then [key] + sorted else [sorted[0]] + InsertKey(key, sorted[1..])
  }

  /** `toSorted((a, b) => a - b)`. */
  function SortKeys(keys: seq<nat>): seq<nat> {
    if keys == [] then [] else InsertKey(keys[0], SortKeys(keys[1..]))
  }

  /** Sorting brings the least key to the front. */
  lemma {:induction false} FirstOfSorted(keys: seq<nat>)
    ensures SortKeys(keys) == [] <==> keys == []
    ensures keys != [] ==> SortKeys(keys)[0] in keys && forall k :: k in keys ==> SortKeys(keys)[0] <= k
    decreases |keys|
  {
    if keys != [] {
      FirstOfSorted(keys[1..]);
      assert keys == [keys[0]] + keys[1..];
    }
  }

  lemma {:induction false} LaneDateKeysAre(items: seq<CalverItem>, key: nat)
    ensures key in LaneDateKeys(items) <==>
            exists i :: 0 <= i < |items| && items[i].sparkleBuild >= LANE_BUILD_MIN && items[i].floors.dateKey == key
    decreases |items|
  {
    if items != [] {
      LaneDateKeysAre(items[1..], key);
      if key in LaneDateKeys(items[1..]) {
        var i :| 0 <= i < |items| - 1 && items[1..][i].sparkleBuild >= LANE_BUILD_MIN &&
                 items[1..][i].floors.dateKey == key;
        assert items[i + 1].floors.dateKey == key;
      }
      if i :| 0 <= i < |items| && items[i].sparkleBuild >= LANE_BUILD_MIN && items[i].floors.dateKey == key {
        assert i > 0 ==> items[1..][i - 1].floors.dateKey == key;
      }
    }
  }

  lemma {:induction false} AdoptionDateIsLeast(items: seq<CalverItem>)
    ensures AdoptionDate(items) == LANE_FLOOR_ADOPTION_DATE_KEY ||
            exists i :: 0 <= i < |items| && items[i].sparkleBuild >= LANE_BUILD_MIN &&
                        items[i].floors.dateKey == AdoptionDate(items)
    ensures AdoptionDate(items) <= LANE_FLOOR_ADOPTION_DATE_KEY
    ensures forall i :: 0 <= i < |items| && items[i].sparkleBuild >= LANE_BUILD_MIN ==>
                          AdoptionDate(items) <= items[i].floors.dateKey
    decreases |items|
  {
    if items != [] {
      AdoptionDateIsLeast(items[..|items| - 1]);
    }
  }

  /** The first of the sorted dates, or the fixed date if that is earlier or there is none. */
  lemma EarliestIsAdoptionDate(items: seq<CalverItem>)
    ensures var keys := SortKeys(LaneDateKeys(items));
            AdoptionDate(items) == if keys != [] && keys[0] < LANE_FLOOR_ADOPTION_DATE_KEY then keys[0]
            else LANE_FLOOR_ADOPTION_DATE_KEY
  {
    var dates := LaneDateKeys(items);
    FirstOfSorted(dates);
    AdoptionDateIsLeast(items);
    if dates != [] {
      LaneDateKeysAre(items, SortKeys(dates)[0]);
    }
    if AdoptionDate(items) != LANE_FLOOR_ADOPTION_DATE_KEY {
      LaneDateKeysAre(items, AdoptionDate(items));
    }
  }

  method CollectAppcastSparkleVersionErrors(items: seq<Item>) returns (errors: seq<Problem>)
    ensures errors == Problems(items)
  {
    errors := [];
    var calverItems: seq<CalverItem> := [];
    if |items| == 0 {
      errors := errors + [NoItems];
    }
    for n := 0 to |items|
      invariant errors == (if items == [] then [NoItems] else []) + VersionProblems(items[..n])
      invariant calverItems == CalverItems(items[..n])
    {
      var item := items[n];
      assert items[..n + 1][..n] == items[..n];
      CalverItemsOfNext(items, n);
      if item.sparkleVersion.None? || item.sparkleVersion.value == "" {
        errors := errors + [MissingVersion(Title(item))];
        continue;
      }
      if !AllDigits(item.sparkleVersion.value) {
        errors := errors + [NonNumericVersion(Title(item), item.sparkleVersion.value)];
        continue;
      }
      if item.shortVersion.None? || item.shortVersion.value == "" {
        continue;
      }
      var floors := SparkleBuildFloorsFromShortVersion(item.shortVersion.value);
      if floors.None? {
        continue;
      }
      calverItems := calverItems + [CalverItem(Title(item), Value(item.sparkleVersion.value), floors.value)];
    }
    assert items[..|items|] == items;
    var effectiveLaneAdoptionDateKey := EffectiveAdoptionDate(calverItems);
    var floorErrors := CheckFloors(calverItems, effectiveLaneAdoptionDateKey);
    errors := errors + floorErrors;
  }

  /** The earliest date seen, but no later than the fixed one. */
  method EffectiveAdoptionDate(items: seq<CalverItem>) returns (dateKey: int)
    ensures dateKey == AdoptionDate(items)
  {
    EarliestIsAdoptionDate(items);
    var observed := SortKeys(LaneDateKeys(items));
    dateKey := LANE_FLOOR_ADOPTION_DATE_KEY;
    if observed != [] && observed[0] < LANE_FLOOR_ADOPTION_DATE_KEY {
      dateKey := observed[0];
    }
  }

  /** The second loop: every calendar-versioned item against its floor. */
  method CheckFloors(items: seq<CalverItem>, adoption: int) returns (errors: seq<Problem>)
    ensures errors == FloorProblems(items, adoption)
  {
    errors := [];
    for n := 0 to |items|
      invariant errors == FloorProblems(items[..n], adoption)
    {
      var item := items[n];
      assert items[..n + 1][..n] == items[..n];
      var expectLaneFloor := item.sparkleBuild >= LANE_BUILD_MIN || item.floors.dateKey >= adoption;
      var floor := if expectLaneFloor then item.floors.laneFloor else item.floors.legacyFloor;
      if item.sparkleBuild < floor {
        errors := errors + [BelowFloor(item.title, item.sparkleBuild, expectLaneFloor, floor)];
      }
    }
    assert items[..|items|] == items;
  }

  // ----- what a clean feed guarantees

  predicate LaneNumbered(c: CalverItem) {
    c.sparkleBuild >= LANE_BUILD_MIN
  }

  predicate LaneBy(c: CalverItem, dateKey: nat) {
    LaneNumbered(c) && c.floors.dateKey <= dateKey
  }

  /** The lane scheme is in force on a date: it is past the adoption date, or some item of that date
      or before already uses it. */
  predicate LanesInForce(calver: seq<CalverItem>, dateKey: nat) {
    dateKey >= LANE_FLOOR_ADOPTION_DATE_KEY || exists k :: 0 <= k < |calver| && LaneBy(calver[k], dateKey)
  }

  /** The item's build number meets the floor of the scheme that it must follow. */
  predicate MeetsFloor(calver: seq<CalverItem>, c: CalverItem) {
    if LaneNumbered(c) || LanesInForce(calver, c.floors.dateKey) then c.floors.laneFloor <= c.sparkleBuild
    else c.floors.legacyFloor <= c.sparkleBuild
  }

  lemma {:induction false} SomesAre(options: seq<Option<CalverItem>>, c: CalverItem)
    ensures c in Somes(options) <==> exists i :: 0 <= i < |options| && options[i] == Some(c)
    decreases |options|
  {
    if options != [] {
      SomesAre(options[..|options| - 1], c);
    }
  }

  lemma CalverItemsAre(items: seq<Item>, c: CalverItem)
    ensures c in CalverItems(items) <==> exists i :: 0 <= i < |items| && Calver(items[i]) == Some(c)
  {
    var options := seq(|items|, i requires 0 <= i < |items| => Calver(items[i]));
    SomesAre(options, c);
    assert (exists i :: 0 <= i < |items| && Calver(items[i]) == Some(c)) ==>
        exists i :: 0 <= i < |options| && options[i] == Some(c) by {
      if i :| 0 <= i < |items| && Calver(items[i]) == Some(c) {
        assert options[i] == Some(c);
      }
    }
  }

  /** The computed cut-over date is the first on which the lane scheme is in force. */
  lemma {:induction false} AdoptionDateIs(calver: seq<CalverItem>, dateKey: nat)
    ensures AdoptionDate(calver) <= dateKey <==> LanesInForce(calver, dateKey)
    decreases |calver|
  {
    if calver != [] {
      var init, last := calver[..|calver| - 1], |calver| - 1;
      AdoptionDateIs(init, dateKey);
      if k :| 0 <= k < |init| && LaneBy(init[k], dateKey) {
        assert LaneBy(calver[k], dateKey);
      }
      if k :| 0 <= k < |calver| && LaneBy(calver[k], dateKey) {
        assert k < last ==> LaneBy(init[k], dateKey);
      }
    }
  }

  lemma {:induction false} NoVersionProblems(items: seq<Item>)
    ensures VersionProblems(items) == [] <==> forall i :: 0 <= i < |items| ==> Numbered(items[i])
    decreases |items|
  {
    if items != [] {
      NoVersionProblems(items[..|items| - 1]);
    }
  }

  lemma {:induction false} NoFloorProblems(calver: seq<CalverItem>, adoption: int)
    ensures FloorProblems(calver, adoption) == [] <==> forall c :: c in calver ==> FloorProblem(c, adoption) == []
    decreases |calver|
  {
    if calver != [] {
      NoFloorProblems(calver[..|calver| - 1], adoption);
      InitAndLast(calver);
    }
  }

  lemma InitAndLast(calver: seq<CalverItem>)
    requires calver != []
    ensures forall c :: c in calver <==> c in calver[..|calver| - 1] || c == calver[|calver| - 1]
  {
    assert calver == calver[..|calver| - 1] + [calver[|calver| - 1]];
  }

  /** The check is silent exactly when there are items, all are numbered, and each calendar version
      meets its floor. */
  lemma CleanExactly(items: seq<Item>)
    ensures Problems(items) == [] <==>
            && items != []
            && (forall i :: 0 <= i < |items| ==> Numbered(items[i]))
            && forall c :: c in CalverItems(items) ==> MeetsFloor(CalverItems(items), c)
  {
    var calver := CalverItems(items);
    NoVersionProblems(items);
    NoFloorProblems(calver, AdoptionDate(calver));
    forall c | c in calver
      ensures FloorProblem(c, AdoptionDate(calver)) == [] <==> MeetsFloor(calver, c)
    {
      AdoptionDateIs(calver, c.floors.dateKey);
    }
  }

  /** Beside a lane-numbered item, one of that date or later passes with a legacy number exactly
      within the gap between its own lane floor and the first lane number; the gap is empty exactly
      from the year 1000 on. */
  lemma LegacyAfterLaneExactly(items: seq<Item>, lane: CalverItem, c: CalverItem)
    requires lane in CalverItems(items) && c in CalverItems(items)
    requires LaneNumbered(lane) && lane.floors.dateKey <= c.floors.dateKey
    ensures MeetsFloor(CalverItems(items), c) && !LaneNumbered(c) <==>
            c.floors.laneFloor <= c.sparkleBuild < LANE_BUILD_MIN
    ensures c.floors.laneFloor < LANE_BUILD_MIN <==> c.floors.dateKey < 1000_00_00
  {
    var calver := CalverItems(items);
    var k :| 0 <= k < |calver| && calver[k] == lane;
    assert LaneBy(calver[k], c.floors.dateKey);
    CalverFloorsAre(items, c);
  }

  lemma CalverFloorsAre(items: seq<Item>, c: CalverItem)
    requires c in CalverItems(items)
    ensures c.floors.laneFloor == 100 * c.floors.dateKey + c.floors.lane && c.floors.lane <= 90
  {
    CalverItemsAre(items, c);
    var i :| 0 <= i < |items| && Calver(items[i]) == Some(c);
    var text := Trim(items[i].shortVersion.value);
    MatchExactly(text, MatchVersion(text).value);
    FloorsAre(MatchVersion(text).value);
  }

  /** The cut-over: once a clean feed has a lane-numbered item, no item of that date or later is
      numbered in the legacy way, from the year 1000 on. */
  lemma NoLegacyAfterLane(items: seq<Item>, lane: CalverItem, c: CalverItem)
    requires Problems(items) == [] && lane in CalverItems(items) && c in CalverItems(items)
    requires LaneNumbered(lane) && lane.floors.dateKey <= c.floors.dateKey && 1000_00_00 <= c.floors.dateKey
    ensures LaneNumbered(c)
  {
    CleanExactly(items);
    LegacyAfterLaneExactly(items, lane, c);
  }
}
