/** Translating one batch with retries and splitting (`translateBatch` in
    scripts/control-ui-i18n.ts), for any behaviour of the child process. */
module TranslateBatch {
  import opened Batching
  import opened Text

  const TRANSLATE_MAX_ATTEMPTS := 2

  /** What one prompt comes to: an object whose string fields are `values`, or an error message. */
  datatype Reply = Object(values: map<string, string>) | Error(message: string)

  /** The child process: the reply to the `n`-th prompt of the run, given the items it asks for. */
  type Oracle = (nat, Batch) -> Reply

  datatype Result = Translated(values: map<string, string>) | Failed(message: string)

  function Lower(text: string): string {
    seq(|text|, i requires 0 <= i < |text| => if 'A' <= text[i] <= 'Z' then text[i] - 'A' + 'a' else text[i])
  }

  predicate IsPromptTimeoutError(message: string) {
    Includes(Lower(message), "timed out")
  }

  predicate Includes(text: string, needle: string) {
    exists i :: 0 <= i <= |text| - |needle| && text[i..][..|needle|] == needle
  }

  function MissingMessage(key: string): string {
    "missing translation for " + key
  }

  /** The loop over the items of one reply: the first item without a usable translation fails it. */
  function Collect(reply: Reply, items: Batch): Result {
    match reply
    case Error(message) => Failed(message)
    case Object(values) =>
      if items == [] then Translated(map[])
      else
        var rest := Collect(reply, items[..|items| - 1]);
        var key := items[|items| - 1].key;
        if rest.Failed? then rest
        else if key !in values || Blank(values[key]) then Failed(MissingMessage(key))
        else Translated(rest.values[key := values[key]])
  }

  /** The outcome of a batch whose next prompt has number `n`, and the number of the prompt after
      it.  `attempt` counts the prompts already spent on this very batch. */
  function Translate(child: Oracle, n: nat, items: Batch, attempt: nat): (Result, nat)
    requires attempt < TRANSLATE_MAX_ATTEMPTS
    decreases |items|, TRANSLATE_MAX_ATTEMPTS - attempt
  {
    var result := Collect(child(n, items), items);
    if result.Translated? then (result, n + 1)
    else if IsPromptTimeoutError(result.message) then
      if |items| > 1 then TranslateHalves(child, n + 1, items) else (result, n + 1)
    else if attempt + 1 < TRANSLATE_MAX_ATTEMPTS then Translate(child, n + 1, items, attempt + 1)
    else (result, n + 1)
  }

  function Midpoint(items: Batch): nat {
    (|items| + 1) / 2
  }

  function TranslateHalves(child: Oracle, n: nat, items: Batch): (Result, nat)
    requires |items| > 1
    decreases |items|, 0
  {
    var (left, n1) := Translate(child, n, items[..Midpoint(items)], 0);
    if left.Failed? then (left, n1)
    else
      var (right, n2) := Translate(child, n1, items[Midpoint(items)..], 0);
      if right.Failed? then (right, n2) else (Translated(left.values + right.values), n2)
  }

  function Keys(items: Batch): set<string> {
    set i | 0 <= i < |items| :: items[i].key
  }

  lemma {:induction false} CollectComplete(reply: Reply, items: Batch)
    requires Collect(reply, items).Translated?
    ensures reply.Object? && Collect(reply, items).values.Keys == Keys(items)
    ensures forall key :: key in Keys(items) ==>
                            && key in reply.values && !Blank(reply.values[key])
                            && Collect(reply, items).values[key] == reply.values[key]
    decreases |items|
  {
    if items != [] {
      var init := items[..|items| - 1];
      CollectComplete(reply, init);
      assert Keys(items) == Keys(init) + {items[|items| - 1].key};
    }
  }

  /** A batch that comes back has a non-blank translation for each of its keys and no other. */
  lemma {:induction false} TranslatedIsComplete(child: Oracle, n: nat, items: Batch, attempt: nat)
    requires attempt < TRANSLATE_MAX_ATTEMPTS
    requires Translate(child, n, items, attempt).0.Translated?
    ensures var values := Translate(child, n, items, attempt).0.values;
            values.Keys == Keys(items) && forall key :: key in values ==> !Blank(values[key])
    decreases |items|, TRANSLATE_MAX_ATTEMPTS - attempt
  {
    var result := Collect(child(n, items), items);
    if result.Translated? {
      CollectComplete(child(n, items), items);
    } else if !IsPromptTimeoutError(result.message) {
      TranslatedIsComplete(child, n + 1, items, attempt + 1);
    } else {
      var left, right := items[..Midpoint(items)], items[Midpoint(items)..];
      TranslatedIsComplete(child, n + 1, left, 0);
      var n1 := Translate(child, n + 1, left, 0).1;
      TranslatedIsComplete(child, n1, right, 0);
      KeysOfHalves(items, Midpoint(items));
    }
  }

  /** A key's translation is the one that some prompt asking for that key was answered with. */
  lemma {:induction false} TranslationComesFromReply(child: Oracle, n: nat, items: Batch, attempt: nat, key: string)
    returns (m: nat, part: Batch)
    requires attempt < TRANSLATE_MAX_ATTEMPTS
    requires Translate(child, n, items, attempt).0.Translated? && key in Translate(child, n, items, attempt).0.values
    ensures n <= m < Translate(child, n, items, attempt).1 && key in Keys(part) && Keys(part) <= Keys(items)
    ensures child(m, part).Object? && key in child(m, part).values
    ensures Translate(child, n, items, attempt).0.values[key] == child(m, part).values[key]
    decreases |items|, TRANSLATE_MAX_ATTEMPTS - attempt
  {
    var result := Collect(child(n, items), items);
    if result.Translated? {
      CollectComplete(child(n, items), items);
      m, part := n, items;
    } else if !IsPromptTimeoutError(result.message) {
      m, part := TranslationComesFromReply(child, n + 1, items, attempt + 1, key);
    } else {
      var left, right := items[..Midpoint(items)], items[Midpoint(items)..];
      var n1 := Translate(child, n + 1, left, 0).1;
      HalvesMeet(child, n, items, attempt);
      if key in Translate(child, n1, right, 0).0.values {
        m, part := TranslationComesFromReply(child, n1, right, 0, key);
      } else {
        m, part := TranslationComesFromReply(child, n + 1, left, 0, key);
      }
    }
  }

  /** A batch that was split after a timeout: the halves' prompts follow one another, and their
      translations are put together. */
  lemma {:induction false} HalvesMeet(child: Oracle, n: nat, items: Batch, attempt: nat)
    requires attempt < TRANSLATE_MAX_ATTEMPTS && Translate(child, n, items, attempt).0.Translated?
    requires Collect(child(n, items), items).Failed? && IsPromptTimeoutError(Collect(child(n, items), items).message)
    ensures |items| > 1
    ensures var left, right := items[..Midpoint(items)], items[Midpoint(items)..];
            var (l, n1) := Translate(child, n + 1, left, 0);
            var (r, n2) := Translate(child, n1, right, 0);
            && n < n1 < n2 && Keys(left) + Keys(right) == Keys(items)
            && l.Translated? && r.Translated? &&
               Translate(child, n, items, attempt) == (Translated(l.values + r.values), n2)
  {
    var left, right := items[..Midpoint(items)], items[Midpoint(items)..];
    AttemptsBounded(child, n + 1, left, 0);
    AttemptsBounded(child, Translate(child, n + 1, left, 0).1, right, 0);
    KeysOfHalves(items, Midpoint(items));
  }

  lemma {:induction false} KeysOfHalves(items: Batch, mid: nat)
    requires mid <= |items|
    ensures Keys(items[..mid]) + Keys(items[mid..]) == Keys(items)
  {
    var left, right := items[..mid], items[mid..];
    forall key | key in Keys(items)
      ensures key in Keys(left) + Keys(right)
    {
      var i :| 0 <= i < |items| && items[i].key == key;
      assert if i < mid then left[i].key == key else right[i - mid].key == key;
    }
  }

  /** Whatever the child does, a batch of `k` items costs between one and 4k-2 prompts. */
  lemma {:induction false} AttemptsBounded(child: Oracle, n: nat, items: Batch, attempt: nat)
    requires attempt < TRANSLATE_MAX_ATTEMPTS && items != []
    ensures n + 1 <= Translate(child, n, items, attempt).1 <= n + 4 * |items| - 2 - attempt
    decreases |items|, TRANSLATE_MAX_ATTEMPTS - attempt
  {
    var result := Collect(child(n, items), items);
    if result.Failed? {
      if !IsPromptTimeoutError(result.message) {
        if attempt + 1 < TRANSLATE_MAX_ATTEMPTS {
          AttemptsBounded(child, n + 1, items, attempt + 1);
        }
      } else if |items| > 1 {
        var left, right := items[..Midpoint(items)], items[Midpoint(items)..];
        AttemptsBounded(child, n + 1, left, 0);
        AttemptsBounded(child, Translate(child, n + 1, left, 0).1, right, 0);
      }
    }
  }

  // ----- which prompts are sent, and when a batch fails

  /** What became of a prompt: all texts came back, it timed out, or it failed in another way. */
  datatype Fate = Usable | Late | Unusable

  function FateOf(result: Result): Fate {
    if result.Translated? then Usable else if IsPromptTimeoutError(result.message) then Late else Unusable
  }

  datatype Sent = Sent(batch: Batch, fate: Fate)

  /** The prompts that a batch costs. */
  ghost function Log(child: Oracle, n: nat, items: Batch, attempt: nat): (log: seq<Sent>)
    requires attempt < TRANSLATE_MAX_ATTEMPTS
    ensures log != [] && log[0].batch == items
    decreases |items|, TRANSLATE_MAX_ATTEMPTS - attempt
  {
    var fate := FateOf(Collect(child(n, items), items));
    [Sent(items, fate)] +
    if fate.Late? && |items| > 1 then LogHalves(child, n + 1, items)
    else if fate.Unusable? && attempt + 1 < TRANSLATE_MAX_ATTEMPTS then Log(child, n + 1, items, attempt + 1)
    else []
  }

  ghost function LogHalves(child: Oracle, n: nat, items: Batch): (log: seq<Sent>)
    requires |items| > 1
    ensures log != [] && log[0].batch == items[..Midpoint(items)]
    decreases |items|, 0
  {
    var (left, n1) := Translate(child, n, items[..Midpoint(items)], 0);
    Log(child, n, items[..Midpoint(items)], 0) +
    if left.Failed? then [] else Log(child, n1, items[Midpoint(items)..], 0)
  }

  /** What comes after the prompt at `j`: a larger batch that has timed out is halved, a single item
      that has is given up; after any other failure the batch is asked for once more, and given up
      when that was the second time. */
  predicate GoesOn(log: seq<Sent>, j: nat, again: bool)
    requires j < |log|
  {
    var isLast, batch := j == |log| - 1, log[j].batch;
    match log[j].fate
    case Usable => true
    case Late =>
      if |batch| > 1 then !isLast && log[j + 1].batch == batch[..Midpoint(batch)] else isLast
    case Unusable =>
      if (if j == 0 then again else log[j - 1].fate.Unusable?) then isLast else !isLast && log[j + 1].batch == batch
  }

  /** Why the prompt at `j` was sent: as the second attempt at a batch, as the first half of a batch
      that has just timed out, or, after a success, as the second half of one that timed out before. */
  predicate HasReason(log: seq<Sent>, j: nat)
    requires 0 < j < |log|
  {
    var before := log[j - 1].batch;
    match log[j - 1].fate
    case Usable => exists i :: 0 <= i < j - 1 && IsSecondHalf(log[j].batch, log[i])
    case Late => |before| > 1 && log[j].batch == before[..Midpoint(before)]
    case Unusable => log[j].batch == before
  }

  predicate IsSecondHalf(batch: Batch, whole: Sent) {
    whole.fate.Late? && |whole.batch| > 1 && batch == whole.batch[Midpoint(whole.batch)..]
  }

  predicate FollowsRules(log: seq<Sent>, again: bool) {
    && (forall j :: 0 <= j < |log| ==> GoesOn(log, j, again))
    && (forall j :: 0 < j < |log| ==> HasReason(log, j))
  }

  /** The part of a log from `at` on, where it says as much as `log`. */
  predicate StandsAt(whole: seq<Sent>, at: nat, log: seq<Sent>) {
    at + |log| <= |whole| && forall i :: at <= i < at + |log| ==> whole[i] == log[i - at]
  }

  lemma PartStands(before: seq<Sent>, log: seq<Sent>, after: seq<Sent>)
    ensures StandsAt(before + log + after, |before|, log)
  {
  }

  lemma {:induction false} GoesOnInside(whole: seq<Sent>, at: nat, log: seq<Sent>, j: nat, again: bool, first: bool)
    requires StandsAt(whole, at, log) && j < |log| && GoesOn(log, j, again)
    requires |whole| > at + |log| ==> log[|log| - 1].fate.Usable?
    requires again == if at == 0 then first else whole[at - 1].fate.Unusable?
    ensures GoesOn(whole, at + j, first)
  {
    assert whole[at + j] == log[j];
    assert j > 0 ==> whole[at + j - 1] == log[j - 1];
    assert j < |log| - 1 ==> whole[at + j + 1] == log[j + 1];
  }

  lemma {:induction false} ReasonInside(whole: seq<Sent>, at: nat, log: seq<Sent>, j: nat)
    requires StandsAt(whole, at, log) && 0 < j < |log| && HasReason(log, j)
    ensures HasReason(whole, at + j)
  {
    assert whole[at + j] == log[j] && whole[at + j - 1] == log[j - 1];
    if log[j - 1].fate.Usable? {
      var i :| 0 <= i < j - 1 && IsSecondHalf(log[j].batch, log[i]);
      assert IsSecondHalf(whole[at + j].batch, whole[at + i]);
    }
  }

  /** The rules for a part of a log, behind whose end something follows only after a success. */
  lemma {:induction false} RulesInside(before: seq<Sent>, log: seq<Sent>, after: seq<Sent>, j: nat, again: bool,
                                       first: bool)
    requires j < |log| && FollowsRules(log, again)
    requires after != [] ==> log[|log| - 1].fate.Usable?
    requires again == if before == [] then first else before[|before| - 1].fate.Unusable?
    ensures GoesOn(before + log + after, |before| + j, first)
    ensures j > 0 ==> HasReason(before + log + after, |before| + j)
  {
    PartStands(before, log, after);
    GoesOnInside(before + log + after, |before|, log, j, again, first);
    if j > 0 {
      ReasonInside(before + log + after, |before|, log, j);
    }
  }

  /** A batch asked for once more. */
  lemma {:induction false} RetryRules(first: Sent, log: seq<Sent>)
    requires first.fate.Unusable? && log != [] && log[0].batch == first.batch && FollowsRules(log, true)
    ensures FollowsRules([first] + log, false)
  {
    var whole := [first] + log;
    assert whole == [first] + log + [];
    forall j | 0 < j < |whole|
      ensures GoesOn(whole, j, false) && HasReason(whole, j)
    {
      RulesInside([first], log, [], j - 1, true, false);
    }
  }

  /** A batch that timed out: its first half, and behind it, unless that fails, its second half. */
  lemma {:induction false} HalvesRules(first: Sent, left: seq<Sent>, right: seq<Sent>, again: bool)
    requires first.fate.Late? && |first.batch| > 1
    requires left != [] && left[0].batch == first.batch[..Midpoint(first.batch)] && FollowsRules(left, false)
    requires right != [] ==> left[|left| - 1].fate.Usable? && right[0].batch == first.batch[Midpoint(first.batch)..]
    requires FollowsRules(right, false)
    ensures FollowsRules([first] + (left + right), again)
  {
    var whole := [first] + (left + right);
    assert whole == [first] + left + right == ([first] + left) + right + [];
    forall j | 0 < j < |whole|
      ensures GoesOn(whole, j, again) && HasReason(whole, j)
    {
      if j <= |left| {
        RulesInside([first], left, right, j - 1, false, again);
      } else {
        RulesInside([first] + left, right, [], j - 1 - |left|, false, again);
        assert IsSecondHalf(right[0].batch, whole[0]);
      }
    }
  }

  /** The log says what became of the prompts from number `n` on. */
  predicate IsTrue(child: Oracle, n: nat, log: seq<Sent>) {
    forall j :: 0 <= j < |log| ==> log[j].fate == FateOf(Collect(child(n + j, log[j].batch), log[j].batch))
  }

  lemma {:induction false} TrueTogether(child: Oracle, n: nat, a: seq<Sent>, b: seq<Sent>)
    requires IsTrue(child, n, a) && IsTrue(child, n + |a|, b)
    ensures IsTrue(child, n, a + b)
  {
    forall j | 0 <= j < |a + b|
      ensures var sent := (a + b)[j]; sent.fate == FateOf(Collect(child(n + j, sent.batch), sent.batch))
    {
      if j >= |a| {
        assert (a + b)[j] == b[j - |a|] && n + j == n + |a| + (j - |a|);
      }
    }
  }

  /** The last prompt decides: a batch fails exactly when that prompt does, with its message. */
  predicate LastDecides(child: Oracle, n: nat, log: seq<Sent>, result: Result, next: nat) {
    && log != [] && next == n + |log|
    && var last := log[|log| - 1];
    if last.fate.Usable? then result.Translated? else result == Collect(child(next - 1, last.batch), last.batch)
  }

  /** A log of prompts that were sent by the rules, and the outcome that the last of them decides. */
  predicate IsOrderly(child: Oracle, n: nat, log: seq<Sent>, again: bool, outcome: (Result, nat)) {
    FollowsRules(log, again) && IsTrue(child, n, log) && LastDecides(child, n, log, outcome.0, outcome.1)
  }

  lemma {:induction false} SingleIsOrderly(child: Oracle, n: nat, items: Batch, again: bool)
    requires var fate := FateOf(Collect(child(n, items), items));
             fate.Usable? || (fate.Late? && |items| <= 1) || (fate.Unusable? && again)
    ensures var result := Collect(child(n, items), items);
            IsOrderly(child, n, [Sent(items, FateOf(result))], again, (result, n + 1))
  {
  }

  lemma {:induction false} RetryIsOrderly(child: Oracle, n: nat, items: Batch, log: seq<Sent>, outcome: (Result, nat))
    requires FateOf(Collect(child(n, items), items)).Unusable?
    requires log != [] && log[0].batch == items && IsOrderly(child, n + 1, log, true, outcome)
    ensures IsOrderly(child, n, [Sent(items, Unusable)] + log, false, outcome)
  {
    RetryRules(Sent(items, Unusable), log);
    TrueTogether(child, n, [Sent(items, Unusable)], log);
  }

  /** The first half of a batch that timed out failed. */
  lemma {:induction false} HalfIsOrderly(child: Oracle, n: nat, items: Batch, left: seq<Sent>, outcome: (Result, nat),
                                         again: bool)
    requires FateOf(Collect(child(n, items), items)).Late? && |items| > 1
    requires left != [] && left[0].batch == items[..Midpoint(items)] && IsOrderly(child, n + 1, left, false, outcome)
    ensures IsOrderly(child, n, [Sent(items, Late)] + left, again, outcome)
  {
    HalfIsSentByRules(items, left, again);
    TrueTogether(child, n, [Sent(items, Late)], left);
    LastIsSame(Sent(items, Late), left);
  }

  lemma {:induction false} HalfIsSentByRules(items: Batch, left: seq<Sent>, again: bool)
    requires |items| > 1 && left != [] && left[0].batch == items[..Midpoint(items)] && FollowsRules(left, false)
    ensures FollowsRules([Sent(items, Late)] + left, again)
  {
    HalvesRules(Sent(items, Late), left, [], again);
    assert left + [] == left;
  }

  lemma LastIsSame(first: Sent, log: seq<Sent>)
    requires log != []
    ensures ([first] + log)[|log|] == log[|log| - 1] && |[first] + log| == 1 + |log|
  {
  }

  /** It came back, and the second half followed. */
  lemma {:induction false} HalvesAreOrderly(child: Oracle, n: nat, items: Batch, left: seq<Sent>, l: (Result, nat),
                                            right: seq<Sent>, r: (Result, nat), result: Result, again: bool)
    requires FateOf(Collect(child(n, items), items)).Late? && |items| > 1 && l.0.Translated?
    requires left != [] && left[0].batch == items[..Midpoint(items)] && IsOrderly(child, n + 1, left, false, l)
    requires right != [] && right[0].batch == items[Midpoint(items)..] && IsOrderly(child, l.1, right, false, r)
    requires if r.0.Failed? then result == r.0 else result.Translated?
    ensures IsOrderly(child, n, [Sent(items, Late)] + (left + right), again, (result, r.1))
  {
    HalvesAreSentByRules(child, n, items, left, l, right, again);
    HalvesAreTrue(child, n, items, left, right);
    HalvesEndWithSecond(child, n, items, left, l, right, r, result);
  }

  lemma {:induction false} HalvesAreSentByRules(child: Oracle, n: nat, items: Batch, left: seq<Sent>, l: (Result, nat),
                                                right: seq<Sent>, again: bool)
    requires |items| > 1 && l.0.Translated? && FollowsRules(left, false) && FollowsRules(right, false)
    requires left != [] && left[0].batch == items[..Midpoint(items)]
    requires right != [] && right[0].batch == items[Midpoint(items)..]
    requires IsTrue(child, n + 1, left) && LastDecides(child, n + 1, left, l.0, l.1)
    ensures FollowsRules([Sent(items, Late)] + (left + right), again)
  {
    ReturnedIsUsable(child, n + 1, left, l);
    HalvesRules(Sent(items, Late), left, right, again);
  }

  lemma {:induction false} HalvesEndWithSecond(child: Oracle, n: nat, items: Batch, left: seq<Sent>, l: (Result, nat),
                                               right: seq<Sent>, r: (Result, nat), result: Result)
    requires LastDecides(child, n + 1, left, l.0, l.1)
    requires IsTrue(child, l.1, right) && LastDecides(child, l.1, right, r.0, r.1)
    requires if r.0.Failed? then result == r.0 else result.Translated?
    ensures LastDecides(child, n, [Sent(items, Late)] + (left + right), result, r.1)
  {
    LastOfTail(child, l.1, right, r, [Sent(items, Late)] + left, result);
    assert ([Sent(items, Late)] + left) + right == [Sent(items, Late)] + (left + right);
  }

  lemma {:induction false} HalvesAreTrue(child: Oracle, n: nat, items: Batch, left: seq<Sent>, right: seq<Sent>)
    requires FateOf(Collect(child(n, items), items)).Late?
    requires IsTrue(child, n + 1, left) && IsTrue(child, n + 1 + |left|, right)
    ensures IsTrue(child, n, [Sent(items, Late)] + (left + right))
  {
    TrueTogether(child, n + 1, left, right);
    TrueTogether(child, n, [Sent(items, Late)], left + right);
  }

  lemma {:induction false} ReturnedIsUsable(child: Oracle, n: nat, log: seq<Sent>, outcome: (Result, nat))
    requires IsTrue(child, n, log) && LastDecides(child, n, log, outcome.0, outcome.1) && outcome.0.Translated?
    ensures log[|log| - 1].fate.Usable?
  {
    assert log[|log| - 1].fate == FateOf(Collect(child(n + (|log| - 1), log[|log| - 1].batch), log[|log| - 1].batch));
  }

  lemma {:induction false} LastOfTail(child: Oracle, n: nat, log: seq<Sent>, outcome: (Result, nat), before: seq<Sent>,
                                      result: Result)
    requires n >= |before| && IsTrue(child, n, log) && LastDecides(child, n, log, outcome.0, outcome.1)
    requires if outcome.0.Failed? then result == outcome.0 else result.Translated?
    ensures LastDecides(child, n - |before|, before + log, result, outcome.1)
  {
    var last := log[|log| - 1];
    assert (before + log)[|before + log| - 1] == last;
    assert last.fate == FateOf(Collect(child(n + (|log| - 1), last.batch), last.batch));
  }

  lemma {:induction false} LogAfterFailure(child: Oracle, n: nat, items: Batch, attempt: nat)
    requires attempt + 1 < TRANSLATE_MAX_ATTEMPTS && FateOf(Collect(child(n, items), items)).Unusable?
    ensures Log(child, n, items, attempt) == [Sent(items, Unusable)] + Log(child, n + 1, items, attempt + 1)
    ensures Translate(child, n, items, attempt) == Translate(child, n + 1, items, attempt + 1)
  {
  }

  lemma {:induction false} LogAfterTimeout(child: Oracle, n: nat, items: Batch, attempt: nat)
    requires attempt < TRANSLATE_MAX_ATTEMPTS && FateOf(Collect(child(n, items), items)).Late? && |items| > 1
    ensures Log(child, n, items, attempt) == [Sent(items, Late)] + LogHalves(child, n + 1, items)
    ensures Translate(child, n, items, attempt) == TranslateHalves(child, n + 1, items)
  {
  }

  lemma {:induction false} LogOfHalves(child: Oracle, n: nat, items: Batch, first: Batch, second: Batch,
                                       l: (Result, nat))
    requires |items| > 1 && first == items[..Midpoint(items)] && second == items[Midpoint(items)..]
    requires l == Translate(child, n, first, 0)
    ensures if l.0.Failed? then
              LogHalves(child, n, items) == Log(child, n, first, 0) && TranslateHalves(child, n, items) == l
            else
              && LogHalves(child, n, items) == Log(child, n, first, 0) + Log(child, l.1, second, 0)
              && var (r, next) := Translate(child, l.1, second, 0);
              && TranslateHalves(child, n, items).1 == next
              && if r.Failed? then TranslateHalves(child, n, items).0 == r
                 else TranslateHalves(child, n, items).0.Translated?
  {
  }

  /** The prompts for a batch, from the attempt with the given number on. */
  ghost predicate AreOrderly(child: Oracle, n: nat, items: Batch, attempt: nat)
    requires attempt < TRANSLATE_MAX_ATTEMPTS
  {
    IsOrderly(child, n, Log(child, n, items, attempt), attempt > 0, Translate(child, n, items, attempt))
  }

  lemma {:induction false} LastTry(child: Oracle, n: nat, items: Batch, attempt: nat)
    requires attempt < TRANSLATE_MAX_ATTEMPTS
    requires var fate := FateOf(Collect(child(n, items), items));
             || fate.Usable?
             || (fate.Late? && |items| <= 1)
             || (fate.Unusable? && attempt + 1 == TRANSLATE_MAX_ATTEMPTS)
    ensures AreOrderly(child, n, items, attempt)
  {
    SingleIsOrderly(child, n, items, attempt > 0);
  }

  lemma {:induction false} Retried(child: Oracle, n: nat, items: Batch, attempt: nat)
    requires attempt + 1 < TRANSLATE_MAX_ATTEMPTS && FateOf(Collect(child(n, items), items)).Unusable?
    requires AreOrderly(child, n + 1, items, attempt + 1)
    ensures AreOrderly(child, n, items, attempt)
  {
    LogAfterFailure(child, n, items, attempt);
    RetryIsOrderly(child, n, items, Log(child, n + 1, items, attempt + 1), Translate(child, n, items, attempt));
  }

  lemma {:induction false} SplitUp(child: Oracle, n: nat, items: Batch, attempt: nat)
    requires attempt < TRANSLATE_MAX_ATTEMPTS && FateOf(Collect(child(n, items), items)).Late? && |items| > 1
    requires AreOrderly(child, n + 1, items[..Midpoint(items)], 0)
    requires var (left, n1) := Translate(child, n + 1, items[..Midpoint(items)], 0);
             left.Translated? ==> AreOrderly(child, n1, items[Midpoint(items)..], 0)
    ensures AreOrderly(child, n, items, attempt)
  {
    var first, second := items[..Midpoint(items)], items[Midpoint(items)..];
    var left, l := Log(child, n + 1, first, 0), Translate(child, n + 1, first, 0);
    LogAfterTimeout(child, n, items, attempt);
    LogOfHalves(child, n + 1, items, first, second, l);
    if l.0.Failed? {
      HalfIsOrderly(child, n, items, left, l, attempt > 0);
    } else {
      HalvesAreOrderly(child, n, items, left, l, Log(child, l.1, second, 0), Translate(child, l.1, second, 0),
                       TranslateHalves(child, n + 1, items).0, attempt > 0);
    }
  }

  /** The prompts that a batch costs are sent by the rules, and the last of them decides what comes
      of the batch. */
  lemma {:induction false} PromptsFollowRules(child: Oracle, n: nat, items: Batch, attempt: nat)
    requires attempt < TRANSLATE_MAX_ATTEMPTS
    ensures AreOrderly(child, n, items, attempt)
    decreases |items|, TRANSLATE_MAX_ATTEMPTS - attempt
  {
    var fate := FateOf(Collect(child(n, items), items));
    if fate.Unusable? && attempt + 1 < TRANSLATE_MAX_ATTEMPTS {
      PromptsFollowRules(child, n + 1, items, attempt + 1);
      Retried(child, n, items, attempt);
    } else if fate.Late? && |items| > 1 {
      PromptsFollowRules(child, n + 1, items[..Midpoint(items)], 0);
      var (left, n1) := Translate(child, n + 1, items[..Midpoint(items)], 0);
      if left.Translated? {
        PromptsFollowRules(child, n1, items[Midpoint(items)..], 0);
      }
      SplitUp(child, n, items, attempt);
    } else {
      LastTry(child, n, items, attempt);
    }
  }

  predicate IsPartOf(part: Batch, whole: Batch) {
    |part| < |whole| && exists i :: 0 <= i <= |whole| - |part| && part == whole[i..][..|part|]
  }

  /** The prompt at `j` asks for the whole batch, or for a part of one that has timed out before. */
  ghost predicate IsWholeOrSplit(log: seq<Sent>, items: Batch, j: nat)
    requires j < |log|
  {
    log[j].batch == items || exists i :: 0 <= i < j && log[i].fate.Late? && IsPartOf(log[j].batch, log[i].batch)
  }

  lemma HalfIsPart(whole: Batch)
    requires |whole| > 1
    ensures IsPartOf(whole[..Midpoint(whole)], whole) && IsPartOf(whole[Midpoint(whole)..], whole)
  {
    var first, second := whole[..Midpoint(whole)], whole[Midpoint(whole)..];
    assert first == whole[0..][..|first|];
    assert second == whole[Midpoint(whole)..][..|second|];
  }

  lemma {:induction false} SplitAfterTimeout(log: seq<Sent>, items: Batch, j: nat)
    requires FollowsRules(log, false) && log != [] && log[0].batch == items && j < |log|
    ensures IsWholeOrSplit(log, items, j)
    decreases j
  {
    if j > 0 {
      assert HasReason(log, j);
      var before := log[j - 1];
      match before.fate
      case Unusable => SplitAfterTimeout(log, items, j - 1);
      case Late => HalfIsPart(before.batch);
      case Usable =>
        var i :| 0 <= i < j - 1 && IsSecondHalf(log[j].batch, log[i]);
        HalfIsPart(log[i].batch);
    }
  }

  /** A part of a batch is asked for only after a larger stretch that contains it has timed out. */
  lemma PartsOnlyAfterTimeout(child: Oracle, n: nat, items: Batch)
    ensures var log := Log(child, n, items, 0); forall j :: 0 <= j < |log| ==> IsWholeOrSplit(log, items, j)
  {
    PromptsFollowRules(child, n, items, 0);
    var log := Log(child, n, items, 0);
    forall j | 0 <= j < |log|
      ensures IsWholeOrSplit(log, items, j)
    {
      SplitAfterTimeout(log, items, j);
    }
  }

  /** The last prompt was a single item's and timed out, or the second in a row for its batch to fail
      without a timeout. */
  predicate IsGivenUp(log: seq<Sent>) {
    log != [] &&
    var last := log[|log| - 1];
    match last.fate
    case Usable => false
    case Late => |last.batch| <= 1
    case Unusable => |log| > 1 && log[|log| - 2] == last
  }

  /** A batch fails exactly when a part of it is given up, and then with that prompt's message. */
  lemma FailsExactly(child: Oracle, n: nat, items: Batch)
    ensures var log, (result, next) := Log(child, n, items, 0), Translate(child, n, items, 0);
            && next == n + |log|
            && IsTrue(child, n, log)
            && (result.Failed? <==> IsGivenUp(log))
            && (result.Failed? ==> result == Collect(child(next - 1, log[|log| - 1].batch), log[|log| - 1].batch))
  {
    var log, outcome := Log(child, n, items, 0), Translate(child, n, items, 0);
    PromptsFollowRules(child, n, items, 0);
    if outcome.0.Translated? {
      ReturnedIsUsable(child, n, log, outcome);
    } else {
      GivenUpLast(log);
    }
  }

  lemma GivenUpLast(log: seq<Sent>)
    requires FollowsRules(log, false) && log != [] && !log[|log| - 1].fate.Usable?
    ensures IsGivenUp(log)
  {
    var j := |log| - 1;
    assert GoesOn(log, j, false);
    assert j > 0 ==> HasReason(log, j);
  }

  /** Two failures without a timeout end a batch of any size, with the second message. */
  lemma {:induction false} TwoFailuresEndIt(child: Oracle, n: nat, items: Batch)
    requires FateOf(Collect(child(n, items), items)).Unusable? && FateOf(Collect(child(n + 1, items), items)).Unusable?
    ensures Translate(child, n, items, 0) == (Collect(child(n + 1, items), items), n + 2)
  {
    assert Translate(child, n, items, 0) == Translate(child, n + 1, items, 1);
  }

  predicate IsUsable(reply: Reply, item: Item) {
    reply.Object? && item.key in reply.values && !Blank(reply.values[item.key])
  }

  /** A reply is taken exactly when it has a text for every item; otherwise it fails over the first
      item without one. */
  lemma {:induction false} CollectExactly(reply: Reply, items: Batch)
    requires reply.Object?
    ensures Collect(reply, items).Translated? <==> forall i :: 0 <= i < |items| ==> IsUsable(reply, items[i])
    ensures Collect(reply, items).Failed? ==>
              exists i :: 0 <= i < |items| && !IsUsable(reply, items[i]) &&
                          (forall k :: 0 <= k < i ==> IsUsable(reply, items[k])) &&
                          Collect(reply, items) == Failed("missing translation for " + items[i].key)
    decreases |items|
  {
    if items != [] {
      var init := items[..|items| - 1];
      CollectExactly(reply, init);
      assert forall i :: 0 <= i < |init| ==> init[i] == items[i];
      if Collect(reply, init).Failed? {
        var i :| 0 <= i < |init| && !IsUsable(reply, init[i]) &&
                 (forall k :: 0 <= k < i ==> IsUsable(reply, init[k])) &&
                 Collect(reply, init) == Failed("missing translation for " + init[i].key);
        assert items[i] == init[i];
      }
    }
  }

  // ----- the bound is reached

  datatype Kind = Fail | TimeOut | Answer

  /** A child that answers its prompts as the script says. */
  function Scripted(script: seq<Kind>): Oracle {
    (n: nat, items: Batch) =>
      if n < |script| && script[n] == Fail then Error("no reply")
      else if n < |script| && script[n] == TimeOut then Error("timed out")
      else Object(map key | key in Keys(items) :: "x")
  }

  lemma {:induction false} ScriptedAnswers(reply: Reply, items: Batch)
    requires reply.Object? && forall key :: key in Keys(items) ==> key in reply.values && reply.values[key] == "x"
    ensures Collect(reply, items).Translated?
    decreases |items|
  {
    if items != [] {
      var init := items[..|items| - 1];
      assert Keys(init) <= Keys(items);
      assert items[|items| - 1].key in Keys(items);
      ScriptedAnswers(reply, init);
      assert !Blank("x") by { assert !IsSpace("x"[0]); }
    }
  }

  lemma {:induction false} ErrorKinds()
    ensures IsPromptTimeoutError("timed out") && !IsPromptTimeoutError("no reply")
  {
    var text := Lower("timed out");
    assert text[0..][..|"timed out"|] == "timed out";
    assert |Lower("no reply")| < |"timed out"|;
  }

  lemma {:induction false} Regroup(before: seq<Kind>, left: seq<Kind>, right: seq<Kind>, after: seq<Kind>)
    ensures var script, head := before + ([Fail, TimeOut] + left + right) + after, before + [Fail, TimeOut];
            script == head + left + (right + after) && script == head + left + right + after
  {
  }

  /** The scripted child wastes the first two prompts of a larger batch and one of a single item. */
  lemma {:induction false} FirstTwoPrompts(script: seq<Kind>, n: nat, items: Batch)
    requires items != [] && n + 1 < |script| && script[n] == Fail
    requires script[n + 1] == if |items| == 1 then Answer else TimeOut
    ensures if |items| == 1 then
              && Translate(Scripted(script), n, items, 0).0.Translated?
              && Translate(Scripted(script), n, items, 0).1 == n + 2
            else Translate(Scripted(script), n, items, 0) == TranslateHalves(Scripted(script), n + 2, items)
  {
    var child := Scripted(script);
    ErrorKinds();
    assert child(n, items) == Error("no reply");
    assert Translate(child, n, items, 0) == Translate(child, n + 1, items, 1);
    if |items| == 1 {
      ScriptedAnswers(child(n + 1, items), items);
    } else {
      assert child(n + 1, items) == Error("timed out");
    }
  }

  lemma {:induction false} BeginsWith(script: seq<Kind>, before: seq<Kind>, part: seq<Kind>, after: seq<Kind>)
    requires script == before + part + after && |part| >= 2
    ensures |before| + 1 < |script| && script[|before|] == part[0] && script[|before| + 1] == part[1]
  {
  }

  /** The batch is translated with all the prompts that it can cost. */
  ghost predicate CostsAll(child: Oracle, n: nat, items: Batch)
    requires items != []
  {
    Translate(child, n, items, 0).0.Translated? && Translate(child, n, items, 0).1 == n + 4 * |items| - 2
  }

  lemma {:induction false} BothHalves(child: Oracle, n: nat, items: Batch, n1: nat)
    requires |items| > 1
    requires Translate(child, n, items[..Midpoint(items)], 0).0.Translated? &&
             Translate(child, n, items[..Midpoint(items)], 0).1 == n1
    requires Translate(child, n1, items[Midpoint(items)..], 0).0.Translated?
    ensures TranslateHalves(child, n, items).0.Translated?
    ensures TranslateHalves(child, n, items).1 == Translate(child, n1, items[Midpoint(items)..], 0).1
  {
  }

  lemma {:induction false} HalvesCostAll(child: Oracle, n: nat, items: Batch, n1: nat)
    requires |items| > 1 && Translate(child, n, items, 0) == TranslateHalves(child, n + 2, items)
    requires n1 == n + 4 * Midpoint(items)
    requires CostsAll(child, n + 2, items[..Midpoint(items)]) && CostsAll(child, n1, items[Midpoint(items)..])
    ensures CostsAll(child, n, items)
  {
    BothHalves(child, n + 2, items, n1);
  }

  /** Wherever the part stands in a script, it makes the batch cost all that it can. */
  ghost predicate IsWorst(part: seq<Kind>, items: Batch)
    requires items != []
  {
    |part| == 4 * |items| - 2 &&
    forall before, after :: CostsAll(Scripted(before + part + after), |before|, items)
  }

  lemma {:induction false} WorstSingle(items: Batch, before: seq<Kind>, after: seq<Kind>)
    requires |items| == 1
    ensures CostsAll(Scripted(before + [Fail, Answer] + after), |before|, items)
  {
    var script := before + [Fail, Answer] + after;
    BeginsWith(script, before, [Fail, Answer], after);
    FirstTwoPrompts(script, |before|, items);
  }

  lemma {:induction false} WorstHalves(items: Batch, left: seq<Kind>, right: seq<Kind>, before: seq<Kind>,
                                       after: seq<Kind>)
    requires |items| > 1
    requires IsWorst(left, items[..Midpoint(items)]) && IsWorst(right, items[Midpoint(items)..])
    ensures CostsAll(Scripted(before + ([Fail, TimeOut] + left + right) + after), |before|, items)
  {
    var script, head := before + ([Fail, TimeOut] + left + right) + after, before + [Fail, TimeOut];
    BeginsWith(script, before, [Fail, TimeOut] + left + right, after);
    FirstTwoPrompts(script, |before|, items);
    Regroup(before, left, right, after);
    assert CostsAll(Scripted(head + left + (right + after)), |head|, items[..Midpoint(items)]);
    assert CostsAll(Scripted(head + left + right + after), |head + left|, items[Midpoint(items)..]);
    HalvesCostAll(Scripted(script), |before|, items, |head + left|);
  }

  /** Wasting two prompts on a batch and then the worst on either half is the worst. */
  lemma {:induction false} WorstScript(items: Batch) returns (part: seq<Kind>)
    requires items != []
    ensures IsWorst(part, items)
    decreases |items|
  {
    if |items| == 1 {
      part := [Fail, Answer];
      forall before, after
        ensures CostsAll(Scripted(before + part + after), |before|, items)
      {
        WorstSingle(items, before, after);
      }
    } else {
      var left := WorstScript(items[..Midpoint(items)]);
      var right := WorstScript(items[Midpoint(items)..]);
      part := [Fail, TimeOut] + left + right;
      forall before, after
        ensures CostsAll(Scripted(before + part + after), |before|, items)
      {
        WorstHalves(items, left, right, before, after);
      }
    }
  }

  /** Some child needs all of the 4k-2 prompts, so the bound cannot be lowered. */
  lemma {:induction false} BoundIsReached(items: Batch) returns (child: Oracle)
    requires items != []
    ensures Translate(child, 0, items, 0).0.Translated? && Translate(child, 0, items, 0).1 == 4 * |items| - 2
  {
    var part := WorstScript(items);
    var nothing: seq<Kind> := [];
    child := Scripted(nothing + part + nothing);
    assert CostsAll(child, |nothing|, items);
  }

  // ----- the program

  /** The prompts in `log` have been spent on a batch, and what comes next is the attempt with the
      given number. */
  ghost predicate Spent(child: Oracle, n: nat, items: Batch, log: seq<Sent>, next: nat, attempt: nat)
    requires attempt < TRANSLATE_MAX_ATTEMPTS
  {
    && Translate(child, n, items, 0) == Translate(child, next, items, attempt)
    && Log(child, n, items, 0) == log + Log(child, next, items, attempt)
  }

  /** Nothing more is sent for the batch. */
  ghost predicate Ended(child: Oracle, n: nat, items: Batch, log: seq<Sent>, next: nat, result: Result) {
    Translate(child, n, items, 0) == (result, next) && Log(child, n, items, 0) == log
  }

  /** What is left to do for the batch is what its halves take. */
  ghost predicate Halved(child: Oracle, n: nat, items: Batch, log: seq<Sent>, next: nat) {
    && |items| > 1
    && Translate(child, n, items, 0) == TranslateHalves(child, next, items)
    && Log(child, n, items, 0) == log + LogHalves(child, next, items)
  }

  lemma {:induction false} NothingSpent(child: Oracle, n: nat, items: Batch)
    ensures Spent(child, n, items, [], n, 0)
  {
  }

  /** One more prompt. */
  lemma {:induction false} AttemptSpent(child: Oracle, n: nat, items: Batch, log: seq<Sent>, next: nat, attempt: nat,
                                        result: Result, log': seq<Sent>)
    requires attempt < TRANSLATE_MAX_ATTEMPTS && Spent(child, n, items, log, next, attempt)
    requires result == Collect(child(next, items), items) && log' == log + [Sent(items, FateOf(result))]
    ensures match FateOf(result)
            case Usable => Ended(child, n, items, log', next + 1, result)
            case Late =>
              if |items| > 1 then Halved(child, n, items, log', next + 1)
              else Ended(child, n, items, log', next + 1, result)
            case Unusable =>
              if attempt + 1 < TRANSLATE_MAX_ATTEMPTS then Spent(child, n, items, log', next + 1, attempt + 1)
              else Ended(child, n, items, log', next + 1, result)
  {
    var rest := Log(child, next, items, attempt);
    assert log + rest == log' + rest[1..];
  }

  lemma {:induction false} HalvesEnd(child: Oracle, n: nat, items: Batch, log: seq<Sent>, next: nat, sent: seq<Sent>)
    requires Halved(child, n, items, log, next) && sent == LogHalves(child, next, items)
    ensures var (result, next') := TranslateHalves(child, next, items);
            Ended(child, n, items, log + sent, next', result)
  {
  }

  /** The retry loop with its recursive calls.  It takes the child's replies in order from number
      `n` on, and ends because every batch is split or retried only so often.  `log` is what it has
      asked for. */
  method TranslateBatch(child: Oracle, n: nat, items: Batch) returns (result: Result, next: nat, ghost log: seq<Sent>)
    ensures (result, next) == Translate(child, n, items, 0)
    ensures log == Log(child, n, items, 0)
    decreases |items|, 1
  {
    result, next, log := Failed("translation failed"), n, [];
    NothingSpent(child, n, items);
    var attempt := 0;
    while attempt < TRANSLATE_MAX_ATTEMPTS
      invariant 0 <= attempt <= TRANSLATE_MAX_ATTEMPTS
      invariant if attempt < TRANSLATE_MAX_ATTEMPTS then Spent(child, n, items, log, next, attempt)
                else Ended(child, n, items, log, next, result)
    {
      ghost var before := log;
      result := CollectReply(child(next, items), items);
      log := log + [Sent(items, FateOf(result))];
      AttemptSpent(child, n, items, before, next, attempt, result, log);
      next := next + 1;
      if result.Translated? {
        return;
      }
      if IsPromptTimeoutError(result.message) && |items| > 1 {
        ghost var sent, from := [], next;
        result, next, sent := TranslateInHalves(child, next, items);
        HalvesEnd(child, n, items, log, from, sent);
        log := log + sent;
        return;
      }
      if IsPromptTimeoutError(result.message) {
        break;
      }
      attempt := attempt + 1;
    }
  }

  /** The two recursive calls after a timeout. */
  method TranslateInHalves(child: Oracle, n: nat, items: Batch)
    returns (result: Result, next: nat, ghost log: seq<Sent>)
    requires |items| > 1
    ensures (result, next) == TranslateHalves(child, n, items)
    ensures log == LogHalves(child, n, items)
    decreases |items|, 0
  {
    var midpoint := (|items| + 1) / 2;
    var left, right;
    ghost var sent;
    left, next, log := TranslateBatch(child, n, items[..midpoint]);
    if left.Failed? {
      return left, next, log;
    }
    right, next, sent := TranslateBatch(child, next, items[midpoint..]);
    log := log + sent;
    if right.Failed? {
      return right, next, log;
    }
    return Translated(left.values + right.values), next, log;
  }

  method CollectReply(reply: Reply, items: Batch) returns (result: Result)
    ensures result == Collect(reply, items)
  {
    if reply.Error? {
      return Failed(reply.message);
    }
    var translated: map<string, string> := map[];
    for i := 0 to |items|
      invariant Collect(reply, items[..i]) == Translated(translated)
    {
      assert items[..i + 1][..i] == items[..i];
      var key := items[i].key;
      if key !in reply.values || Blank(reply.values[key]) {
        CollectStops(reply, items, i + 1);
        return Failed(MissingMessage(key));
      }
      translated := translated[key := reply.values[key]];
    }
    assert items[..|items|] == items;
    return Translated(translated);
  }

  lemma {:induction false} CollectStops(reply: Reply, items: Batch, i: nat)
    requires i <= |items| && Collect(reply, items[..i]).Failed?
    ensures Collect(reply, items) == Collect(reply, items[..i])
    decreases |items|
  {
    if i == |items| {
      assert items[..i] == items;
    } else if reply.Object? {
      var init := items[..|items| - 1];
      assert init[..i] == items[..i];
      CollectStops(reply, init, i);
    }
  }
}
