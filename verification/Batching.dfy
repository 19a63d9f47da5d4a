/** Packing translation items into prompts (`estimateBatchChars`, `buildTranslationBatches` in
    scripts/control-ui-i18n.ts). */
module Batching {
  datatype Item = Item(cacheKey: string, key: string, text: string, textHash: string)
  type Batch = seq<Item>

  const MAX_BATCH_ITEMS := 20

  function EstimateBatchChars(items: Batch): nat {
    if items == [] then 2
    else EstimateBatchChars(items[..|items| - 1]) + |items[|items| - 1].key| + |items[|items| - 1].text| + 8
  }

  /** What the packing loop adds up for a batch: each item is charged the two framing characters
      once more. */
  function Cost(items: Batch): nat {
    if items == [] then 2 else Cost(items[..|items| - 1]) + EstimateBatchChars([items[|items| - 1]])
  }

  /** A prompt that may be sent: at most twenty items, and within the budget unless it is a single
      item.  All totals are whole numbers, so `budget` is the configured budget rounded down. */
  predicate Fits(batch: Batch, budget: nat) {
    1 <= |batch| <= MAX_BATCH_ITEMS && (|batch| == 1 || Cost(batch) <= budget)
  }

  function Concat(batches: seq<Batch>): Batch {
    if batches == [] then [] else batches[0] + Concat(batches[1..])
  }

  /** A way to cut `items`, in order, into batches that fit. */
  predicate IsSplit(batches: seq<Batch>, items: Batch, budget: nat) {
    Concat(batches) == items && forall i :: 0 <= i < |batches| ==> Fits(batches[i], budget)
  }

  /** No batch has room for the item that opens the next one. */
  predicate Tight(batches: seq<Batch>, budget: nat) {
    forall i :: 0 <= i < |batches| - 1 && batches[i + 1] != [] ==> !Fits(batches[i] + [batches[i + 1][0]], budget)
  }

  lemma PartFits(batch: Batch, from: nat, to: nat, budget: nat)
    requires Fits(batch, budget) && from < to <= |batch|
    ensures Fits(batch[from..to], budget)
  {
    CostOfPart(batch, from, to);
  }

  lemma {:induction false} CostOfPart(items: Batch, from: nat, to: nat)
    requires from <= to <= |items|
    ensures Cost(items[from..to]) <= Cost(items)
    decreases |items|
  {
    if from == to {
      CostAtLeast(items);
    } else if to < |items| {
      assert items[from..to] == items[..|items| - 1][from..to];
      CostOfPart(items[..|items| - 1], from, to);
    } else {
      var init := items[..|items| - 1];
      assert items[from..to][..to - from - 1] == init[from..to - 1];
      CostOfPart(init, from, to - 1);
    }
  }

  lemma {:induction false} CostAtLeast(items: Batch)
    ensures 2 <= Cost(items)
    decreases |items|
  {
    if items != [] {
      CostAtLeast(items[..|items| - 1]);
    }
  }

  /** The estimate that callers know never exceeds what the loop charged. */
  lemma {:induction false} EstimateWithinCost(items: Batch)
    ensures EstimateBatchChars(items) + 2 * |items| == Cost(items)
    decreases |items|
  {
    if items != [] {
      EstimateWithinCost(items[..|items| - 1]);
      var last := [items[|items| - 1]];
      assert last[..0] == [];
      assert EstimateBatchChars(last) == EstimateBatchChars([]) + |last[0].key| + |last[0].text| + 8;
    }
  }

  /** Everything that a prompt for the batch spells out, one item after the other. */
  function Spelled(items: Batch): string {
    if items == [] then "" else Spelled(items[..|items| - 1]) + items[|items| - 1].key + items[|items| - 1].text
  }

  /** The estimate in closed form: two framing characters, eight for each item, and the characters of
      all keys and texts. */
  lemma {:induction false} EstimateIs(items: Batch)
    ensures EstimateBatchChars(items) == 2 + 8 * |items| + |Spelled(items)|
    decreases |items|
  {
    if items != [] {
      EstimateIs(items[..|items| - 1]);
    }
  }

  /** A batch may be sent exactly when it is a single item, or has two to twenty items whose
      characters, with ten for each item and two for the whole, stay within the budget. */
  lemma FitsExactly(batch: Batch, budget: nat)
    ensures Fits(batch, budget) <==>
            |batch| == 1 || (2 <= |batch| <= 20 && 2 + 10 * |batch| + |Spelled(batch)| <= budget)
  {
    EstimateIs(batch);
    EstimateWithinCost(batch);
  }

  lemma {:induction false} ConcatAppend(batches: seq<Batch>, last: Batch)
    ensures Concat(batches + [last]) == Concat(batches) + last
    decreases |batches|
  {
    if batches == [] {
      assert [] + [last] == [last];
      assert [last][1..] == [];
    } else {
      assert (batches + [last])[1..] == batches[1..] + [last];
      ConcatAppend(batches[1..], last);
    }
  }

  /** A tight split that covers only the end of what another split covers needs no more batches. */
  lemma {:induction false} TightIsFewest(tight: seq<Batch>, other: seq<Batch>, skip: nat, budget: nat)
    requires forall i :: 0 <= i < |tight| ==> Fits(tight[i], budget)
    requires forall i :: 0 <= i < |other| ==> Fits(other[i], budget)
    requires Tight(tight, budget)
    requires skip <= |Concat(other)| && Concat(other)[skip..] == Concat(tight)
    ensures |tight| <= |other|
    decreases |other|
  {
    if tight != [] {
      var first, rest := tight[0], tight[1..];
      assert Concat(tight) == first + Concat(rest);
      assert other != [];
      var head := other[0];
      assert Concat(other) == head + Concat(other[1..]);
      if |head| <= skip {
        assert Concat(other[1..])[skip - |head|..] == Concat(tight);
        TightIsFewest(tight, other[1..], skip - |head|, budget);
      } else {
        var shared := |head| - skip;
        if shared > |first| {
          HeadTooLong(tight, head, skip, other, budget);
        }
        assert Concat(other[1..]) == Concat(tight)[shared..];
        assert Concat(rest) == Concat(tight)[|first|..];
        assert Concat(other[1..])[|first| - shared..] == Concat(rest);
        forall i | 0 <= i < |rest| - 1 && rest[i + 1] != []
          ensures !Fits(rest[i] + [rest[i + 1][0]], budget)
        {
          assert !Fits(tight[i + 1] + [tight[i + 2][0]], budget);
        }
        TightIsFewest(rest, other[1..], |first| - shared, budget);
      }
    }
  }

  /** A fitting batch cannot hold the whole first tight batch and the item after it. */
  lemma {:induction false} HeadTooLong(tight: seq<Batch>, head: Batch, skip: nat, other: seq<Batch>, budget: nat)
    requires other != [] && other[0] == head && Fits(head, budget) && tight != []
    requires forall i :: 0 <= i < |tight| ==> Fits(tight[i], budget)
    requires Tight(tight, budget)
    requires skip < |head| && Concat(other)[skip..] == Concat(tight)
    ensures |head| - skip <= |tight[0]|
  {
    var first := tight[0];
    if |head| - skip > |first| {
      assert Concat(tight) == first + Concat(tight[1..]);
      assert Concat(other) == head + Concat(other[1..]);
      assert |Concat(tight)| >= |head| - skip;
      assert |tight| > 1;
      assert Concat(tight[1..]) == tight[1] + Concat(tight[1..][1..]);
      var longer := first + [tight[1][0]];
      var end := skip + |first| + 1;
      assert longer == Concat(tight)[..|first| + 1];
      assert head[skip..end] == Concat(other)[skip..][..|first| + 1];
      PartFits(head, skip, end, budget);
      assert false;
    }
  }

  lemma CostOfNext(current: Batch, item: Item)
    ensures Cost(current + [item]) == Cost(current) + EstimateBatchChars([item])
  {
    assert (current + [item])[..|current|] == current;
  }

  /** The state of the packing loop: the items done so far are in full batches and the current one. */
  ghost predicate Packed(batches: seq<Batch>, current: Batch, currentChars: nat, done: Batch, budget: nat) {
    && (current == [] ==> batches == [])
    && Concat(batches) + current == done
    && (forall j :: 0 <= j < |batches| ==> Fits(batches[j], budget))
    && (current != [] ==> Fits(current, budget) && Tight(batches + [current], budget))
    && currentChars == Cost(current)
  }

  lemma PackGrows(batches: seq<Batch>, current: Batch, currentChars: nat, done: Batch, item: Item, budget: nat)
    requires Packed(batches, current, currentChars, done, budget) && (current == [] || Fits(current + [item], budget))
    ensures Packed(batches, current + [item], currentChars + EstimateBatchChars([item]), done + [item], budget)
  {
    CostOfNext(current, item);
    if current != [] {
      TightGrow(batches, current, item, budget);
    }
    assert Concat(batches) + (current + [item]) == done + [item];
  }

  lemma PackStarts(batches: seq<Batch>, current: Batch, currentChars: nat, done: Batch, item: Item, budget: nat)
    requires Packed(batches, current, currentChars, done, budget) && current != [] && !Fits(current + [item], budget)
    ensures Packed(batches + [current], [item], 2 + EstimateBatchChars([item]), done + [item], budget)
  {
    TightAppend(batches, current, item, budget);
    ConcatAppend(batches, current);
    CostOfNext([], item);
    assert [] + [item] == [item];
  }

  lemma WhetherFits(current: Batch, item: Item, budget: nat)
    requires current != []
    ensures Fits(current + [item], budget) <==>
            |current| < MAX_BATCH_ITEMS && Cost(current) + EstimateBatchChars([item]) <= budget
  {
    CostOfNext(current, item);
  }

  /** At the end of the loop the current batch, if any, is the last one. */
  lemma PackedIsSplit(batches: seq<Batch>, current: Batch, currentChars: nat, items: Batch, budget: nat)
    requires Packed(batches, current, currentChars, items, budget)
    ensures var all := if current == [] then batches else batches + [current];
            IsSplit(all, items, budget) && forall other :: IsSplit(other, items, budget) ==> |all| <= |other|
  {
    var all := if current == [] then batches else batches + [current];
    ConcatAppend(batches, current);
    forall other | IsSplit(other, items, budget)
      ensures |all| <= |other|
    {
      TightIsFewest(all, other, 0, budget);
    }
  }

  lemma PackNothing(items: Batch, budget: nat)
    ensures Packed([], [], 2, items[..0], budget)
  {
  }

  lemma NextItem(items: Batch, i: nat)
    requires i < |items|
    ensures items[..i + 1] == items[..i] + [items[i]]
  {
  }

  /** One turn of the packing loop: the item joins the current batch, or begins a new one. */
  method PackItem(before: seq<Batch>, open: Batch, openChars: nat, ghost done: Batch, item: Item, budget: nat)
    returns (batches: seq<Batch>, current: Batch, currentChars: nat)
    requires Packed(before, open, openChars, done, budget)
    ensures Packed(batches, current, currentChars, done + [item], budget)
  {
    batches, current, currentChars := before, open, openChars;
    var itemChars := EstimateBatchChars([item]);
    var wouldOverflow := |current| > 0 && currentChars + itemChars > budget;
    var reachedMaxItems := |current| >= MAX_BATCH_ITEMS;
    if current != [] {
      WhetherFits(current, item, budget);
    }
    if wouldOverflow || reachedMaxItems {
      PackStarts(batches, current, currentChars, done, item, budget);
      batches := batches + [current];
      current := [];
      currentChars := 2;
      assert [] + [item] == [item];
    } else {
      PackGrows(batches, current, currentChars, done, item, budget);
    }
    current := current + [item];
    currentChars := currentChars + itemChars;
  }

  /** The packing loop cuts the items, in order, into fitting batches, and no other way of doing so
      uses fewer batches. */
  method BuildTranslationBatches(items: Batch, budget: nat) returns (batches: seq<Batch>)
    ensures IsSplit(batches, items, budget)
    ensures forall other :: IsSplit(other, items, budget) ==> |batches| <= |other|
  {
    batches := [];
    var current: Batch := [];
    var currentChars: nat := 2;
    PackNothing(items, budget);
    for i := 0 to |items|
      invariant Packed(batches, current, currentChars, items[..i], budget)
    {
      NextItem(items, i);
      batches, current, currentChars := PackItem(batches, current, currentChars, items[..i], items[i], budget);
    }
    assert items[..|items|] == items;
    PackedIsSplit(batches, current, currentChars, items, budget);
    if |current| > 0 {
      batches := batches + [current];
    }
  }

  lemma TightAppend(batches: seq<Batch>, current: Batch, item: Item, budget: nat)
    requires forall j :: 0 <= j < |batches| ==> batches[j] != []
    requires current != [] && Tight(batches + [current], budget) && !Fits(current + [item], budget)
    ensures Tight(batches + [current] + [[item]], budget)
  {
    var before, after := batches + [current], batches + [current] + [[item]];
    forall i | 0 <= i < |after| - 1 && after[i + 1] != []
      ensures !Fits(after[i] + [after[i + 1][0]], budget)
    {
      assert i < |batches| ==> after[i] == before[i] && after[i + 1] == before[i + 1];
    }
  }

  lemma TightGrow(batches: seq<Batch>, current: Batch, item: Item, budget: nat)
    requires forall j :: 0 <= j < |batches| ==> batches[j] != []
    requires current != [] && Tight(batches + [current], budget)
    ensures Tight(batches + [current + [item]], budget)
  {
    var before, after := batches + [current], batches + [current + [item]];
    forall i | 0 <= i < |after| - 1 && after[i + 1] != []
      ensures !Fits(after[i] + [after[i + 1][0]], budget)
    {
      assert after[i] == before[i] && after[i + 1][0] == before[i + 1][0];
    }
  }
}
