/** Cutting the pending translations into batches for one prompt each. */
module TranslationBatches {

  datatype Item = Item(cacheKey: string, key: string, text: string, textHash: string)

  const MAX_BATCH_ITEMS := 20

  /** `estimateBatchChars` */
  function EstimateBatchChars(items: seq<Item>): nat {
    if items == [] then 2
    else EstimateBatchChars(items[..|items| - 1]) + |items[|items| - 1].key| + |items[|items| - 1].text| + 8
  }

  /** The running count of the loop: it charges the surrounding braces once more for every item. */
  function RunningChars(items: seq<Item>): nat {
    if items == [] then 2 else RunningChars(items[..|items| - 1]) + EstimateBatchChars([items[|items| - 1]])
  }

  function Concat(batches: seq<seq<Item>>): seq<Item> {
    if batches == [] then [] else batches[0] + Concat(batches[1..])
  }

  /** `item` may join the current batch. */
  ghost predicate MayJoin(batch: seq<Item>, item: Item, budget: real) {
    batch == [] || (|batch| < MAX_BATCH_ITEMS && (RunningChars(batch) + EstimateBatchChars([item])) as real <= budget)
  }

  /** Every item of a batch joined what was before it. */
  ghost predicate Admissible(batch: seq<Item>, budget: real) {
    batch != [] && forall j :: 0 <= j < |batch| ==> MayJoin(batch[..j], batch[j], budget)
  }

  /** The items in order, in admissible batches, each closed only because the next item could not join. */
  ghost predicate IsGreedy(items: seq<Item>, batches: seq<seq<Item>>, budget: real) {
    && Concat(batches) == items
    && (forall i :: 0 <= i < |batches| ==> Admissible(batches[i], budget))
    && (forall i, j :: 0 <= i < j < |batches| && j == i + 1 ==> Forced(batches[i], batches[j], budget))
  }

  ghost predicate Forced(batch: seq<Item>, next: seq<Item>, budget: real) {
    next != [] ==> !MayJoin(batch, next[0], budget)
  }

  lemma {:induction false} ConcatSnoc(batches: seq<seq<Item>>, last: seq<Item>)
    ensures Concat(batches + [last]) == Concat(batches) + last
    decreases |batches|
  {
    if batches == [] {
      assert [last][1..] == [];
    } else {
      assert (batches + [last])[1..] == batches[1..] + [last];
      ConcatSnoc(batches[1..], last);
    }
  }

  lemma {:induction false} AdmissibleGrows(batch: seq<Item>, item: Item, budget: real)
    requires (batch == [] || Admissible(batch, budget)) && MayJoin(batch, item, budget)
    ensures Admissible(batch + [item], budget)
    ensures RunningChars(batch + [item]) == RunningChars(batch) + EstimateBatchChars([item])
  {
    hide MayJoin;
    var b := batch + [item];
    assert b[..|batch|] == batch;
    forall j | 0 <= j < |b| ensures MayJoin(b[..j], b[j], budget) {
      if j < |batch| {
        assert b[..j] == batch[..j];
      }
    }
  }

  /** What the loop has done with the items so far. */
  ghost predicate Batching(items: seq<Item>, batches: seq<seq<Item>>, current: seq<Item>, budget: real) {
    && (current == [] ==> items == [])
    && if current == [] then batches == [] else IsGreedy(items, batches + [current], budget)
  }

  lemma {:induction false} ItemJoins(items: seq<Item>, batches: seq<seq<Item>>, current: seq<Item>, item: Item, budget: real)
    requires Batching(items, batches, current, budget) && MayJoin(current, item, budget)
    ensures Batching(items + [item], batches, current + [item], budget)
  {
    hide RunningChars, EstimateBatchChars, MayJoin, Admissible;
    var before, after := batches + [current], batches + [current + [item]];
    ConcatSnoc(batches, current);
    ConcatSnoc(batches, current + [item]);
    assert Concat(batches) + (current + [item]) == Concat(batches) + current + [item];
    if current == [] {
      AdmissibleGrows([], item, budget);
    } else {
      assert before[|batches|] == current;
      AdmissibleGrows(current, item, budget);
    }
    forall i | 0 <= i < |after| ensures Admissible(after[i], budget) {
      assert i < |batches| ==> after[i] == before[i];
    }
    forall i, j | 0 <= i < j < |after| && j == i + 1 ensures Forced(after[i], after[j], budget) {
      assert after[i] == before[i];
      assert Forced(before[i], before[j], budget);
      assert j < |batches| ==> after[j] == before[j];
      assert current != [];
    }
  }

  lemma {:induction false} ItemOpensBatch(items: seq<Item>, batches: seq<seq<Item>>, current: seq<Item>, item: Item, budget: real)
    requires Batching(items, batches, current, budget) && current != [] && !MayJoin(current, item, budget)
    ensures Batching(items + [item], batches + [current], [item], budget)
  {
    hide RunningChars, EstimateBatchChars, MayJoin, Admissible;
    var before, after := batches + [current], batches + [current] + [[item]];
    ConcatSnoc(before, [item]);
    assert MayJoin([], item, budget) by {
      EmptyMayJoin(item, budget);
    }
    AdmissibleGrows([], item, budget);
    assert [] + [item] == [item];
    forall i | 0 <= i < |after| ensures Admissible(after[i], budget) {
      assert i < |before| ==> after[i] == before[i];
    }
    forall i, j | 0 <= i < j < |after| && j == i + 1 ensures Forced(after[i], after[j], budget) {
      assert after[i] == before[i];
      if j < |before| {
        assert Forced(before[i], before[j], budget);
        assert after[j] == before[j];
      }
    }
  }

  lemma {:induction false} EmptyMayJoin(item: Item, budget: real)
    ensures MayJoin([], item, budget)
  {
  }

  /** `buildTranslationBatches`, for any budget. */
  method BuildTranslationBatches(items: seq<Item>, budget: real) returns (batches: seq<seq<Item>>)
    ensures IsGreedy(items, batches, budget)
  {
    hide RunningChars, EstimateBatchChars, Admissible, Batching, IsGreedy;
    batches := [];
    var current: seq<Item> := [];
    var currentChars := 2;
    BatchingStarts(budget);
    for k := 0 to |items|
      invariant Batching(items[..k], batches, current, budget)
      invariant currentChars == RunningChars(current)
    {
      var item := items[k];
      var itemChars := EstimateBatchChars([item]);
      var wouldOverflow := |current| > 0 && (currentChars + itemChars) as real > budget;
      var reachedMaxItems := |current| >= MAX_BATCH_ITEMS;
      assert items[..k + 1] == items[..k] + [item];
      RunningSnoc(current, item);
      RunningSnoc([], item);
      if wouldOverflow || reachedMaxItems {
        ItemOpensBatch(items[..k], batches, current, item, budget);
        batches := batches + [current];
        current := [];
        currentChars := 2;
        assert [] + [item] == [item];
      } else {
        ItemJoins(items[..k], batches, current, item, budget);
      }
      current := current + [item];
      currentChars := currentChars + itemChars;
    }
    assert items[..|items|] == items;
    BatchingEnds(items, batches, current, budget);
    if |current| > 0 {
      batches := batches + [current];
    }
  }

  lemma {:induction false} BatchingStarts(budget: real)
    ensures Batching([], [], [], budget) && RunningChars([]) == 2
  {
  }

  lemma {:induction false} BatchingEnds(items: seq<Item>, batches: seq<seq<Item>>, current: seq<Item>, budget: real)
    requires Batching(items, batches, current, budget)
    ensures IsGreedy(items, if |current| > 0 then batches + [current] else batches, budget)
  {
  }

  lemma {:induction false} RunningSnoc(batch: seq<Item>, item: Item)
    ensures RunningChars(batch + [item]) == RunningChars(batch) + EstimateBatchChars([item])
  {
    assert (batch + [item])[..|batch|] == batch;
  }

  // ---------- what greedy batches are ----------

  lemma {:induction false} EstimateOne(item: Item)
    ensures EstimateBatchChars([item]) == |item.key| + |item.text| + 10
  {
    assert [item][..0] == [];
    assert EstimateBatchChars([item][..0]) == 2;
  }

  lemma {:induction false} EstimateBelowRunning(batch: seq<Item>)
    ensures EstimateBatchChars(batch) + 2 * |batch| == RunningChars(batch)
  {
    if batch == [] {
    } else {
      EstimateBelowRunning(batch[..|batch| - 1]);
      EstimateOne(batch[|batch| - 1]);
    }
  }

  /** No batch is empty or has more than 20 items, and the estimate of one with several items is within the budget. */
  lemma {:induction false} BatchBounds(items: seq<Item>, batches: seq<seq<Item>>, budget: real, i: nat)
    requires IsGreedy(items, batches, budget) && i < |batches|
    ensures 1 <= |batches[i]| <= 20
    ensures |batches[i]| >= 2 ==> EstimateBatchChars(batches[i]) as real <= budget
  {
    var b := batches[i];
    var n := |b| - 1;
    assert MayJoin(b[..n], b[n], budget);
    EstimateBelowRunning(b);
  }

  /** The size of a prompt as the cut counts it: ten characters for every item beside its key and its text. */
  ghost function Cost(batch: seq<Item>): nat
    decreases |batch|
  {
    if batch == [] then 2 else Cost(batch[1..]) + |batch[0].key| + |batch[0].text| + 10
  }

  lemma {:induction false} CostSnoc(batch: seq<Item>, item: Item)
    ensures Cost(batch + [item]) == Cost(batch) + |item.key| + |item.text| + 10
    decreases |batch|
  {
    if batch == [] {
      assert Cost([item][1..]) == 2;
    } else {
      assert (batch + [item])[1..] == batch[1..] + [item];
      CostSnoc(batch[1..], item);
    }
  }

  lemma {:induction false} CostIsRunning(batch: seq<Item>)
    ensures Cost(batch) == RunningChars(batch)
  {
    if batch == [] {
    } else {
      var n := |batch| - 1;
      CostIsRunning(batch[..n]);
      CostSnoc(batch[..n], batch[n]);
      EstimateOne(batch[n]);
      assert batch == batch[..n] + [batch[n]];
    }
  }

  lemma {:induction false} JoinsIff(batch: seq<Item>, item: Item, budget: real)
    ensures MayJoin(batch, item, budget) <==> batch == [] || (|batch| < 20 && Cost(batch + [item]) as real <= budget)
  {
    hide Cost;
    CostIsRunning(batch);
    CostSnoc(batch, item);
    EstimateOne(item);
  }

  /** The cut in numbers: a batch of several items has at most 20 and costs no more than the budget; it is
      closed only if it has 20, or with the next item would cost more. */
  lemma {:induction false} CutMeans(items: seq<Item>, batches: seq<seq<Item>>, budget: real, i: nat)
    requires IsGreedy(items, batches, budget) && i < |batches|
    ensures 1 <= |batches[i]| <= 20 && (|batches[i]| > 1 ==> Cost(batches[i]) as real <= budget)
    ensures i + 1 < |batches| ==>
              batches[i + 1] != []
              && (|batches[i]| == 20 || Cost(batches[i] + [batches[i + 1][0]]) as real > budget)
  {
    hide Cost, RunningChars, EstimateBatchChars;
    var b := batches[i];
    var n := |b| - 1;
    BatchBounds(items, batches, budget, i);
    assert MayJoin(b[..n], b[n], budget);
    JoinsIff(b[..n], b[n], budget);
    assert b == b[..n] + [b[n]];
    if i + 1 < |batches| {
      assert Forced(batches[i], batches[i + 1], budget);
      JoinsIff(b, batches[i + 1][0], budget);
    }
  }

  lemma {:induction false} ConcatNonEmpty(batches: seq<seq<Item>>)
    requires batches != [] && forall i :: 0 <= i < |batches| ==> batches[i] != []
    ensures Concat(batches) != [] && Concat(batches)[0] == batches[0][0]
  {
  }

  lemma {:induction false} GreedyTail(items: seq<Item>, batches: seq<seq<Item>>, budget: real)
    requires IsGreedy(items, batches, budget) && batches != []
    ensures items == batches[0] + items[|batches[0]|..]
    ensures IsGreedy(items[|batches[0]|..], batches[1..], budget)
    ensures |batches| > 1 ==> |batches[0]| < |items| && !MayJoin(batches[0], items[|batches[0]|], budget)
    ensures |batches| == 1 ==> batches[0] == items
  {
    var rest := batches[1..];
    assert items[|batches[0]|..] == Concat(rest);
    forall i, j | 0 <= i < j < |rest| && j == i + 1 ensures Forced(rest[i], rest[j], budget) {
      assert Forced(batches[i + 1], batches[j + 1], budget);
    }
    if |batches| > 1 {
      assert Forced(batches[0], batches[1], budget);
      ConcatNonEmpty(rest);
    }
  }

  /** These conditions leave no choice: there is only one such cut. */
  lemma {:induction false} GreedyUnique(items: seq<Item>, a: seq<seq<Item>>, b: seq<seq<Item>>, budget: real)
    requires IsGreedy(items, a, budget) && IsGreedy(items, b, budget)
    ensures a == b
    decreases |a|
  {
    if a == [] {
      if b != [] {
        ConcatNonEmpty(b);
        assert false;
      }
    } else if b == [] {
      ConcatNonEmpty(a);
      assert false;
    } else {
      GreedyTail(items, a, budget);
      GreedyTail(items, b, budget);
      FirstBatchLongest(items, a, b[0], budget);
      FirstBatchLongest(items, b, a[0], budget);
      assert a[0] == items[..|a[0]|] == b[0];
      GreedyUnique(items[|a[0]|..], a[1..], b[1..], budget);
    }
  }

  /** The first greedy batch is the longest admissible beginning of the items. */
  lemma {:induction false} FirstBatchLongest(items: seq<Item>, batches: seq<seq<Item>>, batch: seq<Item>, budget: real)
    requires IsGreedy(items, batches, budget) && batches != []
    requires Admissible(batch, budget) && batch <= items
    ensures |batch| <= |batches[0]|
  {
    GreedyTail(items, batches, budget);
    var n := |batches[0]|;
    assert items[..n] == batches[0];
    if n < |batch| {
      JoinedAt(items, batch, n, budget);
    }
  }

  lemma {:induction false} JoinedAt(items: seq<Item>, batch: seq<Item>, n: nat, budget: real)
    requires Admissible(batch, budget) && batch <= items && n < |batch|
    ensures MayJoin(items[..n], items[n], budget)
  {
    assert batch[..n] == items[..n];
  }

  // ---------- no cut needs fewer prompts ----------

  lemma {:induction false} RunningConcat(a: seq<Item>, b: seq<Item>)
    ensures RunningChars(a + b) == RunningChars(a) + RunningChars(b) - 2
    decreases |b|
  {
    if b == [] {
      assert a + b == a;
    } else {
      assert (a + b)[..|a + b| - 1] == a + b[..|b| - 1];
      RunningConcat(a, b[..|b| - 1]);
    }
  }

  lemma {:induction false} RunningAtLeastTwo(a: seq<Item>)
    ensures RunningChars(a) >= 2
  {
    if a == [] {
    } else {
      RunningAtLeastTwo(a[..|a| - 1]);
    }
  }

  /** What is left of an admissible batch when its first items are taken away is admissible. */
  lemma {:induction false} AdmissibleSuffix(batch: seq<Item>, k: nat, budget: real)
    requires Admissible(batch, budget) && k < |batch|
    ensures Admissible(batch[k..], budget)
  {
    var s := batch[k..];
    forall j | 0 <= j < |s| ensures MayJoin(s[..j], s[j], budget) {
      assert MayJoin(batch[..k + j], batch[k + j], budget);
      assert batch[..k + j] == batch[..k] + s[..j];
      RunningConcat(batch[..k], s[..j]);
      RunningAtLeastTwo(batch[..k]);
    }
  }

  /** A first batch that starts no later reaches no further than the first greedy one. */
  lemma {:induction false} FirstReaches(all: seq<Item>, p: nat, q: nat, greedy: seq<seq<Item>>, batch: seq<Item>, budget: real)
    requires q <= p <= |all| && q + |batch| <= |all| && batch == all[q..q + |batch|]
    requires IsGreedy(all[p..], greedy, budget) && greedy != [] && Admissible(batch, budget)
    ensures q + |batch| <= p + |greedy[0]|
  {
    hide Admissible, IsGreedy;
    var end := q + |batch|;
    if p < end {
      AdmissibleSuffix(batch, p - q, budget);
      assert batch[p - q..] == all[p..end] == all[p..][..end - p];
      FirstBatchLongest(all[p..], greedy, all[p..end], budget);
    }
  }

  /** Greedy batches of the last items are no more than any admissible batches of at least those items. */
  lemma {:induction false} GreedyStaysAhead(all: seq<Item>, p: nat, q: nat, greedy: seq<seq<Item>>, other: seq<seq<Item>>, budget: real)
    requires q <= p <= |all|
    requires IsGreedy(all[p..], greedy, budget)
    requires Concat(other) == all[q..] && forall i :: 0 <= i < |other| ==> Admissible(other[i], budget)
    ensures |greedy| <= |other|
    decreases |other|
  {
    hide Admissible, IsGreedy;
    if greedy == [] {
    } else {
      GreedyTail(all[p..], greedy, budget);
      GreedyNonEmpty(all[p..], greedy, budget);
      assert other != [];
      var g, o := |greedy[0]|, |other[0]|;
      assert all[q..] == other[0] + Concat(other[1..]);
      assert other[0] == all[q..][..o] == all[q..q + o];
      assert all[q + o..] == all[q..][o..] == Concat(other[1..]);
      assert all[p + g..] == all[p..][g..];
      FirstReaches(all, p, q, greedy, other[0], budget);
      GreedyStaysAhead(all, p + g, q + o, greedy[1..], other[1..], budget);
    }
  }

  lemma {:induction false} GreedyNonEmpty(items: seq<Item>, batches: seq<seq<Item>>, budget: real)
    requires IsGreedy(items, batches, budget) && batches != []
    ensures items != []
  {
    ConcatNonEmpty(batches);
  }

  /** No other way of cutting the items into admissible batches has fewer of them. */
  lemma {:induction false} FewestBatches(items: seq<Item>, greedy: seq<seq<Item>>, other: seq<seq<Item>>, budget: real)
    requires IsGreedy(items, greedy, budget)
    requires Concat(other) == items && forall i :: 0 <= i < |other| ==> Admissible(other[i], budget)
    ensures |greedy| <= |other|
  {
    assert items[0..] == items;
    GreedyStaysAhead(items, 0, 0, greedy, other, budget);
  }
}
