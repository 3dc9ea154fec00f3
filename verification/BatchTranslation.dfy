/** Translating one batch: two attempts, and splitting in halves after a timeout. */
module BatchTranslation {
  import opened Options
  import opened TranslationBatches
  import opened Whitespace

  const MAX_ATTEMPTS := 2

  /** What one attempt meets.  `NoClient`: no prompt was sent.  `Failed`: the prompt was rejected or its
      answer is not a JSON object.  `Answered`: the string fields of the answer. */
  datatype Reply = NoClient(error: string) | Failed(error: string) | Answered(fields: map<string, string>)

  /** The replies to come, and which error messages count as a timeout: any at all. */
  datatype Service = Service(replies: nat -> Reply, timedOut: string -> bool)

  /** A prompt sent: to which client, in which attempt, and whether it got through with what was asked for. */
  datatype Use = Use(client: nat, attempt: nat, ok: bool)

  datatype Outcome = Done(translated: map<string, string>) | Threw(error: string)

  /** The end of a run, the next reply, the number of prompts sent, the deepest split reached, and the items
      of every attempt. */
  datatype Trace = Trace(outcome: Outcome, next: nat, prompts: nat, depth: nat, tries: seq<seq<Item>>)

  // ---------- one reply ----------

  /** `!value.trim()` */
  predicate IsBlank(s: string) {
    forall c :: c in s ==> IsSpace(c)
  }

  predicate Translates(fields: map<string, string>, item: Item) {
    item.key in fields && !IsBlank(fields[item.key])
  }

  function MissingMessage(item: Item): string {
    "missing translation for " + item.key
  }

  /** The loop over the items of a batch; it stops at the first one without a translation. */
  function Collect(items: seq<Item>, fields: map<string, string>): Outcome {
    if items == [] then Done(map[])
    else
      var rest := Collect(items[..|items| - 1], fields);
      var item := items[|items| - 1];
      match rest
      case Threw(_) => rest
      case Done(m) =>
        if Translates(fields, item) then Done(m[item.key := fields[item.key]]) else Threw(MissingMessage(item))
  }

  function Examine(reply: Reply, items: seq<Item>): Outcome {
    match reply
    case NoClient(error) => Threw(error)
    case Failed(error) => Threw(error)
    case Answered(fields) => Collect(items, fields)
  }

  function Sent(reply: Reply): nat {
    if reply.NoClient? then 0 else 1
  }

  // ---------- the recursion ----------

  function Midpoint(n: nat): nat {
    (n + 1) / 2
  }

  function Both(left: Trace, right: Trace): Trace {
    Trace(
      if right.outcome.Threw? then right.outcome
      else if left.outcome.Threw? then left.outcome
      else Done(left.outcome.translated + right.outcome.translated),
      right.next, left.prompts + right.prompts, if left.depth < right.depth then right.depth else left.depth,
      left.tries + right.tries)
  }

  /** The batch from attempt number `attempt` on, the next reply being number `at`. */
  function Attempts(s: Service, items: seq<Item>, depth: nat, at: nat, attempt: nat): (t: Trace)
    requires attempt < MAX_ATTEMPTS
    decreases |items|, MAX_ATTEMPTS - attempt
  {
    var reply := s.replies(at);
    match Examine(reply, items)
    case Done(m) => Trace(Done(m), at + 1, 1, depth, [items])
    case Threw(error) =>
      if s.timedOut(error) && |items| > 1 then
        After([items], Sent(reply), Halves(s, items, depth, at + 1))
      else if !s.timedOut(error) && attempt + 1 < MAX_ATTEMPTS then
        After([items], Sent(reply), Attempts(s, items, depth, at + 1, attempt + 1))
      else
        Trace(Threw(error), at + 1, Sent(reply), depth, [items])
  }

  function After(tries: seq<seq<Item>>, prompts: nat, t: Trace): Trace {
    t.(prompts := prompts + t.prompts, tries := tries + t.tries)
  }

  /** Both halves, the right one only if the left one succeeds. */
  function Halves(s: Service, items: seq<Item>, depth: nat, at: nat): Trace
    requires |items| > 1
    decreases |items|, 0
  {
    var mid := Midpoint(|items|);
    var left := Attempts(s, items[..mid], depth + 1, at, 0);
    if left.outcome.Threw? then left
    else Both(left, Attempts(s, items[mid..], depth + 1, left.next, 0))
  }

  function Translate(s: Service, items: seq<Item>, depth: nat, at: nat): Trace {
    Attempts(s, items, depth, at, 0)
  }

  // ---------- how much work ----------

  lemma {:induction false} AttemptsBound(s: Service, items: seq<Item>, depth: nat, at: nat, attempt: nat)
    requires attempt < MAX_ATTEMPTS && items != []
    ensures Attempts(s, items, depth, at, attempt).prompts <= 4 * |items| - 2 - attempt
    decreases |items|, MAX_ATTEMPTS - attempt
  {
    var outcome := Examine(s.replies(at), items);
    if outcome.Threw? {
      if s.timedOut(outcome.error) && |items| > 1 {
        var mid := Midpoint(|items|);
        AttemptsBound(s, items[..mid], depth + 1, at + 1, 0);
        var left := Attempts(s, items[..mid], depth + 1, at + 1, 0);
        AttemptsBound(s, items[mid..], depth + 1, left.next, 0);
      } else if attempt + 1 < MAX_ATTEMPTS {
        AttemptsBound(s, items, depth, at + 1, attempt + 1);
      }
    }
  }

  /** However attempts fail and time out, n items cost at most 4n - 2 prompts. */
  lemma {:induction false} PromptBound(s: Service, items: seq<Item>, depth: nat, at: nat)
    requires items != []
    ensures Translate(s, items, depth, at).prompts <= 4 * |items| - 2
  {
    AttemptsBound(s, items, depth, at, 0);
  }

  /** A run of failures and timeouts that spends every prompt before it succeeds. */
  ghost function WorstCase(n: nat, refusal: string, timeout: string, answer: map<string, string>): (r: seq<Reply>)
    requires n > 0
    ensures |r| == 4 * n - 2
  {
    if n == 1 then [Failed(refusal), Answered(answer)]
    else [Failed(refusal), Failed(timeout)] + WorstCase(Midpoint(n), refusal, timeout, answer)
                                            + WorstCase(n - Midpoint(n), refusal, timeout, answer)
  }

  lemma {:induction false} WorstCaseSplit(n: nat, refusal: string, timeout: string, answer: map<string, string>)
    requires n > 1
    ensures WorstCase(n, refusal, timeout, answer)
         == [Failed(refusal), Failed(timeout)] + (WorstCase(Midpoint(n), refusal, timeout, answer)
                                                  + WorstCase(n - Midpoint(n), refusal, timeout, answer))
  {
  }

  ghost predicate Supplies(s: Service, at: nat, replies: seq<Reply>) {
    forall i :: 0 <= i < |replies| ==> s.replies(at + i) == replies[i]
  }

  lemma {:induction false} SuppliesSplit(s: Service, at: nat, a: seq<Reply>, b: seq<Reply>)
    requires Supplies(s, at, a + b)
    ensures Supplies(s, at, a) && Supplies(s, at + |a|, b)
  {
    forall i | 0 <= i < |a| ensures s.replies(at + i) == a[i] {
      assert (a + b)[i] == a[i];
    }
    forall i | 0 <= i < |b| ensures s.replies(at + |a| + i) == b[i] {
      assert (a + b)[|a| + i] == b[i];
    }
  }

  lemma {:induction false} CollectAll(items: seq<Item>, fields: map<string, string>)
    requires forall i :: 0 <= i < |items| ==> Translates(fields, items[i])
    ensures Collect(items, fields).Done?
  {
    if items == [] {
    } else {
      CollectAll(items[..|items| - 1], fields);
    }
  }

  lemma {:induction false} RefusedThenTimedOut(s: Service, items: seq<Item>, depth: nat, at: nat, refusal: string, timeout: string)
    requires |items| > 1 && !s.timedOut(refusal) && s.timedOut(timeout)
    requires Supplies(s, at, [Failed(refusal), Failed(timeout)])
    ensures Translate(s, items, depth, at) == After([items, items], 2, Halves(s, items, depth, at + 2))
  {
    var first := [Failed(refusal), Failed(timeout)];
    assert s.replies(at + 0) == first[0];
    assert s.replies(at + 1) == first[1];
    var halves := Halves(s, items, depth, at + 2);
    assert Attempts(s, items, depth, at + 1, 1) == After([items], 1, halves);
    assert [items] + ([items] + halves.tries) == [items, items] + halves.tries;
  }

  /** The bound is met for every number of items, by a run that succeeds in the end. */
  lemma {:induction false} PromptBoundIsTight(s: Service, items: seq<Item>, depth: nat, at: nat,
                                              refusal: string, timeout: string, answer: map<string, string>)
    requires items != [] && !s.timedOut(refusal) && s.timedOut(timeout)
    requires forall i :: 0 <= i < |items| ==> Translates(answer, items[i])
    requires Supplies(s, at, WorstCase(|items|, refusal, timeout, answer))
    ensures var t := Translate(s, items, depth, at);
            t.outcome.Done? && t.prompts == 4 * |items| - 2 && t.next == at + 4 * |items| - 2
    decreases |items|
  {
    hide Attempts, Supplies, WorstCase, IsBlank;
    var n := |items|;
    if n == 1 {
      RefusedThenAnswered(s, items, depth, at, refusal, timeout, answer);
    } else {
      var mid := Midpoint(n);
      var a, b := WorstCase(mid, refusal, timeout, answer), WorstCase(n - mid, refusal, timeout, answer);
      WorstCaseSplit(n, refusal, timeout, answer);
      SuppliesSplit(s, at, [Failed(refusal), Failed(timeout)], a + b);
      SuppliesSplit(s, at + 2, a, b);
      RefusedThenTimedOut(s, items, depth, at, refusal, timeout);
      PromptBoundIsTight(s, items[..mid], depth + 1, at + 2, refusal, timeout, answer);
      PromptBoundIsTight(s, items[mid..], depth + 1, at + 2 + |a|, refusal, timeout, answer);
    }
  }

  lemma {:induction false} RefusedThenAnswered(s: Service, items: seq<Item>, depth: nat, at: nat,
                                               refusal: string, timeout: string, answer: map<string, string>)
    requires |items| == 1 && !s.timedOut(refusal)
    requires forall i :: 0 <= i < |items| ==> Translates(answer, items[i])
    requires Supplies(s, at, WorstCase(1, refusal, timeout, answer))
    ensures var t := Translate(s, items, depth, at); t.outcome.Done? && t.prompts == 2 && t.next == at + 2
  {
    var worst := WorstCase(1, refusal, timeout, answer);
    assert s.replies(at + 0) == worst[0];
    assert s.replies(at + 1) == worst[1];
    CollectAll(items, answer);
    assert Attempts(s, items, depth, at + 1, 1).prompts == 1;
  }

  function Pow2(k: nat): nat {
    if k == 0 then 1 else 2 * Pow2(k - 1)
  }

  /** A batch split d times below the first has more than 2^(d-1) items: the depth is at most the ceiling
      of log2 n. */
  lemma {:induction false} DepthBound(s: Service, items: seq<Item>, depth: nat, at: nat, attempt: nat)
    requires attempt < MAX_ATTEMPTS
    ensures var d := Attempts(s, items, depth, at, attempt).depth;
            d >= depth && (d > depth ==> Pow2(d - depth - 1) < |items|)
    decreases |items|, MAX_ATTEMPTS - attempt
  {
    var outcome := Examine(s.replies(at), items);
    if outcome.Threw? {
      if s.timedOut(outcome.error) && |items| > 1 {
        var mid := Midpoint(|items|);
        DepthBound(s, items[..mid], depth + 1, at + 1, 0);
        var left := Attempts(s, items[..mid], depth + 1, at + 1, 0);
        DepthBound(s, items[mid..], depth + 1, left.next, 0);
      } else if attempt + 1 < MAX_ATTEMPTS {
        DepthBound(s, items, depth, at + 1, attempt + 1);
      }
    }
  }

  // ---------- what success means ----------

  ghost predicate SomeItem(items: seq<Item>, key: string) {
    exists i :: 0 <= i < |items| && items[i].key == key
  }

  /** A reply among those used translates the key by this text. */
  ghost predicate AnsweredBy(s: Service, from: nat, to: nat, key: string, text: string) {
    exists i: nat :: from <= i < to && s.replies(i).Answered?
                     && key in s.replies(i).fields && s.replies(i).fields[key] == text
  }

  lemma {:induction false} CollectMeans(items: seq<Item>, fields: map<string, string>)
    ensures match Collect(items, fields)
            case Done(m) => && (forall k :: k in m <==> SomeItem(items, k))
                            && (forall k :: k in m ==> k in fields && m[k] == fields[k] && !IsBlank(m[k]))
            case Threw(_) => exists i :: 0 <= i < |items| && !Translates(fields, items[i])
  {
    if items == [] {
    } else {
      var init, last := items[..|items| - 1], items[|items| - 1];
      CollectMeans(init, fields);
      forall k ensures SomeItem(items, k) <==> SomeItem(init, k) || k == last.key {
        SomeItemConcat(init, [last], k);
        assert items == init + [last];
        assert SomeItem([last], k) <==> k == last.key by {
          assert [last][0] == last;
        }
      }
    }
  }

  /** An answer is refused exactly if an item has no text, or only white space, in it; the error names the
      first such item. */
  lemma {:induction false} FirstMissing(items: seq<Item>, fields: map<string, string>, k: nat)
    requires k <= |items|
    requires forall j :: 0 <= j < k ==> items[j].key in fields && !IsBlank(fields[items[j].key])
    ensures k == |items| ==> Examine(Answered(fields), items).Done?
    ensures k < |items| && !(items[k].key in fields && !IsBlank(fields[items[k].key])) ==>
              Examine(Answered(fields), items) == Threw("missing translation for " + items[k].key)
  {
    hide IsBlank;
    CollectAll(items[..k], fields);
    if k == |items| {
      assert items[..k] == items;
    } else if !Translates(fields, items[k]) {
      var some := items[..k + 1];
      assert some[..|some| - 1] == items[..k] && some[k] == items[k];
      CollectStops(items, fields, k + 1);
    }
  }

  lemma {:induction false} SomeItemConcat(a: seq<Item>, b: seq<Item>, k: string)
    ensures SomeItem(a + b, k) <==> SomeItem(a, k) || SomeItem(b, k)
  {
    if SomeItem(a, k) {
      var i :| 0 <= i < |a| && a[i].key == k;
      assert (a + b)[i].key == k;
    }
    if SomeItem(b, k) {
      var i :| 0 <= i < |b| && b[i].key == k;
      assert (a + b)[|a| + i].key == k;
    }
  }

  /** On success exactly the keys of the items are translated, each by a non-blank text that one of the
      replies used gave for this very key. */
  ghost predicate Faithful(s: Service, items: seq<Item>, from: nat, t: Trace) {
    t.outcome.Done? ==>
      && (forall k :: k in t.outcome.translated <==> SomeItem(items, k))
      && (forall k :: k in t.outcome.translated ==>
            !IsBlank(t.outcome.translated[k]) && AnsweredBy(s, from, t.next, k, t.outcome.translated[k]))
  }

  lemma {:induction false} AnsweredWider(s: Service, from: nat, to: nat, from1: nat, to1: nat, key: string, text: string)
    requires AnsweredBy(s, from, to, key, text) && from1 <= from && to <= to1
    ensures AnsweredBy(s, from1, to1, key, text)
  {
  }

  lemma {:induction false} BothFaithful(s: Service, items: seq<Item>, mid: nat, from: nat, left: Trace, right: Trace)
    requires mid <= |items| && left.outcome.Done? && from <= left.next <= right.next
    requires Faithful(s, items[..mid], from, left) && Faithful(s, items[mid..], left.next, right)
    ensures Faithful(s, items, from, Both(left, right))
  {
    hide SomeItem, IsBlank, AnsweredBy;
    if right.outcome.Done? {
      var m := left.outcome.translated + right.outcome.translated;
      assert items[..mid] + items[mid..] == items;
      forall k ensures k in m <==> SomeItem(items, k) {
        SomeItemConcat(items[..mid], items[mid..], k);
      }
      forall k | k in m ensures !IsBlank(m[k]) && AnsweredBy(s, from, right.next, k, m[k]) {
        if k in right.outcome.translated {
          AnsweredWider(s, left.next, right.next, from, right.next, k, m[k]);
        } else {
          AnsweredWider(s, from, left.next, from, right.next, k, m[k]);
        }
      }
    }
  }

  lemma {:induction false} AttemptsFaithful(s: Service, items: seq<Item>, depth: nat, at: nat, attempt: nat)
    requires attempt < MAX_ATTEMPTS
    ensures Attempts(s, items, depth, at, attempt).next > at
    ensures Faithful(s, items, at, Attempts(s, items, depth, at, attempt))
    decreases |items|, MAX_ATTEMPTS - attempt
  {
    hide SomeItem, IsBlank, Faithful;
    var reply := s.replies(at);
    var t := Attempts(s, items, depth, at, attempt);
    match Examine(reply, items)
    case Done(m) =>
      FirstFaithful(s, items, at, t);
    case Threw(error) =>
      if s.timedOut(error) && |items| > 1 {
        var mid := Midpoint(|items|);
        var left := Attempts(s, items[..mid], depth + 1, at + 1, 0);
        assert t == After([items], Sent(reply), Halves(s, items, depth, at + 1));
        AttemptsFaithful(s, items[..mid], depth + 1, at + 1, 0);
        if left.outcome.Done? {
          var right := Attempts(s, items[mid..], depth + 1, left.next, 0);
          AttemptsFaithful(s, items[mid..], depth + 1, left.next, 0);
          BothFaithful(s, items, mid, at + 1, left, right);
          LaterFaithful(s, items, at, Both(left, right), t);
        } else {
          ThrewFaithful(s, items, at, t);
        }
      } else if !s.timedOut(error) && attempt + 1 < MAX_ATTEMPTS {
        AttemptsFaithful(s, items, depth, at + 1, attempt + 1);
        LaterFaithful(s, items, at, Attempts(s, items, depth, at + 1, attempt + 1), t);
      } else {
        ThrewFaithful(s, items, at, t);
      }
  }

  lemma {:induction false} ThrewFaithful(s: Service, items: seq<Item>, at: nat, t: Trace)
    requires t.outcome.Threw?
    ensures Faithful(s, items, at, t)
  {
  }

  lemma {:induction false} LaterFaithful(s: Service, items: seq<Item>, at: nat, later: Trace, t: Trace)
    requires Faithful(s, items, at + 1, later) && t.outcome == later.outcome && t.next == later.next
    ensures Faithful(s, items, at, t)
  {
    hide SomeItem, IsBlank, AnsweredBy;
    if t.outcome.Done? {
      forall k | k in t.outcome.translated ensures AnsweredBy(s, at, t.next, k, t.outcome.translated[k]) {
        AnsweredWider(s, at + 1, t.next, at, t.next, k, t.outcome.translated[k]);
      }
    }
  }

  lemma {:induction false} FirstFaithful(s: Service, items: seq<Item>, at: nat, t: Trace)
    requires t.outcome == Examine(s.replies(at), items) && t.next == at + 1
    ensures Faithful(s, items, at, t)
  {
    hide SomeItem, IsBlank;
    if t.outcome.Done? {
      CollectMeans(items, s.replies(at).fields);
    }
  }

  lemma {:induction false} SuccessMeans(s: Service, items: seq<Item>, depth: nat, at: nat)
    ensures Faithful(s, items, at, Translate(s, items, depth, at))
  {
    AttemptsFaithful(s, items, depth, at, 0);
  }

  // ---------- what follows a failure ----------

  ghost predicate TimesOut(s: Service, i: nat, items: seq<Item>) {
    Examine(s.replies(i), items).Threw? && s.timedOut(Examine(s.replies(i), items).error)
  }

  ghost predicate Refused(s: Service, i: nat, items: seq<Item>) {
    Examine(s.replies(i), items).Threw? && !s.timedOut(Examine(s.replies(i), items).error)
  }

  /** Attempt number k of a run ends it with its error. */
  ghost predicate EndsWith(s: Service, at: nat, tries: seq<seq<Item>>, outcome: Outcome, k: nat)
    requires k < |tries|
  {
    k + 1 == |tries| && outcome == Examine(s.replies(at + k), tries[k]) && outcome.Threw?
  }

  /** Attempt k repeats the one before, which was refused; `repeat` says so of the first. */
  ghost predicate Repeats(s: Service, at: nat, tries: seq<seq<Item>>, repeat: bool, k: nat)
    requires k < |tries|
  {
    if k == 0 then repeat else Refused(s, at + k - 1, tries[k - 1])
  }

  /** After an attempt that timed out, the first half of its items, rounded up, is asked for, or a single
      item is given up; after one that failed otherwise the same items are, but only once. */
  ghost predicate FailurePolicy(s: Service, at: nat, tries: seq<seq<Item>>, outcome: Outcome, repeat: bool) {
    forall k: nat :: k < |tries| ==> FailureStep(s, at, tries, outcome, repeat, k)
  }

  ghost predicate FailureStep(s: Service, at: nat, tries: seq<seq<Item>>, outcome: Outcome, repeat: bool, k: nat)
    requires k < |tries|
  {
    var n := |tries[k]|;
    && (TimesOut(s, at + k, tries[k]) && n > 1 ==> k + 1 < |tries| && tries[k + 1] == tries[k][..(n + 1) / 2])
    && (TimesOut(s, at + k, tries[k]) && n <= 1 ==> EndsWith(s, at, tries, outcome, k))
    && (Refused(s, at + k, tries[k]) && !Repeats(s, at, tries, repeat, k) ==>
          k + 1 < |tries| && tries[k + 1] == tries[k])
    && (Refused(s, at + k, tries[k]) && Repeats(s, at, tries, repeat, k) ==> EndsWith(s, at, tries, outcome, k))
  }

  /** What the attempts that succeeded asked for, one after the other. */
  ghost function Covered(s: Service, at: nat, tries: seq<seq<Item>>): seq<Item>
    decreases |tries|
  {
    if tries == [] then []
    else (if Examine(s.replies(at), tries[0]).Done? then tries[0] else []) + Covered(s, at + 1, tries[1..])
  }

  lemma {:induction false} CoveredConcat(s: Service, at: nat, a: seq<seq<Item>>, b: seq<seq<Item>>)
    ensures Covered(s, at, a + b) == Covered(s, at, a) + Covered(s, at + |a|, b)
    decreases |a|
  {
    if a == [] {
      assert a + b == b;
    } else {
      assert (a + b)[1..] == a[1..] + b;
      CoveredConcat(s, at + 1, a[1..], b);
    }
  }

  /** Every attempt asks for items that follow what is covered. */
  ghost predicate InOrder(s: Service, at: nat, items: seq<Item>, tries: seq<seq<Item>>) {
    forall k: nat :: k < |tries| ==> Covered(s, at, tries[..k]) + tries[k] <= items
  }

  /** The attempts of a run: how it starts, goes on after a failure, and ends. */
  ghost predicate FollowsPolicy(s: Service, items: seq<Item>, at: nat, repeat: bool, t: Trace) {
    && |t.tries| > 0 && t.next == at + |t.tries| && t.tries[0] == items
    && FailurePolicy(s, at, t.tries, t.outcome, repeat)
    && InOrder(s, at, items, t.tries)
    && (t.outcome.Done? ==> Covered(s, at, t.tries) == items)
    && (t.outcome.Done? <==> Examine(s.replies(t.next - 1), t.tries[|t.tries| - 1]).Done?)
  }

  /** One attempt and what follows. */
  lemma {:induction false} PolicyCons(s: Service, items: seq<Item>, at: nat, repeat: bool, t: Trace,
                                      rest: seq<seq<Item>>, again: bool)
    requires t.tries == [items] + rest && rest != [] && Examine(s.replies(at), items).Threw?
    requires FailurePolicy(s, at + 1, rest, t.outcome, again)
    requires again == Refused(s, at, items)
    requires if TimesOut(s, at, items) then |items| > 1 && rest[0] == items[..(|items| + 1) / 2]
             else !repeat && rest[0] == items
    ensures FailurePolicy(s, at, t.tries, t.outcome, repeat)
  {
    hide Examine, Refused, TimesOut;
    forall k: nat | k < |t.tries| ensures FailureStep(s, at, t.tries, t.outcome, repeat, k) {
      if k == 0 {
        assert t.tries[1] == rest[0];
        OneOfTwo(s, at, items);
      } else {
        assert FailureStep(s, at + 1, rest, t.outcome, again, k - 1);
        assert t.tries[k] == rest[k - 1];
        if k > 1 {
          assert t.tries[k - 1] == rest[k - 2];
        }
        if k + 1 < |t.tries| {
          assert t.tries[k + 1] == rest[k];
        }
      }
    }
  }

  lemma {:induction false} OneOfTwo(s: Service, at: nat, items: seq<Item>)
    ensures Examine(s.replies(at), items).Threw? <==> TimesOut(s, at, items) || Refused(s, at, items)
    ensures !(TimesOut(s, at, items) && Refused(s, at, items))
  {
  }

  /** Two runs, the first of which succeeds with its last attempt. */
  lemma {:induction false} PolicyConcat(s: Service, at: nat, a: seq<seq<Item>>, left: Outcome,
                                        b: seq<seq<Item>>, right: Outcome)
    requires a != [] && left.Done? && Examine(s.replies(at + |a| - 1), a[|a| - 1]).Done?
    requires FailurePolicy(s, at, a, left, false) && FailurePolicy(s, at + |a|, b, right, false)
    ensures FailurePolicy(s, at, a + b, right, false)
  {
    hide Examine, Refused, TimesOut;
    var t := a + b;
    OneOfTwo(s, at + |a| - 1, a[|a| - 1]);
    forall k: nat | k < |t| ensures FailureStep(s, at, t, right, false, k) {
      if k < |a| {
        assert FailureStep(s, at, a, left, false, k);
      } else {
        assert FailureStep(s, at + |a|, b, right, false, k - |a|);
      }
    }
  }

  lemma {:induction false} InOrderConcat(s: Service, at: nat, items: seq<Item>, mid: nat,
                                         a: seq<seq<Item>>, b: seq<seq<Item>>)
    requires mid <= |items| && InOrder(s, at, items[..mid], a)
    requires b != [] ==> Covered(s, at, a) == items[..mid] && InOrder(s, at + |a|, items[mid..], b)
    ensures InOrder(s, at, items, a + b)
  {
    hide Covered;
    var t := a + b;
    forall k: nat | k < |t| ensures Covered(s, at, t[..k]) + t[k] <= items {
      if k < |a| {
        assert t[..k] == a[..k];
      } else {
        assert t[..k] == a + b[..k - |a|];
        CoveredConcat(s, at, a, b[..k - |a|]);
        assert Covered(s, at + |a|, b[..k - |a|]) + b[k - |a|] <= items[mid..];
        assert items == items[..mid] + items[mid..];
      }
    }
  }

  lemma {:induction false} InOrderCons(s: Service, at: nat, items: seq<Item>, rest: seq<seq<Item>>)
    requires Examine(s.replies(at), items).Threw? && InOrder(s, at + 1, items, rest)
    ensures InOrder(s, at, items, [items] + rest)
    ensures Covered(s, at, [items] + rest) == Covered(s, at + 1, rest)
  {
    hide Examine;
    var t := [items] + rest;
    assert t[1..] == rest;
    forall k: nat | k < |t| ensures Covered(s, at, t[..k]) + t[k] <= items {
      if k == 0 {
        assert t[..0] == [];
      } else {
        assert t[..k][1..] == rest[..k - 1];
        assert Covered(s, at + 1, rest[..k - 1]) + rest[k - 1] <= items;
      }
    }
  }

  lemma {:induction false} FollowsLast(s: Service, items: seq<Item>, at: nat, repeat: bool, t: Trace)
    requires t.tries == [items] && t.next == at + 1 && t.outcome == Examine(s.replies(at), items)
    requires TimesOut(s, at, items) ==> |items| <= 1
    requires Refused(s, at, items) ==> repeat
    ensures FollowsPolicy(s, items, at, repeat, t)
  {
    hide Examine, Refused, TimesOut;
    OneOfTwo(s, at, items);
    assert t.tries[..0] == [] && t.tries[1..] == [];
    forall k: nat | k < |t.tries| ensures Covered(s, at, t.tries[..k]) + t.tries[k] <= items {
      assert k == 0 && Covered(s, at, []) == [];
    }
    assert Covered(s, at + 1, []) == [];
    forall k: nat | k < |t.tries| ensures FailureStep(s, at, t.tries, t.outcome, repeat, k) {
    }
  }

  lemma {:induction false} FollowsCons(s: Service, items: seq<Item>, at: nat, repeat: bool, rest: Trace, t: Trace)
    requires t.tries == [items] + rest.tries && t.next == rest.next && t.outcome == rest.outcome
    requires FollowsPolicy(s, items, at + 1, true, rest)
    requires Refused(s, at, items) && !repeat
    ensures FollowsPolicy(s, items, at, repeat, t)
  {
    hide Examine, TimesOut, FailurePolicy, InOrder, Covered;
    OneOfTwo(s, at, items);
    PolicyCons(s, items, at, repeat, t, rest.tries, true);
    InOrderCons(s, at, items, rest.tries);
  }

  /** A timeout and the left half, which fails. */
  lemma {:induction false} FollowsLeft(s: Service, items: seq<Item>, at: nat, repeat: bool, left: Trace, t: Trace)
    requires |items| > 1 && TimesOut(s, at, items)
    requires FollowsPolicy(s, items[..(|items| + 1) / 2], at + 1, false, left) && left.outcome.Threw?
    requires t.tries == [items] + left.tries && t.next == left.next && t.outcome == left.outcome
    ensures FollowsPolicy(s, items, at, repeat, t)
  {
    hide Examine, FailurePolicy, Covered;
    OneOfTwo(s, at, items);
    PolicyCons(s, items, at, repeat, t, left.tries, false);
    assert left.tries + [] == left.tries;
    InOrderConcat(s, at + 1, items, (|items| + 1) / 2, left.tries, []);
    InOrderCons(s, at, items, left.tries);
  }

  /** A timeout and both halves. */
  lemma {:induction false} FollowsBoth(s: Service, items: seq<Item>, at: nat, repeat: bool,
                                       left: Trace, right: Trace, t: Trace)
    requires |items| > 1 && TimesOut(s, at, items)
    requires FollowsPolicy(s, items[..(|items| + 1) / 2], at + 1, false, left) && left.outcome.Done?
    requires FollowsPolicy(s, items[(|items| + 1) / 2..], left.next, false, right)
    requires t.tries == [items] + (left.tries + right.tries) && t.next == right.next
    requires t.outcome.Done? <==> right.outcome.Done?
    requires t.outcome.Threw? ==> t.outcome == right.outcome
    ensures FollowsPolicy(s, items, at, repeat, t)
  {
    hide Examine, FailurePolicy, Covered, InOrder;
    var mid, rest := (|items| + 1) / 2, left.tries + right.tries;
    OneOfTwo(s, at, items);
    PolicyConcat(s, at + 1, left.tries, left.outcome, right.tries, right.outcome);
    PolicyOutcome(s, at + 1, rest, right.outcome, t.outcome);
    PolicyCons(s, items, at, repeat, t, rest, false);
    InOrderConcat(s, at + 1, items, mid, left.tries, right.tries);
    InOrderCons(s, at, items, rest);
    CoveredConcat(s, at + 1, left.tries, right.tries);
    assert items[..mid] + items[mid..] == items;
    assert t.tries[|t.tries| - 1] == right.tries[|right.tries| - 1];
  }

  lemma {:induction false} PolicyOutcome(s: Service, at: nat, tries: seq<seq<Item>>, a: Outcome, b: Outcome)
    requires FailurePolicy(s, at, tries, a, false) && (a == b || (a.Done? && b.Done?))
    ensures FailurePolicy(s, at, tries, b, false)
  {
    hide Examine, Refused, TimesOut;
    forall k: nat | k < |tries| ensures FailureStep(s, at, tries, b, false, k) {
      assert FailureStep(s, at, tries, a, false, k);
    }
  }

  lemma {:induction false} AttemptsFollowPolicy(s: Service, items: seq<Item>, depth: nat, at: nat, attempt: nat)
    requires attempt < 2
    ensures FollowsPolicy(s, items, at, attempt == 1, Attempts(s, items, depth, at, attempt))
    decreases |items|, 2 - attempt
  {
    hide FollowsPolicy, Examine;
    var t := Attempts(s, items, depth, at, attempt);
    OneOfTwo(s, at, items);
    if TimesOut(s, at, items) && |items| > 1 {
      var mid := Midpoint(|items|);
      var left := Attempts(s, items[..mid], depth + 1, at + 1, 0);
      assert t == After([items], Sent(s.replies(at)), Halves(s, items, depth, at + 1));
      AttemptsFollowPolicy(s, items[..mid], depth + 1, at + 1, 0);
      if left.outcome.Threw? {
        FollowsLeft(s, items, at, attempt == 1, left, t);
      } else {
        AttemptsFollowPolicy(s, items[mid..], depth + 1, left.next, 0);
        FollowsBoth(s, items, at, attempt == 1, left, Attempts(s, items[mid..], depth + 1, left.next, 0), t);
      }
    } else if Refused(s, at, items) && attempt == 0 {
      AttemptsFollowPolicy(s, items, depth, at + 1, 1);
      FollowsCons(s, items, at, false, Attempts(s, items, depth, at + 1, 1), t);
    } else {
      FollowsLast(s, items, at, attempt == 1, t);
    }
  }

  /** What every run does after each kind of failure, and in which order it goes through the items. */
  lemma {:induction false} RunFollowsPolicy(s: Service, items: seq<Item>, depth: nat, at: nat)
    ensures FollowsPolicy(s, items, at, false, Translate(s, items, depth, at))
  {
    AttemptsFollowPolicy(s, items, depth, at, 0);
  }

  /** How many of n attempts there was a client for. */
  ghost function PromptsOf(s: Service, at: nat, n: nat): nat
    decreases n
  {
    if n == 0 then 0 else (if s.replies(at).NoClient? then 0 else 1) + PromptsOf(s, at + 1, n - 1)
  }

  lemma {:induction false} PromptsConcat(s: Service, at: nat, m: nat, n: nat)
    ensures PromptsOf(s, at, m + n) == PromptsOf(s, at, m) + PromptsOf(s, at + m, n)
    ensures PromptsOf(s, at, m) <= m
    decreases m
  {
    if m == 0 {
    } else {
      PromptsConcat(s, at + 1, m - 1, n);
    }
  }

  ghost predicate OnlyTimeouts(s: Service, at: nat, tries: seq<seq<Item>>) {
    forall k: nat :: k < |tries| ==> !Refused(s, at + k, tries[k])
  }

  lemma {:induction false} TimeoutsSplit(s: Service, at: nat, a: seq<seq<Item>>, b: seq<seq<Item>>)
    requires OnlyTimeouts(s, at, a + b)
    ensures OnlyTimeouts(s, at, a) && OnlyTimeouts(s, at + |a|, b)
  {
    hide Refused;
    forall k: nat | k < |a| ensures !Refused(s, at + k, a[k]) {
      assert (a + b)[k] == a[k];
    }
    forall k: nat | k < |b| ensures !Refused(s, at + |a| + k, b[k]) {
      assert (a + b)[|a| + k] == b[k];
    }
  }

  lemma {:induction false} AttemptsSend(s: Service, items: seq<Item>, depth: nat, at: nat, attempt: nat)
    requires attempt < 2
    ensures var t := Attempts(s, items, depth, at, attempt);
            t.next == at + |t.tries| && t.tries != [] && t.prompts == PromptsOf(s, at, |t.tries|)
    decreases |items|, 2 - attempt
  {
    var outcome := Examine(s.replies(at), items);
    if outcome.Threw? {
      if s.timedOut(outcome.error) && |items| > 1 {
        var mid := Midpoint(|items|);
        var left := Attempts(s, items[..mid], depth + 1, at + 1, 0);
        AttemptsSend(s, items[..mid], depth + 1, at + 1, 0);
        AttemptsSend(s, items[mid..], depth + 1, left.next, 0);
        PromptsConcat(s, at + 1, |left.tries|, |Attempts(s, items[mid..], depth + 1, left.next, 0).tries|);
      } else if !s.timedOut(outcome.error) && attempt == 0 {
        AttemptsSend(s, items, depth, at + 1, 1);
      }
    }
  }

  lemma {:induction false} TimeoutsOnly(s: Service, items: seq<Item>, depth: nat, at: nat, attempt: nat)
    requires attempt < 2 && items != []
    requires OnlyTimeouts(s, at, Attempts(s, items, depth, at, attempt).tries)
    ensures |Attempts(s, items, depth, at, attempt).tries| <= 2 * |items| - 1
    decreases |items|
  {
    hide Examine, OnlyTimeouts, FollowsPolicy;
    var t := Attempts(s, items, depth, at, attempt);
    OneOfTwo(s, at, items);
    AttemptsFollowPolicy(s, items, depth, at, attempt);
    NotRefused(s, items, at, attempt == 1, t);
    if TimesOut(s, at, items) && |items| > 1 {
      var mid := Midpoint(|items|);
      var left := Attempts(s, items[..mid], depth + 1, at + 1, 0);
      AttemptsSend(s, items[..mid], depth + 1, at + 1, 0);
      if left.outcome.Threw? {
        TimeoutsSplit(s, at, [items], left.tries);
      } else {
        var right := Attempts(s, items[mid..], depth + 1, left.next, 0);
        TimeoutsSplit(s, at, [items], left.tries + right.tries);
        TimeoutsSplit(s, at + 1, left.tries, right.tries);
        TimeoutsOnly(s, items[mid..], depth + 1, left.next, 0);
      }
      TimeoutsOnly(s, items[..mid], depth + 1, at + 1, 0);
    }
  }

  lemma {:induction false} NotRefused(s: Service, items: seq<Item>, at: nat, repeat: bool, t: Trace)
    requires FollowsPolicy(s, items, at, repeat, t) && OnlyTimeouts(s, at, t.tries)
    ensures !Refused(s, at, items)
  {
    hide Refused;
    assert !Refused(s, at + 0, t.tries[0]);
  }

  /** If nothing but timeouts goes wrong, n items cost at most 2n - 1 attempts, each with at most one prompt. */
  lemma {:induction false} TimeoutBound(s: Service, items: seq<Item>, depth: nat, at: nat)
    requires items != [] && OnlyTimeouts(s, at, Translate(s, items, depth, at).tries)
    ensures var t := Translate(s, items, depth, at);
            && t.prompts == PromptsOf(s, at, |t.tries|)
            && t.prompts <= |t.tries| <= 2 * |items| - 1
            && (|items| == 1 ==> t.tries == [items])
  {
    hide Examine, OnlyTimeouts;
    var t := Translate(s, items, depth, at);
    AttemptsSend(s, items, depth, at, 0);
    TimeoutsOnly(s, items, depth, at, 0);
    AttemptsFollowPolicy(s, items, depth, at, 0);
    PromptsConcat(s, at, |t.tries|, 0);
  }

  // ---------- whose answer a text is ----------

  /** What the attempts that succeeded translate, later ones over earlier ones. */
  ghost function Gathered(s: Service, at: nat, tries: seq<seq<Item>>): map<string, string>
    decreases |tries|
  {
    if tries == [] then map[]
    else
      var first := Examine(s.replies(at), tries[0]);
      (if first.Done? then first.translated else map[]) + Gathered(s, at + 1, tries[1..])
  }

  lemma {:induction false} Grouped(a: map<string, string>, b: map<string, string>, c: map<string, string>)
    ensures (a + b) + c == a + (b + c)
  {
  }

  lemma {:induction false} GatheredConcat(s: Service, at: nat, a: seq<seq<Item>>, b: seq<seq<Item>>)
    ensures Gathered(s, at, a + b) == Gathered(s, at, a) + Gathered(s, at + |a|, b)
    decreases |a|
  {
    hide Examine;
    if a == [] {
      assert a + b == b;
    } else {
      var first := Examine(s.replies(at), a[0]);
      assert (a + b)[1..] == a[1..] + b;
      GatheredConcat(s, at + 1, a[1..], b);
      Grouped(if first.Done? then first.translated else map[], Gathered(s, at + 1, a[1..]), Gathered(s, at + |a|, b));
    }
  }

  lemma {:induction false} AttemptsGather(s: Service, items: seq<Item>, depth: nat, at: nat, attempt: nat)
    requires attempt < 2
    ensures var t := Attempts(s, items, depth, at, attempt);
            t.outcome.Done? ==> t.outcome.translated == Gathered(s, at, t.tries)
    decreases |items|, 2 - attempt
  {
    hide Examine, Gathered;
    var t := Attempts(s, items, depth, at, attempt);
    var outcome := Examine(s.replies(at), items);
    match outcome
    case Done(m) =>
      GatheredOne(s, at, items);
    case Threw(error) =>
      if s.timedOut(error) && |items| > 1 {
        var mid := Midpoint(|items|);
        var left := Attempts(s, items[..mid], depth + 1, at + 1, 0);
        assert t == After([items], Sent(s.replies(at)), Halves(s, items, depth, at + 1));
        AttemptsGather(s, items[..mid], depth + 1, at + 1, 0);
        AttemptsSend(s, items[..mid], depth + 1, at + 1, 0);
        if left.outcome.Done? {
          var right := Attempts(s, items[mid..], depth + 1, left.next, 0);
          AttemptsGather(s, items[mid..], depth + 1, left.next, 0);
          GatheredConcat(s, at + 1, left.tries, right.tries);
          GatheredCons(s, at, items, left.tries + right.tries);
        }
      } else if !s.timedOut(error) && attempt == 0 {
        AttemptsGather(s, items, depth, at + 1, 1);
        GatheredCons(s, at, items, Attempts(s, items, depth, at + 1, 1).tries);
      }
  }

  lemma {:induction false} RunGathers(s: Service, items: seq<Item>, depth: nat, at: nat)
    ensures var t := Translate(s, items, depth, at);
            && t.next == at + |t.tries|
            && (t.outcome.Done? ==> t.outcome.translated == Gathered(s, at, t.tries))
  {
    AttemptsSend(s, items, depth, at, 0);
    AttemptsGather(s, items, depth, at, 0);
  }

  lemma {:induction false} GatheredOne(s: Service, at: nat, items: seq<Item>)
    requires Examine(s.replies(at), items).Done?
    ensures Gathered(s, at, [items]) == Examine(s.replies(at), items).translated
  {
    hide Examine;
    assert [items][1..] == [];
    assert Gathered(s, at + 1, []) == map[];
  }

  lemma {:induction false} GatheredCons(s: Service, at: nat, items: seq<Item>, rest: seq<seq<Item>>)
    requires Examine(s.replies(at), items).Threw?
    ensures Gathered(s, at, [items] + rest) == Gathered(s, at + 1, rest)
  {
    hide Examine;
    assert ([items] + rest)[1..] == rest;
  }

  /** Attempt number i succeeds and translates the key by this text. */
  ghost predicate Gives(s: Service, at: nat, tries: seq<seq<Item>>, i: nat, key: string, text: string)
    requires i < |tries|
  {
    && Examine(s.replies(at + i), tries[i]).Done? && SomeItem(tries[i], key)
    && s.replies(at + i).Answered? && key in s.replies(at + i).fields && s.replies(at + i).fields[key] == text
  }

  ghost predicate GivesNothing(s: Service, at: nat, tries: seq<seq<Item>>, from: nat, key: string) {
    forall j: nat :: from <= j < |tries| && Examine(s.replies(at + j), tries[j]).Done? ==> !SomeItem(tries[j], key)
  }

  /** The last attempt that succeeds and asks for the key gave the text. */
  ghost predicate GivenLast(s: Service, at: nat, tries: seq<seq<Item>>, key: string, text: string) {
    exists i: nat :: i < |tries| && Gives(s, at, tries, i, key, text) && GivesNothing(s, at, tries, i + 1, key)
  }

  lemma {:induction false} GatheredMeans(s: Service, at: nat, tries: seq<seq<Item>>, key: string)
    ensures var m := Gathered(s, at, tries);
            if key in m then GivenLast(s, at, tries, key, m[key]) else GivesNothing(s, at, tries, 0, key)
    decreases |tries|
  {
    hide GivenLast, GivesNothing, Examine;
    if tries == [] {
      NothingGiven(s, at, key);
    } else {
      GatheredMeans(s, at + 1, tries[1..], key);
      if key in Gathered(s, at + 1, tries[1..]) {
        GivenLater(s, at, tries, key, Gathered(s, at, tries)[key]);
      } else {
        GivenFirst(s, at, tries, key);
      }
    }
  }

  lemma {:induction false} NothingGiven(s: Service, at: nat, key: string)
    ensures GivesNothing(s, at, [], 0, key)
  {
  }

  lemma {:induction false} GivenLater(s: Service, at: nat, tries: seq<seq<Item>>, key: string, text: string)
    requires tries != [] && GivenLast(s, at + 1, tries[1..], key, text)
    ensures GivenLast(s, at, tries, key, text)
  {
    hide GivesNothing, Examine, SomeItem;
    var rest := tries[1..];
    var i: nat :| i < |rest| && Gives(s, at + 1, rest, i, key, text) && GivesNothing(s, at + 1, rest, i + 1, key);
    Later(s, at, tries, key, i + 1);
    assert Gives(s, at, tries, i + 1, key, text);
  }

  lemma {:induction false} GivenFirst(s: Service, at: nat, tries: seq<seq<Item>>, key: string)
    requires tries != [] && GivesNothing(s, at + 1, tries[1..], 0, key) && key !in Gathered(s, at + 1, tries[1..])
    ensures var m := Gathered(s, at, tries);
            if key in m then GivenLast(s, at, tries, key, m[key]) else GivesNothing(s, at, tries, 0, key)
  {
    hide Examine, SomeItem, Gives;
    Later(s, at, tries, key, 0);
    if Examine(s.replies(at), tries[0]).Done? {
      FirstGives(s, at, tries, key);
    }
    var m := Gathered(s, at, tries);
    if key in m {
      assert Gives(s, at, tries, 0, key, m[key]) && GivesNothing(s, at, tries, 0 + 1, key);
    }
  }

  lemma {:induction false} Later(s: Service, at: nat, tries: seq<seq<Item>>, key: string, from: nat)
    requires tries != [] && GivesNothing(s, at + 1, tries[1..], from, key)
    ensures GivesNothing(s, at, tries, from + 1, key)
  {
    hide Examine, SomeItem;
    forall j: nat | from + 1 <= j < |tries| && Examine(s.replies(at + j), tries[j]).Done?
      ensures !SomeItem(tries[j], key)
    {
      assert tries[1..][j - 1] == tries[j];
      assert Examine(s.replies(at + 1 + (j - 1)), tries[1..][j - 1]).Done?;
    }
  }

  lemma {:induction false} FirstGives(s: Service, at: nat, tries: seq<seq<Item>>, key: string)
    requires tries != [] && Examine(s.replies(at), tries[0]).Done?
    ensures var m := Examine(s.replies(at), tries[0]).translated;
            if key in m then Gives(s, at, tries, 0, key, m[key]) else !SomeItem(tries[0], key)
  {
    CollectMeans(tries[0], s.replies(at).fields);
  }

  lemma {:induction false} AllGiven(s: Service, at: nat, tries: seq<seq<Item>>)
    ensures var m := Gathered(s, at, tries); forall k :: k in m ==> GivenLast(s, at, tries, k, m[k])
  {
    hide GivenLast, Gathered;
    forall k | k in Gathered(s, at, tries) ensures GivenLast(s, at, tries, k, Gathered(s, at, tries)[k]) {
      GatheredMeans(s, at, tries, k);
    }
  }

  /** On success every text is the answer of the attempt that asked for its key and succeeded, the last one
      if several did; nothing an attempt that failed has answered is used. */
  lemma {:induction false} TextsAreGiven(s: Service, items: seq<Item>, depth: nat, at: nat)
    ensures var t := Translate(s, items, depth, at);
            t.outcome.Done? ==>
              forall k :: k in t.outcome.translated ==> GivenLast(s, at, t.tries, k, t.outcome.translated[k])
  {
    hide GivenLast, Gathered;
    RunGathers(s, items, depth, at);
    AllGiven(s, at, Translate(s, items, depth, at).tries);
  }

  // ---------- the code ----------

  /** Once one item is missing, the outcome is that error whatever follows. */
  lemma {:induction false} CollectStops(items: seq<Item>, fields: map<string, string>, k: nat)
    requires k <= |items| && Collect(items[..k], fields).Threw?
    ensures Collect(items, fields) == Collect(items[..k], fields)
    decreases |items|
  {
    if k < |items| {
      assert items[..|items| - 1][..k] == items[..k];
      CollectStops(items[..|items| - 1], fields, k);
    } else {
      assert items[..k] == items;
    }
  }

  lemma {:induction false} AfterAfter(a: seq<seq<Item>>, p: nat, b: seq<seq<Item>>, q: nat, t: Trace)
    ensures After(a, p, After(b, q, t)) == After(a + b, p + q, t)
  {
    assert a + (b + t.tries) == (a + b) + t.tries;
  }

  lemma {:induction false} AfterNothing(t: Trace)
    ensures After([], 0, t) == t
  {
    assert [] + t.tries == t.tries;
  }

  /** One attempt of the loop, after the attempts `here` with `prompts` prompts. */
  lemma {:induction false} OneAttempt(s: Service, items: seq<Item>, depth: nat, at: nat, attempt: nat,
                                      here: seq<seq<Item>>, prompts: nat)
    requires attempt < MAX_ATTEMPTS
    ensures var reply := s.replies(at);
            var t := After(here, prompts, Attempts(s, items, depth, at, attempt));
            match Examine(reply, items)
            case Done(m) => t == Trace(Done(m), at + 1, prompts + Sent(reply), depth, here + [items])
            case Threw(error) =>
              if s.timedOut(error) && |items| > 1 then
                t == After(here + [items], prompts + Sent(reply), Halves(s, items, depth, at + 1))
              else if !s.timedOut(error) && attempt + 1 < MAX_ATTEMPTS then
                t == After(here + [items], prompts + Sent(reply), Attempts(s, items, depth, at + 1, attempt + 1))
              else
                t == Trace(Threw(error), at + 1, prompts + Sent(reply), depth, here + [items])
  {
    hide Halves;
    var reply := s.replies(at);
    if |items| > 1 {
      AfterAfter(here, prompts, [items], Sent(reply), Halves(s, items, depth, at + 1));
    }
    if attempt + 1 < MAX_ATTEMPTS {
      AfterAfter(here, prompts, [items], Sent(reply), Attempts(s, items, depth, at + 1, attempt + 1));
    }
  }

  /** The two halves, after the attempts `here` with `prompts` prompts; `before` is what came earlier. */
  lemma {:induction false} TwoHalves(s: Service, items: seq<Item>, depth: nat, at: nat,
                                     before: seq<seq<Item>>, here: seq<seq<Item>>, prompts: nat)
    requires |items| > 1
    ensures var mid := Midpoint(|items|);
            var left := Translate(s, items[..mid], depth + 1, at);
            var right := Translate(s, items[mid..], depth + 1, left.next);
            var t := After(here, prompts, Halves(s, items, depth, at));
            if left.outcome.Threw? then
              && t.outcome == left.outcome && t.next == left.next && t.prompts == prompts + left.prompts
              && before + here + left.tries == before + t.tries
            else
              && t.outcome == (if right.outcome.Threw? then right.outcome
                               else Done(left.outcome.translated + right.outcome.translated))
              && t.next == right.next && t.prompts == prompts + left.prompts + right.prompts
              && before + here + left.tries + right.tries == before + t.tries
  {
    hide Attempts;
  }

  class Translator {
    const service: Service
    /** The number of the next reply, and of the prompts sent so far. */
    var next: nat
    var prompts: nat
    /** The client in use, and how many were created. */
    var client: Option<nat>
    var clients: nat
    ghost var uses: seq<Use>
    /** The items of every attempt so far. */
    ghost var tries: seq<seq<Item>>

    constructor (service: Service)
      ensures this.service == service && next == 0 && prompts == 0 && client.None? && tries == [] && Valid()
    {
      this.service, next, prompts, client, clients, uses, tries := service, 0, 0, None, 0, [], [];
    }

    /** No prompt was sent to a client on which an earlier one had failed. */
    ghost predicate OnFreshClients()
      reads this
    {
      && prompts == |uses| && next == |tries|
      && (forall i :: 0 <= i < |uses| ==> uses[i].client < clients && uses[i].attempt < |tries|)
      && (client.Some? ==> client.value < clients)
      && forall i, j :: 0 <= i < j < |uses| && uses[i].client == uses[j].client ==> uses[i].ok
    }

    /** Nor has one failed on the client in use. */
    ghost predicate Valid()
      reads this
    {
      OnFreshClients() && forall i :: 0 <= i < |uses| && client == Some(uses[i].client) ==> uses[i].ok
    }

    /** `resetClient` */
    method ResetClient()
      requires OnFreshClients()
      modifies this`client
      ensures client.None? && Valid()
    {
      client := None;
    }

    /** The loop that checks an answer item by item. */
    method CollectTranslations(items: seq<Item>, fields: map<string, string>) returns (outcome: Outcome)
      ensures outcome == Collect(items, fields)
    {
      var translated: map<string, string> := map[];
      for k := 0 to |items|
        invariant Collect(items[..k], fields) == Done(translated)
      {
        var item := items[k];
        assert items[..k + 1][..k] == items[..k];
        if !Translates(fields, item) {
          CollectStops(items, fields, k + 1);
          return Threw(MissingMessage(item));
        }
        translated := translated[item.key := fields[item.key]];
      }
      assert items[..|items|] == items;
      outcome := Done(translated);
    }

    /** `getClient().prompt(...)` and the check of its answer. */
    method Attempt(items: seq<Item>) returns (outcome: Outcome)
      requires Valid()
      modifies this
      ensures next == old(next) + 1 && prompts == old(prompts) + Sent(service.replies(old(next)))
      ensures tries == old(tries) + [items]
      ensures uses == old(uses) || exists c :: uses == old(uses) + [Use(c, old(next), outcome.Done?)]
      ensures outcome == Examine(service.replies(old(next)), items)
      ensures OnFreshClients() && (outcome.Done? ==> Valid())
    {
      var reply := service.replies(next);
      ghost var attempt := next;
      next := next + 1;
      tries := tries + [items];
      if reply.NoClient? {
        return Threw(reply.error);
      }
      if client.None? {
        client := Some(clients);
        clients := clients + 1;
      }
      prompts := prompts + 1;
      match reply {
        case Failed(error) => outcome := Threw(error);
        case Answered(fields) => outcome := CollectTranslations(items, fields);
      }
      uses := uses + [Use(client.value, attempt, outcome.Done?)];
    }

    /** `translateBatch` */
    method TranslateBatch(items: seq<Item>, splitDepth: nat) returns (outcome: Outcome)
      requires Valid()
      modifies this
      ensures Valid()
      ensures outcome == Translate(service, items, splitDepth, old(next)).outcome
      ensures next == Translate(service, items, splitDepth, old(next)).next
      ensures prompts == old(prompts) + Translate(service, items, splitDepth, old(next)).prompts
      ensures tries == old(tries) + Translate(service, items, splitDepth, old(next)).tries
      decreases |items|
    {
      hide Attempts, Halves, After, Examine, Valid, OnFreshClients;
      var lastError := "translation failed";
      var attempt := 0;
      ghost var whole := Translate(service, items, splitDepth, next);
      ghost var here: seq<seq<Item>> := [];
      AfterNothing(whole);
      while attempt < MAX_ATTEMPTS
        invariant attempt <= MAX_ATTEMPTS && prompts >= old(prompts) && Valid()
        invariant tries == old(tries) + here
        invariant whole ==
                    if attempt < MAX_ATTEMPTS then
                      After(here, prompts - old(prompts), Attempts(service, items, splitDepth, next, attempt))
                    else Trace(Threw(lastError), next, prompts - old(prompts), splitDepth, here)
      {
        OneAttempt(service, items, splitDepth, next, attempt, here, prompts - old(prompts));
        outcome := Attempt(items);
        here := here + [items];
        if outcome.Done? {
          return;
        }
        lastError := outcome.error;
        ResetClient();
        if service.timedOut(lastError) && |items| > 1 {
          TwoHalves(service, items, splitDepth, next, old(tries), here, prompts - old(prompts));
          var midpoint := Midpoint(|items|);
          var left := TranslateBatch(items[..midpoint], splitDepth + 1);
          if left.Threw? {
            return left;
          }
          var right := TranslateBatch(items[midpoint..], splitDepth + 1);
          if right.Threw? {
            return right;
          }
          return Done(left.translated + right.translated);
        }
        if service.timedOut(lastError) {
          break;
        }
        attempt := attempt + 1;
      }
      return Threw(lastError);
    }
  }
}
